/** The block handlers of the main process (client/electron/main/ipc/blockIpc.ts). The CRUD handlers
    forward to the repository and answer `{ success: true, ... }`; an exception thrown by the
    repository rejects the renderer's `invoke` instead. `block-run` re-runs the clip decision sequence
    on the block the renderer sent and answers with exactly one `clip-run-done` message. */
module BlockIpc {
  import opened Base
  import opened Json
  import opened Tables
  import opened Blocks
  import opened BlockTable
  import opened Storage
  import opened BlockRepository
  import opened ClipRunner

  const NotClipMessage := "Not a clip block. Cannot run."
  const MissingActionMessage := "Missing an action block in this clip."
  const MissingCodeMessage := "No action code defined in this action block."
  const ExecErrorPrefix := "Error executing action code: "

  /** `{ success: true, newId }`. */
  datatype CreateReply = CreateReply(success: bool, newId: string)

  /** The `clip-run-done` message `block-run` sends for each outcome. */
  function IpcEnvelope(o: Outcome): (r: RunResult)
    ensures r.error <==> !o.Completed?
  {
    match o
    case NotAClip => RunResult(true, NotClipMessage)
    case NoActionChild => RunResult(true, MissingActionMessage)
    case NoActionCode => RunResult(true, MissingCodeMessage)
    case ScriptFailed(msg) => RunResult(true, ExecErrorPrefix + msg)
    case Completed => RunResult(false, Done)
  }

  /** Only a script failure's message starts with `E`. */
  lemma IpcEnvelopeFirstChar(o: Outcome)
    ensures |IpcEnvelope(o).message| > 0 && (IpcEnvelope(o).message[0] == 'E' <==> o.ScriptFailed?)
  {
  }

  /** Different outcomes give different messages. */
  lemma IpcEnvelopeInjective(o1: Outcome, o2: Outcome)
    requires IpcEnvelope(o1) == IpcEnvelope(o2)
    ensures o1 == o2
  {
    IpcEnvelopeFirstChar(o1);
    IpcEnvelopeFirstChar(o2);
    if o1.ScriptFailed? && o2.ScriptFailed? {
      assert IpcEnvelope(o1).message[|ExecErrorPrefix|..] == o1.message;
      assert IpcEnvelope(o2).message[|ExecErrorPrefix|..] == o2.message;
    }
  }

  /** The `block-run` message for the block the renderer sent, with `all` the stored blocks. */
  function BlockRun(payload: Block, all: seq<Block>, host: ScriptHost): (r: RunResult)
    ensures payload.blockType != ClipType ==> r == RunResult(true, NotClipMessage)
    ensures !r.error <==> Decide(Some(payload), all, host) == Completed
  {
    IpcEnvelope(Decide(Some(payload), all, host))
  }

  /** A payload that is not a clip is answered without looking at the store. */
  lemma NonClipIgnoresStore(payload: Block, all1: seq<Block>, all2: seq<Block>, host: ScriptHost)
    requires payload.blockType != ClipType
    ensures BlockRun(payload, all1, host) == BlockRun(payload, all2, host) == RunResult(true, NotClipMessage)
  {
  }

  /** For one outcome, the two envelopes fail together and name the same failure. */
  lemma EnvelopesAgree(o: Outcome, msg: string)
    ensures Envelope(o).error <==> IpcEnvelope(o).error
    ensures Envelope(o) == RunResult(true, NotFound) <==> IpcEnvelope(o) == RunResult(true, NotClipMessage)
    ensures Envelope(o) == RunResult(true, NoAction) <==> IpcEnvelope(o) == RunResult(true, MissingActionMessage)
    ensures Envelope(o) == RunResult(true, NoCode) <==> IpcEnvelope(o) == RunResult(true, MissingCodeMessage)
    ensures Envelope(o) == RunResult(true, CodeErrorPrefix + msg) <==> IpcEnvelope(o) == RunResult(true, ExecErrorPrefix + msg)
  {
    if Envelope(o) == RunResult(true, NotFound) { EnvelopeInjective(o, NotAClip); }
    if Envelope(o) == RunResult(true, NoAction) { EnvelopeInjective(o, NoActionChild); }
    if Envelope(o) == RunResult(true, NoCode) { EnvelopeInjective(o, NoActionCode); }
    if Envelope(o) == RunResult(true, CodeErrorPrefix + msg) { EnvelopeInjective(o, ScriptFailed(msg)); }
    if IpcEnvelope(o) == RunResult(true, NotClipMessage) { IpcEnvelopeInjective(o, NotAClip); }
    if IpcEnvelope(o) == RunResult(true, MissingActionMessage) { IpcEnvelopeInjective(o, NoActionChild); }
    if IpcEnvelope(o) == RunResult(true, MissingCodeMessage) { IpcEnvelopeInjective(o, NoActionCode); }
    if IpcEnvelope(o) == RunResult(true, ExecErrorPrefix + msg) { IpcEnvelopeInjective(o, ScriptFailed(msg)); }
  }

  /** The two revisions of the runner agree when `block-run` is sent the stored clip: both succeed or
      both fail, at the same step, and a script error carries the same message. */
  lemma RevisionsAgree(t: BlockRows, clipId: string, host: ScriptHost, msg: string)
    requires clipId in t.rows
    ensures var runner := RunClipBlock(t, clipId, host);
      var ipc := BlockRun(FindById(t, clipId).value, BlockTable.FindAll(t), host);
      && (runner.error <==> ipc.error)
      && (runner == RunResult(true, NotFound) <==> ipc == RunResult(true, NotClipMessage))
      && (runner == RunResult(true, NoAction) <==> ipc == RunResult(true, MissingActionMessage))
      && (runner == RunResult(true, NoCode) <==> ipc == RunResult(true, MissingCodeMessage))
      && (runner == RunResult(true, CodeErrorPrefix + msg) <==> ipc == RunResult(true, ExecErrorPrefix + msg))
  {
    var o := Decide(FindById(t, clipId), BlockTable.FindAll(t), host);
    assert RunClipBlock(t, clipId, host) == Envelope(o);
    assert BlockRun(FindById(t, clipId).value, BlockTable.FindAll(t), host) == IpcEnvelope(o);
    EnvelopesAgree(o, msg);
  }

  /** The handlers registered by `initBlockIpc`, with the messages sent on `clip-run-done` so far. */
  class BlockHandlers {
    const repo: BlockSqliteRepository
    var sent: seq<RunResult>

    constructor(repo: BlockSqliteRepository)
      ensures this.repo == repo && sent == []
    {
      this.repo := repo;
      sent := [];
    }

    /** `blocks-load`. */
    method BlocksLoad() returns (r: seq<Block>)
      requires repo.db.Valid()
      ensures r == BlockTable.FindAll(repo.db.blocks)
    {
      r := repo.FindAll();
    }

    /** `blocks-create`: answers with the id the repository inserted. */
    method BlocksCreate(partial: BlockDraft, generated: string) returns (r: Result<CreateReply, DbError>)
      requires repo.db.Valid()
      modifies repo.db
      ensures repo.db.Valid() && repo.db.clock == old(repo.db.clock) + 1
      ensures var spec := BlockTable.Create(old(repo.db.blocks), partial, generated, repo.db.clock);
        && (spec.Err? ==> r == Err(spec.error) && repo.db.blocks == old(repo.db.blocks))
        && (spec.Ok? ==> r == Ok(CreateReply(true, spec.value.1)) && repo.db.blocks == spec.value.0)
      ensures repo.db.blockTypes == old(repo.db.blockTypes) && repo.db.clips == old(repo.db.clips)
      ensures repo.db.labels == old(repo.db.labels) && repo.db.clipLabels == old(repo.db.clipLabels)
    {
      var created := repo.Create(partial, generated);
      if created.Err? {
        r := Err(created.error);
      } else {
        r := Ok(CreateReply(true, created.value));
      }
    }

    /** `blocks-update`. */
    method BlocksUpdate(b: Block) returns (reply: Reply)
      requires repo.db.Valid()
      modifies repo.db
      ensures repo.db.Valid() && repo.db.clock == old(repo.db.clock) + 1
      ensures reply.success && repo.db.blocks == BlockTable.Update(old(repo.db.blocks), b, repo.db.clock)
      ensures repo.db.blockTypes == old(repo.db.blockTypes) && repo.db.clips == old(repo.db.clips)
      ensures repo.db.labels == old(repo.db.labels) && repo.db.clipLabels == old(repo.db.clipLabels)
    {
      repo.Update(b);
      reply := Reply(true);
    }

    /** `blocks-delete`. */
    method BlocksDelete(id: string) returns (reply: Reply)
      requires repo.db.Valid()
      modifies repo.db
      ensures repo.db.Valid() && repo.db.clock == old(repo.db.clock)
      ensures reply.success && repo.db.blocks == BlockTable.DeleteById(old(repo.db.blocks), id)
      ensures repo.db.blockTypes == old(repo.db.blockTypes) && repo.db.clips == old(repo.db.clips)
      ensures repo.db.labels == old(repo.db.labels) && repo.db.clipLabels == old(repo.db.clipLabels)
    {
      repo.DeleteById(id);
      reply := Reply(true);
    }

    /** `block-run`: one message per run, the database untouched. */
    method OnBlockRun(payload: Block, host: ScriptHost)
      requires repo.db.Valid()
      modifies this
      ensures sent == old(sent) + [BlockRun(payload, BlockTable.FindAll(repo.db.blocks), host)]
    {
      var outcome: Outcome;
      if payload.blockType != ClipType {
        outcome := NotAClip;
      } else {
        var all := repo.FindAll();
        var children := ChildrenOf(all, payload.content);
        var action := ActionOf(children);
        if action.None? {
          outcome := NoActionChild;
        } else {
          var code := CodeOf(action.value.properties);
          if code.None? {
            outcome := NoActionCode;
          } else {
            var ran := host(code.value, payload, children);
            outcome := if ran.Threw? then ScriptFailed(ran.message) else Completed;
          }
        }
      }
      assert outcome == Decide(Some(payload), BlockTable.FindAll(repo.db.blocks), host);
      sent := sent + [IpcEnvelope(outcome)];
    }
  }
}
