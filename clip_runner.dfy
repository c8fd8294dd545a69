/** `runClipBlock` (client/electron/main/runClipBlock.ts): load the clip, take its children from the
    whole store, pick the first action child, check that it has code, and run that code. The code is
    foreign JavaScript run through `new Function`; the model receives its outcome from a `ScriptHost`.
    The runner only reads the table, so it is a function of the table. */
module ClipRunner {
  import opened Base
  import opened Json
  import opened Blocks
  import opened BlockTable

  /** The `{ error, message }` envelope both runners produce. */
  datatype RunResult = RunResult(error: bool, message: string)

  /** How the user's script ended: it returned, or it threw something whose message is given. */
  datatype ScriptOutcome = Returned | Threw(message: string)

  /** Runs `code` with the clip block and its children as arguments. */
  type ScriptHost = (string, Block, seq<Block>) -> ScriptOutcome

  /** Where a run stops: the early exits, in the order both runners test them, and success. */
  datatype Outcome = NotAClip | NoActionChild | NoActionCode | ScriptFailed(message: string) | Completed

  const NotFound := "Clip block not found or invalid"
  const NoAction := "No action block in this clip"
  const NoCode := "No code in action block"
  const CodeErrorPrefix := "Error running code: "
  const Done := "Clip run done!"

  /** The children of a clip as the runner computes them: the stored blocks its `content` lists. */
  function StoredChildren(t: BlockRows, clip: Block): seq<Block> {
    ChildrenOf(BlockTable.FindAll(t), clip.content)
  }

  /** The shared decision sequence, given the clip (if any) and the blocks its children are drawn from. */
  function Decide(clip: Option<Block>, all: seq<Block>, host: ScriptHost): (o: Outcome)
    ensures o == NotAClip <==> clip.None? || clip.value.blockType != ClipType
    ensures o == NoActionChild <==> !o.NotAClip? && ActionOf(ChildrenOf(all, clip.value.content)).None?
    ensures o.NoActionCode? || o.ScriptFailed? || o.Completed? ==>
      clip.Some? && ActionOf(ChildrenOf(all, clip.value.content)).Some?
    ensures o == NoActionCode <==>
      !o.NotAClip? && !o.NoActionChild? && CodeOf(ActionOf(ChildrenOf(all, clip.value.content)).value.properties).None?
    ensures o.ScriptFailed? || o.Completed? ==>
      var children := ChildrenOf(all, clip.value.content);
      var code := CodeOf(ActionOf(children).value.properties);
      && code.Some?
      && (o.Completed? <==> host(code.value, clip.value, children) == Returned)
      && (o.ScriptFailed? ==> host(code.value, clip.value, children) == Threw(o.message))
  {
    match clip
    case None => NotAClip
    case Some(c) =>
      if c.blockType != ClipType then NotAClip
      else
        var children := ChildrenOf(all, c.content);
        match ActionOf(children)
        case None => NoActionChild
        case Some(action) =>
          match CodeOf(action.properties)
          case None => NoActionCode
          case Some(code) =>
            match host(code, c, children)
            case Threw(msg) => ScriptFailed(msg)
            case Returned => Completed
  }

  /** The envelope `runClipBlock` returns for each outcome. */
  function Envelope(o: Outcome): (r: RunResult)
    ensures r.error <==> !o.Completed?
  {
    match o
    case NotAClip => RunResult(true, NotFound)
    case NoActionChild => RunResult(true, NoAction)
    case NoActionCode => RunResult(true, NoCode)
    case ScriptFailed(msg) => RunResult(true, CodeErrorPrefix + msg)
    case Completed => RunResult(false, Done)
  }

  /** Different outcomes give different envelopes, so the envelope tells the caller exactly where the
      run stopped (and the thrown message). */
  lemma {:induction false} EnvelopeInjective(o1: Outcome, o2: Outcome)
    requires Envelope(o1) == Envelope(o2)
    ensures o1 == o2
  {
    var m1, m2 := Envelope(o1).message, Envelope(o2).message;
    EnvelopeFirstChar(o1);
    EnvelopeFirstChar(o2);
    if o1.ScriptFailed? && o2.ScriptFailed? {
      assert m1[|CodeErrorPrefix|..] == o1.message;
      assert m2[|CodeErrorPrefix|..] == o2.message;
    }
  }

  /** Only a script failure's message starts with `E`. */
  lemma EnvelopeFirstChar(o: Outcome)
    ensures |Envelope(o).message| > 0 && (Envelope(o).message[0] == 'E' <==> o.ScriptFailed?)
  {
  }

  /** `runClipBlock(clipId)`: the clip is read with `findById`, the children from `findAll`. */
  function RunClipBlock(t: BlockRows, clipId: string, host: ScriptHost): (r: RunResult)
    ensures (clipId !in t.rows || FindById(t, clipId).value.blockType != ClipType) ==> r == RunResult(true, NotFound)
    ensures !r.error <==> Decide(FindById(t, clipId), BlockTable.FindAll(t), host) == Completed
  {
    Envelope(Decide(FindById(t, clipId), BlockTable.FindAll(t), host))
  }

  /** A run reports a thrown script error, with its message after the fixed prefix, exactly when the
      script threw that message. */
  lemma ScriptErrorReported(t: BlockRows, clipId: string, host: ScriptHost, msg: string)
    ensures Decide(FindById(t, clipId), BlockTable.FindAll(t), host) == ScriptFailed(msg) <==>
      RunClipBlock(t, clipId, host) == RunResult(true, CodeErrorPrefix + msg)
  {
    var o := Decide(FindById(t, clipId), BlockTable.FindAll(t), host);
    if Envelope(o) == RunResult(true, CodeErrorPrefix + msg) {
      EnvelopeInjective(o, ScriptFailed(msg));
    }
  }

  /** A stored block whose type the decoder does not know reads back as `clip`, so it gets past the
      first check and is run like a clip. */
  lemma UnknownTypeRunsAsClip(t: BlockRows, clipId: string, host: ScriptHost)
    requires clipId in t.rows && !KnownType(t.rows[clipId].data.blockType)
    ensures Decide(FindById(t, clipId), BlockTable.FindAll(t), host) != NotAClip
  {
  }

  /** Only the first action child counts: a later one, with or without code, is never looked at. */
  lemma FirstActionWins(t: BlockRows, clipId: string, host: ScriptHost)
    requires clipId in t.rows && FindById(t, clipId).value.blockType == ClipType
    requires var children := StoredChildren(t, FindById(t, clipId).value);
      exists i :: 0 <= i < |children| && children[i].blockType == ActionType && CodeOf(children[i].properties).None?
        && forall j :: 0 <= j < i ==> children[j].blockType != ActionType
    ensures RunClipBlock(t, clipId, host) == RunResult(true, NoCode)
  {
    var children := StoredChildren(t, FindById(t, clipId).value);
    var i :| 0 <= i < |children| && children[i].blockType == ActionType && CodeOf(children[i].properties).None?
        && forall j :: 0 <= j < i ==> children[j].blockType != ActionType;
    FirstOfTypeIsFirst(children, ActionType, i);
  }

  /** An action of the default `copy` kind with no code still fails: neither runner falls back to a
      built-in action. */
  lemma CopyActionWithoutCodeFails(t: BlockRows, clipId: string, host: ScriptHost)
    requires clipId in t.rows && FindById(t, clipId).value.blockType == ClipType
    requires var children := StoredChildren(t, FindById(t, clipId).value);
      ActionOf(children).Some? && ActionOf(children).value.properties == map["actionType" := Str("copy")]
    ensures RunClipBlock(t, clipId, host) == RunResult(true, NoCode)
  {
  }
}
