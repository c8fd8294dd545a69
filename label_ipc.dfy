/** The label handlers of the main process (client/electron/main/ipc/labelIpc.ts). Besides forwarding
    CRUD to the repository, `clip-add-label` enforces the cap of ten labels per clip: it counts the
    clip's links first and throws when the clip already has ten. */
module LabelIpc {
  import opened Base
  import opened Tables
  import opened LabelTable
  import opened Storage
  import opened LabelRepository

  const MaxLabelsPerClip := 10
  const TooManyLabels := "This clip already has 10 labels (max)."

  /** No clip has more than ten labels. */
  ghost predicate WithinCap(links: Links) {
    forall clipId :: CountLabelsOfClip(links, clipId) <= MaxLabelsPerClip
  }

  /** `clip-add-label` on the link set: refused when the clip's count has reached the cap, even if the
      pair is already there (the count is read before `INSERT OR IGNORE` would ignore it). */
  function AddLabelCapped(links: Links, clipId: string, labelId: string): (r: Result<Links, string>)
    ensures r.Err? <==> CountLabelsOfClip(links, clipId) >= MaxLabelsPerClip
    ensures r.Err? ==> r.error == TooManyLabels
    ensures r.Ok? ==> ClipLabel(clipId, labelId) in r.value && links <= r.value
    ensures r.Ok? ==> forall p :: p in r.value - links ==> p == ClipLabel(clipId, labelId)
  {
    if CountLabelsOfClip(links, clipId) >= MaxLabelsPerClip then Err(TooManyLabels)
    else Ok(AddLabelToClip(links, clipId, labelId))
  }

  /** The cap is an invariant of `clip-add-label`: a successful add never takes any clip past ten. */
  lemma CapPreserved(links: Links, clipId: string, labelId: string)
    requires WithinCap(links)
    ensures AddLabelCapped(links, clipId, labelId).Ok? ==> WithinCap(AddLabelCapped(links, clipId, labelId).value)
  {
    if AddLabelCapped(links, clipId, labelId).Ok? {
      var added := AddLabelToClip(links, clipId, labelId);
      forall c
        ensures CountLabelsOfClip(added, c) <= MaxLabelsPerClip
      {
        if c == clipId {
          AddCount(links, clipId, labelId, clipId + "'");
        } else {
          AddCount(links, clipId, labelId, c);
        }
      }
    }
  }

  /** A clip at the cap cannot be re-given a label it already has: the count check comes first. */
  lemma FullClipRefusesExistingLabel(links: Links, clipId: string, labelId: string)
    requires ClipLabel(clipId, labelId) in links && CountLabelsOfClip(links, clipId) == MaxLabelsPerClip
    ensures AddLabelCapped(links, clipId, labelId) == Err(TooManyLabels)
    ensures AddLabelToClip(links, clipId, labelId) == links
  {
    AddIdempotent(links, clipId, labelId);
  }

  /** The handlers registered by `initLabelIpc`. */
  class LabelHandlers {
    const repo: LabelSqliteRepository

    constructor(repo: LabelSqliteRepository)
      ensures this.repo == repo
    {
      this.repo := repo;
    }

    /** `labels-load`. */
    method LabelsLoad() returns (r: seq<Label>)
      ensures r == LabelTable.FindAll(repo.db.labels)
    {
      r := repo.FindAll();
    }

    /** `labels-create`: only id, name and color are passed on; the stamps are the repository's. */
    method LabelsCreate(id: string, name: string, color: string) returns (r: Result<Reply, DbError>)
      requires repo.db.Valid()
      modifies repo.db
      ensures repo.db.Valid() && repo.db.clock == old(repo.db.clock) + 1
      ensures r.Err? <==> id in old(repo.db.labels.rows)
      ensures r.Ok? ==> r.value.success
      ensures r.Ok? ==> repo.db.labels == Insert(old(repo.db.labels), id, LabelRecord(name, color), repo.db.clock)
      ensures r.Err? ==> repo.db.labels == old(repo.db.labels)
      ensures repo.db.blocks == old(repo.db.blocks) && repo.db.blockTypes == old(repo.db.blockTypes)
      ensures repo.db.clips == old(repo.db.clips) && repo.db.clipLabels == old(repo.db.clipLabels)
    {
      var created := repo.Create(Label(id, name, color, None, None));
      if created.Err? {
        r := Err(created.error);
      } else {
        r := Ok(Reply(true));
      }
    }

    /** `labels-update`. */
    method LabelsUpdate(id: string, name: string, color: string) returns (reply: Reply)
      requires repo.db.Valid()
      modifies repo.db
      ensures repo.db.Valid() && repo.db.clock == old(repo.db.clock) + 1
      ensures reply.success
      ensures repo.db.labels == Rewrite(old(repo.db.labels), id, LabelRecord(name, color), repo.db.clock)
      ensures repo.db.blocks == old(repo.db.blocks) && repo.db.blockTypes == old(repo.db.blockTypes)
      ensures repo.db.clips == old(repo.db.clips) && repo.db.clipLabels == old(repo.db.clipLabels)
    {
      repo.Update(Label(id, name, color, None, None));
      reply := Reply(true);
    }

    /** `labels-delete`: the label and its links go. */
    method LabelsDelete(id: string) returns (reply: Reply)
      requires repo.db.Valid()
      modifies repo.db
      ensures repo.db.Valid() && repo.db.clock == old(repo.db.clock)
      ensures reply.success
      ensures (repo.db.labels, repo.db.clipLabels) == LabelTable.DeleteById(old(repo.db.labels), old(repo.db.clipLabels), id)
      ensures repo.db.blocks == old(repo.db.blocks) && repo.db.blockTypes == old(repo.db.blockTypes)
      ensures repo.db.clips == old(repo.db.clips)
    {
      repo.DeleteById(id);
      reply := Reply(true);
    }

    /** `clip-add-label`: count, refuse at ten, otherwise link. */
    method ClipAddLabel(clipId: string, labelId: string) returns (r: Result<Reply, string>)
      requires repo.db.Valid()
      modifies repo.db
      ensures repo.db.Valid()
      ensures var spec := AddLabelCapped(old(repo.db.clipLabels), clipId, labelId);
        && (spec.Err? ==> r == Err(spec.error) && repo.db.clipLabels == old(repo.db.clipLabels))
        && (spec.Ok? ==> r == Ok(Reply(true)) && repo.db.clipLabels == spec.value)
      ensures repo.db.blocks == old(repo.db.blocks) && repo.db.blockTypes == old(repo.db.blockTypes)
      ensures repo.db.clips == old(repo.db.clips) && repo.db.labels == old(repo.db.labels)
    {
      var count := repo.CountLabelsOfClip(clipId);
      if count >= MaxLabelsPerClip {
        r := Err(TooManyLabels);
        return;
      }
      repo.AddLabelToClip(clipId, labelId);
      r := Ok(Reply(true));
    }

    /** `clip-remove-label`. */
    method ClipRemoveLabel(clipId: string, labelId: string) returns (reply: Reply)
      requires repo.db.Valid()
      modifies repo.db
      ensures repo.db.Valid() && repo.db.clock == old(repo.db.clock)
      ensures reply.success
      ensures repo.db.clipLabels == LabelTable.RemoveLabelFromClip(old(repo.db.clipLabels), clipId, labelId)
      ensures repo.db.blocks == old(repo.db.blocks) && repo.db.blockTypes == old(repo.db.blockTypes)
      ensures repo.db.clips == old(repo.db.clips) && repo.db.labels == old(repo.db.labels)
    {
      repo.RemoveLabelFromClip(clipId, labelId);
      reply := Reply(true);
    }
  }
}
