/** The renderer's clip store (client/src/store/clipStore.ts). Each write is sent to the main process,
    whose `clips-*` handlers (client/electron/main/ipc/clipIpc.ts) pass it straight to the clip
    repository, and then applied to the list in memory; nothing is reloaded. */
module ClipStore {
  import opened Base
  import opened Seqs
  import opened Tables
  import opened ClipTable
  import opened Storage
  import opened ClipRepository

  /** `Omit<ClipItem, "id">`, what `addClip` receives. */
  datatype ClipData = ClipData(
    name: string,
    projectRoot: string,
    selectedPaths: seq<string>,
    actionType: string,
    actionCode: Option<string>,
    shortcut: Option<string>,
    isFavorite: Option<bool>)

  /** `Partial<ClipItem>` as `updateClip` receives it; for the optional fields `Some(None)` is a
      property present with the value `undefined`. */
  datatype ClipPatch = ClipPatch(
    id: Option<string>,
    name: Option<string>,
    projectRoot: Option<string>,
    selectedPaths: Option<seq<string>>,
    actionType: Option<string>,
    actionCode: Option<Option<string>>,
    shortcut: Option<Option<string>>,
    isFavorite: Option<Option<bool>>)

  const EmptyPatch := ClipPatch(None, None, None, None, None, None, None, None)

  function IdOf(c: Clip): string {
    c.id
  }

  /** The ids of a list of clips, in order. */
  function Ids(cs: seq<Clip>): (r: seq<string>)
    ensures |r| == |cs| && forall i :: 0 <= i < |cs| ==> r[i] == cs[i].id
  {
    Map(cs, IdOf)
  }

  function HasId(id: string): Clip -> bool {
    (c: Clip) => c.id == id
  }

  function NotId(id: string): Clip -> bool {
    (c: Clip) => c.id != id
  }

  /** `{ ...clipData, id, isFavorite: clipData.isFavorite ?? false }`: the clip `addClip` sends and keeps. */
  function NewClip(data: ClipData, id: string): (c: Clip)
    ensures c.id == id
    ensures c.name == data.name && c.projectRoot == data.projectRoot && c.selectedPaths == data.selectedPaths
    ensures c.actionType == data.actionType && c.actionCode == data.actionCode && c.shortcut == data.shortcut
    ensures data.isFavorite.Some? ==> c.isFavorite == data.isFavorite
    ensures data.isFavorite.None? ==> c.isFavorite == Some(false)
    ensures c.createdAt.None? && c.updatedAt.None?
  {
    Clip(id, data.name, data.projectRoot, data.selectedPaths, data.actionType, data.actionCode, data.shortcut,
         Some(data.isFavorite.GetOr(false)), None, None)
  }

  /** The clip `addClip` keeps in memory is the one the next load would return, apart from the stamps
      the database adds, as long as it has code and no shortcut; a shortcut is kept in memory but has
      no column, and missing code reads back as `""`. */
  lemma NewClipReadsBack(t: ClipRows, data: ClipData, id: string, now: nat)
    requires id !in t.rows
    ensures var c := NewClip(data, id);
      && ClipTable.FindById(ClipTable.Create(t, c, now).value, id) == Some(Stored(c, now, now))
      && (data.actionCode.Some? && data.shortcut.None? ==>
            ClipTable.FindById(ClipTable.Create(t, c, now).value, id) == Some(c.(createdAt := Some(now), updatedAt := Some(now))))
  {
    var c := NewClip(data, id);
    CreateReadBack(t, c, now);
    DecodeEncode(c, now, now);
  }

  /** `{ ...existing, ...partial }`. */
  function MergeClip(existing: Clip, patch: ClipPatch): (r: Clip)
    ensures r.id == (if patch.id.Some? then patch.id.value else existing.id)
    ensures r.name == (if patch.name.Some? then patch.name.value else existing.name)
    ensures r.projectRoot == (if patch.projectRoot.Some? then patch.projectRoot.value else existing.projectRoot)
    ensures r.selectedPaths == (if patch.selectedPaths.Some? then patch.selectedPaths.value else existing.selectedPaths)
    ensures r.actionType == (if patch.actionType.Some? then patch.actionType.value else existing.actionType)
    ensures r.actionCode == (if patch.actionCode.Some? then patch.actionCode.value else existing.actionCode)
    ensures r.shortcut == (if patch.shortcut.Some? then patch.shortcut.value else existing.shortcut)
    ensures r.isFavorite == (if patch.isFavorite.Some? then patch.isFavorite.value else existing.isFavorite)
    ensures r.createdAt == existing.createdAt && r.updatedAt == existing.updatedAt
  {
    Clip(patch.id.GetOr(existing.id), patch.name.GetOr(existing.name), patch.projectRoot.GetOr(existing.projectRoot),
         patch.selectedPaths.GetOr(existing.selectedPaths), patch.actionType.GetOr(existing.actionType),
         patch.actionCode.GetOr(existing.actionCode), patch.shortcut.GetOr(existing.shortcut),
         patch.isFavorite.GetOr(existing.isFavorite), existing.createdAt, existing.updatedAt)
  }

  /** An empty patch changes nothing, applying a patch twice is applying it once, and a patch that only
      toggles the favourite flag touches nothing else. */
  lemma MergeClipLaws(existing: Clip, patch: ClipPatch, favorite: bool)
    ensures MergeClip(existing, EmptyPatch) == existing
    ensures MergeClip(MergeClip(existing, patch), patch) == MergeClip(existing, patch)
    ensures MergeClip(existing, EmptyPatch.(isFavorite := Some(Some(favorite)))) == existing.(isFavorite := Some(favorite))
  {
  }

  /** `clips.map(c => c.id === id ? updated : c)`. */
  function ReplaceById(cs: seq<Clip>, id: string, updated: Clip): (r: seq<Clip>)
    ensures |r| == |cs|
    ensures forall i :: 0 <= i < |cs| ==> r[i] == (if cs[i].id == id then updated else cs[i])
  {
    seq(|cs|, i requires 0 <= i < |cs| => if cs[i].id == id then updated else cs[i])
  }

  /** Replacing by id with a clip that keeps the id keeps the ids and their order; an id that is not
      listed leaves the list unchanged. */
  lemma ReplaceKeepsIds(cs: seq<Clip>, id: string, updated: Clip)
    ensures updated.id == id ==> Ids(ReplaceById(cs, id, updated)) == Ids(cs)
    ensures id !in Ids(cs) ==> ReplaceById(cs, id, updated) == cs
  {
  }

  /** `clips.filter(c => c.id !== id)`. */
  function RemoveById(cs: seq<Clip>, id: string): (r: seq<Clip>)
    ensures forall c :: c in r <==> c in cs && c.id != id
  {
    Filter(cs, NotId(id))
  }

  lemma IdsOfRemove(cs: seq<Clip>, id: string)
    ensures Ids(RemoveById(cs, id)) == Filter(Ids(cs), Except(id))
  {
    MapFilter(cs, NotId(id), IdOf, Except(id));
  }

  /** After a load the list's ids are the table's ids in table order. */
  lemma LoadedIds(t: ClipRows)
    requires Tables.Valid(t)
    ensures Ids(ClipTable.FindAll(t)) == t.order
  {
    AllOfValid(t);
  }

  class ClipStore {
    var clips: seq<Clip>
    const repo: ClipSqliteRepository

    constructor(repo: ClipSqliteRepository)
      ensures clips == [] && this.repo == repo
    {
      clips := [];
      this.repo := repo;
    }

    /** The store lists exactly the stored clips, in table order. */
    ghost predicate InStep()
      reads this, repo.db
    {
      Ids(clips) == repo.db.clips.order
    }

    /** `loadClipsFromDB`. */
    method LoadClipsFromDB()
      requires repo.db.Valid()
      modifies this
      ensures clips == ClipTable.FindAll(repo.db.clips) && InStep()
    {
      clips := repo.FindAll();
      LoadedIds(repo.db.clips);
    }

    /** `addClip`: the clip gets the generated id and a favourite flag, is inserted, then appended.
        An insert that fails rejects, and the list is left as it was. */
    method AddClip(data: ClipData, generated: string) returns (r: Result<string, DbError>)
      requires repo.db.Valid()
      modifies this, repo.db
      ensures repo.db.Valid() && repo.db.clock == old(repo.db.clock) + 1
      ensures r.Err? <==> generated in old(repo.db.clips.rows)
      ensures r.Err? ==> clips == old(clips) && repo.db.clips == old(repo.db.clips)
      ensures r.Ok? ==> r.value == generated && clips == old(clips) + [NewClip(data, generated)]
      ensures r.Ok? ==> repo.db.clips == Insert(old(repo.db.clips), generated, Encode(NewClip(data, generated)), repo.db.clock)
      ensures r.Ok? ==> old(InStep()) ==> InStep()
      ensures repo.db.blocks == old(repo.db.blocks) && repo.db.blockTypes == old(repo.db.blockTypes)
      ensures repo.db.labels == old(repo.db.labels) && repo.db.clipLabels == old(repo.db.clipLabels)
    {
      var c := NewClip(data, generated);
      var created := repo.Create(c);
      if created.Err? {
        r := Err(created.error);
        return;
      }
      clips := clips + [c];
      r := Ok(generated);
    }

    /** `updateClip`: nothing for an id the list does not hold; otherwise the merged clip is written and
        replaces the listed clips with that id. */
    method UpdateClip(id: string, patch: ClipPatch)
      requires repo.db.Valid()
      modifies this, repo.db
      ensures repo.db.Valid()
      ensures var existing := Find(old(clips), HasId(id));
        && (existing.None? ==> clips == old(clips) && repo.db.clips == old(repo.db.clips))
        && (existing.Some? ==>
              && clips == ReplaceById(old(clips), id, MergeClip(existing.value, patch))
              && repo.db.clips == ClipTable.Update(old(repo.db.clips), MergeClip(existing.value, patch), repo.db.clock))
      ensures patch.id.None? || patch.id == Some(id) ==> old(InStep()) ==> InStep()
      ensures repo.db.blocks == old(repo.db.blocks) && repo.db.blockTypes == old(repo.db.blockTypes)
      ensures repo.db.labels == old(repo.db.labels) && repo.db.clipLabels == old(repo.db.clipLabels)
    {
      var existing := Find(clips, HasId(id));
      if existing.None? {
        return;
      }
      var updated := MergeClip(existing.value, patch);
      repo.Update(updated);
      ReplaceKeepsIds(clips, id, updated);
      clips := ReplaceById(clips, id, updated);
    }

    /** `removeClip`: the clip and its label links go from the database, then from the list. */
    method RemoveClip(id: string)
      requires repo.db.Valid()
      modifies this, repo.db
      ensures repo.db.Valid() && repo.db.clock == old(repo.db.clock)
      ensures (repo.db.clips, repo.db.clipLabels) == ClipTable.DeleteById(old(repo.db.clips), old(repo.db.clipLabels), id)
      ensures clips == RemoveById(old(clips), id)
      ensures old(InStep()) ==> InStep()
      ensures repo.db.blocks == old(repo.db.blocks) && repo.db.blockTypes == old(repo.db.blockTypes)
      ensures repo.db.labels == old(repo.db.labels)
    {
      repo.DeleteById(id);
      IdsOfRemove(clips, id);
      clips := RemoveById(clips, id);
    }

    /** `setClips`: the list is replaced in memory only. */
    method SetClips(cs: seq<Clip>)
      modifies this
      ensures clips == cs
    {
      clips := cs;
    }
  }
}
