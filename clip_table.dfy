/** The `clips` table and what ClipSqliteRepository does to it
    (client/electron/main/repository/ClipSqliteRepository.ts). The columns that can be read back empty
    or NULL are `Option`s here, so that the decoder's fallbacks are part of the model. */
module ClipTable {
  import opened Base
  import opened Tables
  import opened LabelTable

  /** The Clip entity (client/electron/main/domain/clip.ts). */
  datatype Clip = Clip(
    id: string,
    name: string,
    projectRoot: string,
    selectedPaths: seq<string>,
    actionType: string,
    actionCode: Option<string>,
    shortcut: Option<string>,
    isFavorite: Option<bool>,
    createdAt: Option<nat>,
    updatedAt: Option<nat>)

  /** The columns of a `clips` row besides `id` and the stamps. `None` is a NULL or empty column. */
  datatype ClipRecord = ClipRecord(
    name: string,
    projectRoot: string,
    selectedPaths: Option<seq<string>>,
    actionType: string,
    actionCode: Option<string>,
    isFavorite: Option<int>)

  type ClipRows = Table<ClipRecord>

  /** The columns `create` and `update` write: `selectedPaths || []`, `actionCode || ""`,
      `isFavorite ? 1 : 0`; `shortcut` has no column. */
  function Encode(c: Clip): (r: ClipRecord)
    ensures r.name == c.name && r.projectRoot == c.projectRoot && r.actionType == c.actionType
    ensures r.selectedPaths == Some(c.selectedPaths)
    ensures c.actionCode.Some? ==> r.actionCode == c.actionCode
    ensures c.actionCode.None? ==> r.actionCode == Some("")
    ensures r.isFavorite == Some(if c.isFavorite == Some(true) then 1 else 0)
  {
    ClipRecord(c.name, c.projectRoot, Some(c.selectedPaths), c.actionType, Some(c.actionCode.GetOr("")),
               Some(if c.isFavorite == Some(true) then 1 else 0))
  }

  /** A row as `findAll`/`findById` return it: no paths read as `[]`, no code as `""`,
      `isFavorite` is `!!is_favorite`, and there is never a `shortcut`. */
  function Decode(id: string, row: Row<ClipRecord>): (c: Clip)
    ensures c.id == id && c.name == row.data.name && c.projectRoot == row.data.projectRoot
    ensures c.selectedPaths == (if row.data.selectedPaths.Some? then row.data.selectedPaths.value else [])
    ensures c.actionCode == Some(row.data.actionCode.GetOr(""))
    ensures c.isFavorite == Some(row.data.isFavorite.Some? && row.data.isFavorite.value != 0)
    ensures c.shortcut.None?
  {
    var r := row.data;
    Clip(id, r.name, r.projectRoot, r.selectedPaths.GetOr([]), r.actionType, Some(r.actionCode.GetOr("")),
         None, Some(r.isFavorite.Some? && r.isFavorite.value != 0), Some(row.createdAt), Some(row.updatedAt))
  }

  function FindById(t: ClipRows, id: string): (r: Option<Clip>)
    ensures r.None? <==> id !in t.rows
    ensures r.Some? ==> r.value == Decode(id, t.rows[id])
  {
    if id in t.rows then Some(Decode(id, t.rows[id])) else None
  }

  /** `findAll` (no ORDER BY: the model lists rows in insertion order). */
  function FindAll(t: ClipRows): (r: seq<Clip>)
    ensures |r| == |All(t)|
    ensures forall i :: 0 <= i < |r| ==> r[i] == Decode(All(t)[i].0, All(t)[i].1)
  {
    var rows := All(t);
    seq(|rows|, i requires 0 <= i < |rows| => Decode(rows[i].0, rows[i].1))
  }

  function Create(t: ClipRows, c: Clip, now: nat): (r: Result<ClipRows, DbError>)
    ensures r.Err? <==> c.id in t.rows
    ensures r.Ok? ==> r.value == Insert(t, c.id, Encode(c), now)
  {
    if c.id in t.rows then Err(PrimaryKeyViolation(c.id)) else Ok(Insert(t, c.id, Encode(c), now))
  }

  /** `update`: every column but `id` and `created_at`, stamped `now`. */
  function Update(t: ClipRows, c: Clip, now: nat): (t': ClipRows)
    ensures c.id !in t.rows ==> t' == t
    ensures t'.order == t.order && t'.rows.Keys == t.rows.Keys
  {
    Rewrite(t, c.id, Encode(c), now)
  }

  /** `deleteById`: the clip's links first, then the clip. */
  function DeleteById(t: ClipRows, links: Links, id: string): (r: (ClipRows, Links))
    ensures r.0.rows.Keys == t.rows.Keys - {id}
    ensures r.1 == set p | p in links && p.clipId != id
  {
    (Remove(t, id), set p | p in links && p.clipId != id)
  }

  /** What a stored clip reads back as: the fields that have columns, with the decoder's defaults. */
  function Stored(c: Clip, createdAt: nat, updatedAt: nat): Clip {
    c.(actionCode := Some(c.actionCode.GetOr("")), isFavorite := Some(c.isFavorite == Some(true)),
       shortcut := None, createdAt := Some(createdAt), updatedAt := Some(updatedAt))
  }

  /** Decoding an encoded clip keeps name, root, paths and action type; code defaults to `""`,
      the favourite flag to false, and the shortcut is lost. */
  lemma DecodeEncode(c: Clip, createdAt: nat, updatedAt: nat)
    ensures Decode(c.id, Row(Encode(c), createdAt, updatedAt)) == Stored(c, createdAt, updatedAt)
    ensures c.actionCode.Some? && c.isFavorite.Some? && c.shortcut.None? ==>
      Decode(c.id, Row(Encode(c), createdAt, updatedAt)) == c.(createdAt := Some(createdAt), updatedAt := Some(updatedAt))
  {
    if c.actionCode.Some? && c.isFavorite.Some? && c.shortcut.None? {
      if c.isFavorite.value {
        assert c.isFavorite == Some(true);
      } else {
        assert c.isFavorite == Some(false);
      }
      assert Stored(c, createdAt, updatedAt) == c.(createdAt := Some(createdAt), updatedAt := Some(updatedAt));
    }
  }

  /** `create` followed by `findById` returns the clip as stored. */
  lemma CreateReadBack(t: ClipRows, c: Clip, now: nat)
    requires c.id !in t.rows
    ensures Create(t, c, now).Ok?
    ensures FindById(Create(t, c, now).value, c.id) == Some(Stored(c, now, now))
    ensures forall x :: x != c.id ==> FindById(Create(t, c, now).value, x) == FindById(t, x)
  {
    DecodeEncode(c, now, now);
  }

  /** `update` rewrites the stored fields of that clip, keeps its `created_at`, and leaves other clips alone. */
  lemma UpdateReadBack(t: ClipRows, c: Clip, now: nat)
    requires c.id in t.rows
    ensures FindById(Update(t, c, now), c.id) == Some(Stored(c, t.rows[c.id].createdAt, now))
    ensures forall x :: x != c.id ==> FindById(Update(t, c, now), x) == FindById(t, x)
  {
    DecodeEncode(c, t.rows[c.id].createdAt, now);
  }

  /** After `deleteById` the clip is gone and no link refers to it; other clips and links are kept. */
  lemma DeleteCascades(t: ClipRows, links: Links, id: string)
    ensures FindById(DeleteById(t, links, id).0, id).None?
    ensures forall p :: p in DeleteById(t, links, id).1 ==> p.clipId != id
    ensures forall p :: p in links && p.clipId != id ==> p in DeleteById(t, links, id).1
    ensures CountLabelsOfClip(DeleteById(t, links, id).1, id) == 0
  {
    assert LinksOf(DeleteById(t, links, id).1, id) == {};
  }

  lemma CreateValid(t: ClipRows, c: Clip, now: nat)
    requires Valid(t) && StampedBefore(t, now)
    ensures Create(t, c, now).Ok? ==> Valid(Create(t, c, now).value) && StampedBefore(Create(t, c, now).value, now)
  {
    if c.id !in t.rows {
      InsertValid(t, c.id, Encode(c), now);
    }
  }
}
