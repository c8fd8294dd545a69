/** The `labels` table, the `clip_labels` association and what LabelSqliteRepository does to them
    (client/electron/main/repository/LabelSqliteRepository.ts). `INSERT OR IGNORE` only ignores a row
    that breaks a constraint, so the association is modelled as a set of (clip, label) pairs: this
    takes (clip_id, label_id) to be a key of `clip_labels`, a constraint no schema in the repository
    declares (without it every `addLabelToClip` would add one more row). */
module LabelTable {
  import opened Base
  import opened Seqs
  import opened Tables

  /** A label as the repository hands it out. */
  datatype Label = Label(id: string, name: string, color: string, createdAt: Option<nat>, updatedAt: Option<nat>)

  /** The columns of a `labels` row besides `id` and the two stamps. */
  datatype LabelRecord = LabelRecord(name: string, color: string)

  /** One `clip_labels` row. */
  datatype ClipLabel = ClipLabel(clipId: string, labelId: string)

  type LabelRows = Table<LabelRecord>
  type Links = set<ClipLabel>

  function RowToLabel(id: string, row: Row<LabelRecord>): (l: Label)
    ensures l.id == id && l.name == row.data.name && l.color == row.data.color
    ensures l.createdAt == Some(row.createdAt) && l.updatedAt == Some(row.updatedAt)
  {
    Label(id, row.data.name, row.data.color, Some(row.createdAt), Some(row.updatedAt))
  }

  function FindById(t: LabelRows, id: string): (r: Option<Label>)
    ensures r.None? <==> id !in t.rows
    ensures r.Some? ==> r.value == RowToLabel(id, t.rows[id])
  {
    if id in t.rows then Some(RowToLabel(id, t.rows[id])) else None
  }

  /** `findAll` (no ORDER BY: the model lists rows in insertion order). */
  function FindAll(t: LabelRows): (r: seq<Label>)
    ensures |r| == |All(t)|
    ensures forall i :: 0 <= i < |r| ==> r[i] == RowToLabel(All(t)[i].0, All(t)[i].1)
  {
    var rows := All(t);
    seq(|rows|, i requires 0 <= i < |rows| => RowToLabel(rows[i].0, rows[i].1))
  }

  /** `create`: the caller's id, name and color; a stored id is rejected. */
  function Create(t: LabelRows, l: Label, now: nat): (r: Result<LabelRows, DbError>)
    ensures r.Err? <==> l.id in t.rows
    ensures r.Ok? ==> r.value == Insert(t, l.id, LabelRecord(l.name, l.color), now)
  {
    if l.id in t.rows then Err(PrimaryKeyViolation(l.id)) else Ok(Insert(t, l.id, LabelRecord(l.name, l.color), now))
  }

  /** `update`: name, color and `updated_at` of that row. */
  function Update(t: LabelRows, l: Label, now: nat): (t': LabelRows)
    ensures l.id !in t.rows ==> t' == t
    ensures t'.order == t.order && t'.rows.Keys == t.rows.Keys
  {
    Rewrite(t, l.id, LabelRecord(l.name, l.color), now)
  }

  /** `deleteById` removes the label's links, then the label. */
  function DeleteById(t: LabelRows, links: Links, id: string): (r: (LabelRows, Links))
    ensures r.0.rows.Keys == t.rows.Keys - {id}
    ensures r.1 == set p | p in links && p.labelId != id
  {
    (Remove(t, id), set p | p in links && p.labelId != id)
  }

  /** `addLabelToClip`: `INSERT OR IGNORE`, so an existing pair is left as it is. */
  function AddLabelToClip(links: Links, clipId: string, labelId: string): (links': Links)
    ensures links' == links + {ClipLabel(clipId, labelId)}
  {
    links + {ClipLabel(clipId, labelId)}
  }

  /** `removeLabelFromClip`: that pair only. */
  function RemoveLabelFromClip(links: Links, clipId: string, labelId: string): (links': Links)
    ensures links' == links - {ClipLabel(clipId, labelId)}
  {
    links - {ClipLabel(clipId, labelId)}
  }

  /** The links of one clip. */
  function LinksOf(links: Links, clipId: string): set<ClipLabel> {
    set p | p in links && p.clipId == clipId
  }

  /** `countLabelsOfClip`: `COUNT(*) ... WHERE clip_id = ?`. */
  function CountLabelsOfClip(links: Links, clipId: string): (n: nat)
    ensures n == |LinksOf(links, clipId)|
  {
    |LinksOf(links, clipId)|
  }

  /** `findLabelsByClip`: the inner join, i.e. the stored labels that are linked to the clip
      (links to labels that do not exist contribute nothing). */
  function FindLabelsByClip(t: LabelRows, links: Links, clipId: string): (r: seq<Label>)
    ensures forall l :: l in r <==> l in FindAll(t) && ClipLabel(clipId, l.id) in links
  {
    Filter(FindAll(t), (l: Label) => ClipLabel(clipId, l.id) in links)
  }

  /** Adding an existing pair changes nothing, and adding twice is adding once. */
  lemma AddIdempotent(links: Links, clipId: string, labelId: string)
    ensures ClipLabel(clipId, labelId) in links ==> AddLabelToClip(links, clipId, labelId) == links
    ensures AddLabelToClip(AddLabelToClip(links, clipId, labelId), clipId, labelId) == AddLabelToClip(links, clipId, labelId)
  {
  }

  /** Adding a pair raises the clip's count by one if it is new and by nothing otherwise;
      other clips' counts do not move. */
  lemma AddCount(links: Links, clipId: string, labelId: string, other: string)
    requires other != clipId
    ensures CountLabelsOfClip(AddLabelToClip(links, clipId, labelId), clipId)
      == CountLabelsOfClip(links, clipId) + (if ClipLabel(clipId, labelId) in links then 0 else 1)
    ensures CountLabelsOfClip(AddLabelToClip(links, clipId, labelId), other) == CountLabelsOfClip(links, other)
  {
    var p := ClipLabel(clipId, labelId);
    var added := AddLabelToClip(links, clipId, labelId);
    if p in links {
      assert added == links;
    } else {
      assert LinksOf(added, clipId) == LinksOf(links, clipId) + {p};
    }
    assert LinksOf(added, other) == LinksOf(links, other);
  }

  /** Removing a pair leaves every other pair in place and never raises a count. */
  lemma RemoveOnlyThatPair(links: Links, clipId: string, labelId: string)
    ensures forall p :: p in RemoveLabelFromClip(links, clipId, labelId) <==> p in links && p != ClipLabel(clipId, labelId)
    ensures CountLabelsOfClip(RemoveLabelFromClip(links, clipId, labelId), clipId) <= CountLabelsOfClip(links, clipId)
  {
    var p := ClipLabel(clipId, labelId);
    if p in links {
      assert LinksOf(RemoveLabelFromClip(links, clipId, labelId), clipId) == LinksOf(links, clipId) - {p};
    } else {
      assert RemoveLabelFromClip(links, clipId, labelId) == links;
    }
  }

  /** After `deleteById` no link mentions the label, and a lookup of it returns nothing. */
  lemma DeleteCascades(t: LabelRows, links: Links, id: string)
    ensures forall p :: p in DeleteById(t, links, id).1 ==> p.labelId != id
    ensures FindById(DeleteById(t, links, id).0, id).None?
    ensures forall x :: x != id ==> FindById(DeleteById(t, links, id).0, x) == FindById(t, x)
  {
  }

  /** `create` then `findById` gives back the name and color, stamped with the write time. */
  lemma CreateReadBack(t: LabelRows, l: Label, now: nat)
    requires l.id !in t.rows
    ensures Create(t, l, now).Ok?
    ensures FindById(Create(t, l, now).value, l.id) == Some(Label(l.id, l.name, l.color, Some(now), Some(now)))
  {
  }

  /** `update` gives that label the new name and color, keeps its `created_at`, stamps `updated_at`
      with `now`, and leaves other labels alone. */
  lemma UpdateReadBack(t: LabelRows, l: Label, now: nat)
    requires l.id in t.rows
    ensures FindById(Update(t, l, now), l.id) == Some(Label(l.id, l.name, l.color, Some(t.rows[l.id].createdAt), Some(now)))
    ensures forall x :: x != l.id ==> FindById(Update(t, l, now), x) == FindById(t, x)
  {
  }

  /** A stored label linked to the clip is among the results. */
  lemma LinkedLabelFound(t: LabelRows, links: Links, clipId: string, id: string)
    requires Valid(t) && id in t.rows && ClipLabel(clipId, id) in links
    ensures exists l :: l in FindLabelsByClip(t, links, clipId) && l.id == id
  {
    AllOfValid(t);
    var all := FindAll(t);
    var i :| 0 <= i < |All(t)| && All(t)[i].0 == id;
    assert all[i] in all && all[i].id == id;
  }

  /** Every result is a stored label linked to the clip. */
  lemma FoundLabelLinked(t: LabelRows, links: Links, clipId: string, l: Label)
    requires Valid(t) && l in FindLabelsByClip(t, links, clipId)
    ensures l.id in t.rows && ClipLabel(clipId, l.id) in links
  {
    AllOfValid(t);
    var all := FindAll(t);
    var i :| 0 <= i < |all| && all[i] == l;
    assert All(t)[i].0 == l.id;
  }

  /** The labels found for a clip on a valid table are exactly the stored labels it is linked to. */
  lemma FindLabelsByClipExact(t: LabelRows, links: Links, clipId: string)
    requires Valid(t)
    ensures forall id :: ((exists l :: l in FindLabelsByClip(t, links, clipId) && l.id == id)
      <==> id in t.rows && ClipLabel(clipId, id) in links)
  {
    forall id ensures (exists l :: l in FindLabelsByClip(t, links, clipId) && l.id == id)
      <==> id in t.rows && ClipLabel(clipId, id) in links
    {
      if id in t.rows && ClipLabel(clipId, id) in links {
        LinkedLabelFound(t, links, clipId, id);
      }
      if l :| l in FindLabelsByClip(t, links, clipId) && l.id == id {
        FoundLabelLinked(t, links, clipId, l);
      }
    }
  }

  lemma CreateValid(t: LabelRows, l: Label, now: nat)
    requires Valid(t) && StampedBefore(t, now)
    ensures Create(t, l, now).Ok? ==> Valid(Create(t, l, now).value) && StampedBefore(Create(t, l, now).value, now)
  {
    if l.id !in t.rows {
      InsertValid(t, l.id, LabelRecord(l.name, l.color), now);
    }
  }
}
