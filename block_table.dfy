/** The `blocks` table and what BlockSqliteRepository does to it
    (client/electron/main/repository/BlockSqliteRepository.ts), as transitions on a table value.
    `properties` and `content` are stored as JSON text; the model stores the values themselves. */
module BlockTable {
  import opened Base
  import opened Json
  import opened Tables
  import opened Blocks

  /** The columns of a `blocks` row besides `id` and the two stamps. */
  datatype BlockRecord = BlockRecord(blockType: string, properties: Props, content: seq<string>, parent: Option<string>)

  /** `Partial<Block>` as `create` receives it: every field may be missing. */
  datatype BlockDraft = BlockDraft(
    id: Option<string>,
    blockType: Option<string>,
    properties: Option<Props>,
    content: Option<seq<string>>,
    parent: Option<string>)

  type BlockRows = Table<BlockRecord>

  /** The block types `rowToBlock` knows; any other stored type is read back as `clip`. */
  predicate KnownType(t: string) {
    t == ClipType || t == ActionType || t == ProjectRootType || t == SelectedPathType
  }

  /** The `switch (row.type)` of `rowToBlock`. */
  function DecodeType(t: string): (r: string)
    ensures KnownType(r)
    ensures r == t <==> KnownType(t)
    ensures !KnownType(t) ==> r == ClipType
  {
    if KnownType(t) then t else ClipType
  }

  /** `row.parent || null`: an empty parent id reads back as no parent. */
  function DecodeParent(p: Option<string>): (r: Option<string>)
    ensures r.Some? <==> p.Some? && p.value != ""
    ensures r.Some? ==> r == p
  {
    if p.Some? && p.value != "" then p else None
  }

  /** `rowToBlock`: a stored row as the block the repository hands out. */
  function RowToBlock(id: string, row: Row<BlockRecord>): (b: Block)
    ensures b.id == id && KnownType(b.blockType)
    ensures b.properties == row.data.properties && b.content == row.data.content
    ensures b.createdAt == Some(row.createdAt) && b.updatedAt == Some(row.updatedAt)
  {
    Block(id, DecodeType(row.data.blockType), row.data.properties, row.data.content,
          DecodeParent(row.data.parent), Some(row.createdAt), Some(row.updatedAt))
  }

  /** `findById`: the block, or null for an absent id. */
  function FindById(t: BlockRows, id: string): (r: Option<Block>)
    ensures r.None? <==> id !in t.rows
    ensures r.Some? ==> r.value == RowToBlock(id, t.rows[id])
  {
    if id in t.rows then Some(RowToBlock(id, t.rows[id])) else None
  }

  /** `findAll`: every row decoded, in table order. */
  function FindAll(t: BlockRows): (r: seq<Block>)
    ensures |r| == |All(t)|
    ensures forall i :: 0 <= i < |r| ==> r[i] == RowToBlock(All(t)[i].0, All(t)[i].1)
  {
    var rows := All(t);
    seq(|rows|, i requires 0 <= i < |rows| => RowToBlock(rows[i].0, rows[i].1))
  }

  /** The record `create` writes: `type ?? "clip"`, `properties ?? {}`, `content ?? []`, `parent ?? null`. */
  function Fill(d: BlockDraft): BlockRecord {
    BlockRecord(d.blockType.GetOr(ClipType), d.properties.GetOr(map[]), d.content.GetOr([]), d.parent)
  }

  /** `create`: the id is the caller's (`id ?? nanoid()`, so even `""` is kept) or `generated`;
      inserting an id that is already stored violates the primary key. */
  function Create(t: BlockRows, d: BlockDraft, generated: string, now: nat): (r: Result<(BlockRows, string), DbError>)
    ensures r.Err? <==> d.id.GetOr(generated) in t.rows
    ensures r.Err? ==> r.error == PrimaryKeyViolation(d.id.GetOr(generated))
    ensures r.Ok? ==> r.value.1 == d.id.GetOr(generated) && r.value.1 in r.value.0.rows
  {
    var id := d.id.GetOr(generated);
    if id in t.rows then Err(PrimaryKeyViolation(id))
    else Ok((Insert(t, id, Fill(d), now), id))
  }

  /** `update`: the whole record is replaced (`parent ?? null`), `updated_at` set, `created_at` kept. */
  function Update(t: BlockRows, b: Block, now: nat): (t': BlockRows)
    ensures b.id !in t.rows ==> t' == t
    ensures t'.order == t.order && t'.rows.Keys == t.rows.Keys
  {
    Rewrite(t, b.id, BlockRecord(b.blockType, b.properties, b.content, b.parent), now)
  }

  /** `deleteById`: only that row goes; nothing cascades. */
  function DeleteById(t: BlockRows, id: string): (t': BlockRows)
    ensures t'.rows.Keys == t.rows.Keys - {id}
  {
    Remove(t, id)
  }

  /** With no fields given, `create` stores a parentless `clip` block with no properties and no children,
      under the generated id. */
  lemma CreateDefaults(t: BlockRows, generated: string, now: nat)
    requires generated !in t.rows
    ensures var r := Create(t, BlockDraft(None, None, None, None, None), generated, now);
      && r.Ok? && r.value.1 == generated
      && FindById(r.value.0, generated) == Some(Block(generated, ClipType, map[], [], None, Some(now), Some(now)))
  {
  }

  /** A caller-supplied id is returned as given, the empty string included. */
  lemma CreateKeepsGivenId(t: BlockRows, d: BlockDraft, generated: string, now: nat)
    requires d.id.Some? && d.id.value !in t.rows
    ensures Create(t, d, generated, now).Ok? && Create(t, d, generated, now).value.1 == d.id.value
  {
  }

  /** Reading back a created block returns what was stored, except that an unknown type reads as `clip`
      and an empty parent as none; the other rows are untouched. */
  lemma CreateReadBack(t: BlockRows, d: BlockDraft, generated: string, now: nat)
    requires Create(t, d, generated, now).Ok?
    ensures var (t', id) := Create(t, d, generated, now).value;
      && FindById(t', id).Some?
      && var b := FindById(t', id).value;
      && b.properties == d.properties.GetOr(map[])
      && b.content == d.content.GetOr([])
      && b.parent == DecodeParent(d.parent)
      && (b.blockType == d.blockType.GetOr(ClipType) <==> KnownType(d.blockType.GetOr(ClipType)))
      && b.createdAt == Some(now) == b.updatedAt
      && forall x :: x != id ==> FindById(t', x) == FindById(t, x)
  {
  }

  /** `update` changes the row with that id (type, properties, content, parent, `updated_at`) and
      nothing else: `created_at` and every other row keep their values. */
  lemma UpdateOnlyThatRow(t: BlockRows, b: Block, now: nat)
    requires b.id in t.rows
    ensures var t' := Update(t, b, now);
      && t'.rows[b.id] == Row(BlockRecord(b.blockType, b.properties, b.content, b.parent), t.rows[b.id].createdAt, now)
      && forall x :: x != b.id ==> FindById(t', x) == FindById(t, x)
  {
  }

  /** After `deleteById` the block is gone and every other block reads back unchanged, `content`
      included, so ids of the deleted block stay in its former parents' `content`. */
  lemma DeleteNoCascade(t: BlockRows, id: string)
    ensures FindById(DeleteById(t, id), id).None?
    ensures forall x :: x != id ==> FindById(DeleteById(t, id), x) == FindById(t, x)
  {
  }

  /** On a valid table the i-th block of `findAll` is the i-th key of the table, with its creation stamp. */
  lemma FindAllFollowsOrder(t: BlockRows)
    requires Valid(t)
    ensures |FindAll(t)| == |t.order|
    ensures forall i :: 0 <= i < |t.order| ==>
      FindAll(t)[i].id == t.order[i] && FindAll(t)[i].createdAt == Some(t.rows[t.order[i]].createdAt)
  {
    AllOfValid(t);
  }

  lemma FindAllListsEveryId(t: BlockRows)
    requires Valid(t)
    ensures forall id :: id in t.rows <==> exists i :: 0 <= i < |FindAll(t)| && FindAll(t)[i].id == id
  {
    FindAllFollowsOrder(t);
    var r := FindAll(t);
    forall id | id in t.rows ensures exists i :: 0 <= i < |r| && r[i].id == id {
      var i :| 0 <= i < |t.order| && t.order[i] == id;
      assert r[i].id == id;
    }
  }

  lemma FindAllAscending(t: BlockRows)
    requires Valid(t)
    ensures forall i, j :: 0 <= i < j < |FindAll(t)| ==> FindAll(t)[i].createdAt.value <= FindAll(t)[j].createdAt.value
  {
    FindAllFollowsOrder(t);
    var r := FindAll(t);
    forall i, j | 0 <= i < j < |r| ensures r[i].createdAt.value <= r[j].createdAt.value {
      assert t.order[i] in t.rows && t.order[j] in t.rows;
    }
  }

  /** `findAll` on a valid table lists every stored block once, sorted by `created_at`. */
  lemma FindAllSorted(t: BlockRows)
    requires Valid(t)
    ensures forall id :: id in t.rows <==> exists i :: 0 <= i < |FindAll(t)| && FindAll(t)[i].id == id
    ensures forall i, j :: 0 <= i < j < |FindAll(t)| ==> FindAll(t)[i].createdAt.value <= FindAll(t)[j].createdAt.value
    ensures NoDupIds(FindAll(t))
  {
    FindAllListsEveryId(t);
    FindAllAscending(t);
    FindAllFollowsOrder(t);
  }

  /** No two blocks share an id. */
  predicate NoDupIds(bs: seq<Block>) {
    forall i, j :: 0 <= i < j < |bs| ==> bs[i].id != bs[j].id
  }

  lemma CreateValid(t: BlockRows, d: BlockDraft, generated: string, now: nat)
    requires Valid(t) && StampedBefore(t, now)
    ensures Create(t, d, generated, now).Ok? ==>
      Valid(Create(t, d, generated, now).value.0) && StampedBefore(Create(t, d, generated, now).value.0, now)
  {
    var id := d.id.GetOr(generated);
    if id !in t.rows {
      InsertValid(t, id, Fill(d), now);
    }
  }
}
