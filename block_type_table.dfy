/** The `block_types` table and what BlockTypeSqliteRepository does to it
    (client/electron/main/repository/BlockTypeSqliteRepository.ts). `name` is UNIQUE
    (client/electron/main/db.ts), so inserts and updates can both be rejected. */
module BlockTypeTable {
  import opened Base
  import opened Text
  import opened Tables
  import opened Blocks

  /** The columns of a `block_types` row besides `id` and the two stamps. */
  datatype BlockTypeRecord = BlockTypeRecord(name: string, definitions: seq<FieldDefinition>)

  /** `Partial<BlockTypeDefinition>` as `create` receives it. */
  datatype BlockTypeDraft = BlockTypeDraft(id: Option<string>, name: Option<string>, definitions: Option<seq<FieldDefinition>>)

  type BlockTypeRows = Table<BlockTypeRecord>

  /** Some row other than `except` already carries `name`. */
  predicate NameTaken(t: BlockTypeRows, name: string, except: string) {
    exists id :: id in t.rows && id != except && t.rows[id].data.name == name
  }

  /** The UNIQUE constraint on `name`: no two rows share a name. */
  ghost predicate UniqueNames(t: BlockTypeRows) {
    forall a, b :: a in t.rows && b in t.rows && a != b ==> t.rows[a].data.name != t.rows[b].data.name
  }

  /** `rowToBlockType`. */
  function RowToBlockType(id: string, row: Row<BlockTypeRecord>): (d: BlockTypeDefinition)
    ensures d.id == id && d.name == row.data.name && d.propertiesDefinition == row.data.definitions
    ensures d.createdAt == Some(row.createdAt) && d.updatedAt == Some(row.updatedAt)
  {
    BlockTypeDefinition(id, row.data.name, row.data.definitions, Some(row.createdAt), Some(row.updatedAt))
  }

  function FindById(t: BlockTypeRows, id: string): (r: Option<BlockTypeDefinition>)
    ensures r.None? <==> id !in t.rows
    ensures r.Some? ==> r.value == RowToBlockType(id, t.rows[id])
  {
    if id in t.rows then Some(RowToBlockType(id, t.rows[id])) else None
  }

  function FindAll(t: BlockTypeRows): (r: seq<BlockTypeDefinition>)
    ensures |r| == |All(t)|
    ensures forall i :: 0 <= i < |r| ==> r[i] == RowToBlockType(All(t)[i].0, All(t)[i].1)
  {
    var rows := All(t);
    seq(|rows|, i requires 0 <= i < |rows| => RowToBlockType(rows[i].0, rows[i].1))
  }

  /** The id `create` inserts: the caller's when it is non-empty after trimming, else `generated`. */
  function ChosenId(d: BlockTypeDraft, generated: string): string {
    if d.id.Some? && d.id.value != "" && Trim(d.id.value) != "" then d.id.value else generated
  }

  /** `create`: `name ?? "custom"`, `propertiesDefinition ?? []`; a stored id or a name in use is rejected. */
  function Create(t: BlockTypeRows, d: BlockTypeDraft, generated: string, now: nat)
    : (r: Result<(BlockTypeRows, string), DbError>)
    ensures r.Ok? <==> ChosenId(d, generated) !in t.rows && !NameTaken(t, d.name.GetOr("custom"), ChosenId(d, generated))
    ensures r.Ok? ==> r.value.1 == ChosenId(d, generated)
    ensures r.Ok? ==>
      FindById(r.value.0, r.value.1) ==
        Some(BlockTypeDefinition(r.value.1, d.name.GetOr("custom"), d.definitions.GetOr([]), Some(now), Some(now)))
    ensures r.Ok? ==> forall x :: x != r.value.1 ==> FindById(r.value.0, x) == FindById(t, x)
  {
    var id := ChosenId(d, generated);
    var name := d.name.GetOr("custom");
    if id in t.rows then Err(PrimaryKeyViolation(id))
    else if NameTaken(t, name, id) then Err(UniqueViolation("name", name))
    else Ok((Insert(t, id, BlockTypeRecord(name, d.definitions.GetOr([])), now), id))
  }

  /** `update`: name, definitions and `updated_at` of that row; a name another row holds is rejected;
      an unknown id matches no row and changes nothing. */
  function Update(t: BlockTypeRows, bt: BlockTypeDefinition, now: nat): (r: Result<BlockTypeRows, DbError>)
    ensures r.Err? <==> bt.id in t.rows && NameTaken(t, bt.name, bt.id)
    ensures bt.id !in t.rows ==> r == Ok(t)
  {
    if bt.id in t.rows && NameTaken(t, bt.name, bt.id) then Err(UniqueViolation("name", bt.name))
    else Ok(Rewrite(t, bt.id, BlockTypeRecord(bt.name, bt.propertiesDefinition), now))
  }

  function DeleteById(t: BlockTypeRows, id: string): (t': BlockTypeRows)
    ensures t'.rows.Keys == t.rows.Keys - {id}
  {
    Remove(t, id)
  }

  /** The caller's id is kept exactly when it is not blank; a missing, empty or white-space id is replaced. */
  lemma ChosenIdKeptIffNonBlank(d: BlockTypeDraft, generated: string)
    ensures d.id.Some? && !IsBlank(d.id.value) ==> ChosenId(d, generated) == d.id.value
    ensures (d.id.None? || IsBlank(d.id.value)) ==> ChosenId(d, generated) == generated
  {
    if d.id.Some? {
      TrimEmptyIffBlank(d.id.value);
    }
  }

  /** From an empty draft, `create` stores a type named `custom` with no field definitions. */
  lemma CreateDefaults(t: BlockTypeRows, generated: string, now: nat)
    requires generated !in t.rows && !NameTaken(t, "custom", generated)
    ensures var r := Create(t, BlockTypeDraft(None, None, None), generated, now);
      && r.Ok? && r.value.1 == generated
      && FindById(r.value.0, generated) == Some(BlockTypeDefinition(generated, "custom", [], Some(now), Some(now)))
  {
  }

  /** A second type named like an existing one cannot be created. */
  lemma CreateDuplicateNameFails(t: BlockTypeRows, d: BlockTypeDraft, generated: string, now: nat, other: string)
    requires other in t.rows && other != ChosenId(d, generated) && t.rows[other].data.name == d.name.GetOr("custom")
    ensures Create(t, d, generated, now).Err?
  {
  }

  /** `update` rewrites name and definitions of that row only, keeping `created_at`. */
  lemma UpdateOnlyThatRow(t: BlockTypeRows, bt: BlockTypeDefinition, now: nat)
    requires bt.id in t.rows && !NameTaken(t, bt.name, bt.id)
    ensures Update(t, bt, now).Ok?
    ensures var t' := Update(t, bt, now).value;
      && FindById(t', bt.id) == Some(BlockTypeDefinition(bt.id, bt.name, bt.propertiesDefinition, Some(t.rows[bt.id].createdAt), Some(now)))
      && forall x :: x != bt.id ==> FindById(t', x) == FindById(t, x)
  {
  }

  /** A successful `create` keeps names unique. */
  lemma CreateKeepsNamesUnique(t: BlockTypeRows, d: BlockTypeDraft, generated: string, now: nat)
    requires UniqueNames(t)
    ensures Create(t, d, generated, now).Ok? ==> UniqueNames(Create(t, d, generated, now).value.0)
  {
    var r := Create(t, d, generated, now);
    if r.Ok? {
      var id := ChosenId(d, generated);
      var t' := r.value.0;
      forall a, b | a in t'.rows && b in t'.rows && a != b
        ensures t'.rows[a].data.name != t'.rows[b].data.name
      {
        if a == id {
          assert !(b in t.rows && b != id && t.rows[b].data.name == d.name.GetOr("custom"));
        } else if b == id {
          assert !(a in t.rows && a != id && t.rows[a].data.name == d.name.GetOr("custom"));
        }
      }
    }
  }

  /** A successful `update` keeps names unique. */
  lemma UpdateKeepsNamesUnique(t: BlockTypeRows, bt: BlockTypeDefinition, now: nat)
    requires UniqueNames(t)
    ensures Update(t, bt, now).Ok? ==> UniqueNames(Update(t, bt, now).value)
  {
    var u := Update(t, bt, now);
    if u.Ok? && bt.id in t.rows {
      var t' := u.value;
      forall a, b | a in t'.rows && b in t'.rows && a != b
        ensures t'.rows[a].data.name != t'.rows[b].data.name
      {
        if a == bt.id {
          assert !(b in t.rows && b != bt.id && t.rows[b].data.name == bt.name);
        } else if b == bt.id {
          assert !(a in t.rows && a != bt.id && t.rows[a].data.name == bt.name);
        }
      }
    }
  }

  lemma CreateValid(t: BlockTypeRows, d: BlockTypeDraft, generated: string, now: nat)
    requires Valid(t) && StampedBefore(t, now)
    ensures Create(t, d, generated, now).Ok? ==>
      Valid(Create(t, d, generated, now).value.0) && StampedBefore(Create(t, d, generated, now).value.0, now)
  {
    var r := Create(t, d, generated, now);
    if r.Ok? {
      InsertValid(t, ChosenId(d, generated), BlockTypeRecord(d.name.GetOr("custom"), d.definitions.GetOr([])), now);
    }
  }
}
