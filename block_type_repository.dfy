/** BlockTypeSqliteRepository (client/electron/main/repository/BlockTypeSqliteRepository.ts): reads and
    writes the `block_types` table as BlockTypeTable describes, and never touches `blocks`. */
module BlockTypeRepository {
  import opened Base
  import opened Tables
  import opened Blocks
  import opened BlockTypeTable
  import opened Storage

  class BlockTypeSqliteRepository {
    const db: Database

    constructor(db: Database)
      ensures this.db == db
    {
      this.db := db;
    }

    /** `findAll`: every stored block type, oldest first. */
    method FindAll() returns (r: seq<BlockTypeDefinition>)
      requires db.Valid()
      ensures r == BlockTypeTable.FindAll(db.blockTypes)
      ensures forall i, j :: 0 <= i < j < |r| ==> r[i].createdAt.value <= r[j].createdAt.value
    {
      AllOfValid(db.blockTypes);
      r := BlockTypeTable.FindAll(db.blockTypes);
    }

    method FindById(id: string) returns (r: Option<BlockTypeDefinition>)
      ensures r == BlockTypeTable.FindById(db.blockTypes, id)
      ensures r.None? <==> id !in db.blockTypes.rows
    {
      r := BlockTypeTable.FindById(db.blockTypes, id);
    }

    /** `create`: returns the id it inserted; a taken id or name makes the insert throw. */
    method Create(d: BlockTypeDraft, generated: string) returns (r: Result<string, DbError>)
      requires db.Valid()
      modifies db
      ensures db.Valid() && db.clock == old(db.clock) + 1
      ensures var spec := BlockTypeTable.Create(old(db.blockTypes), d, generated, db.clock);
        && (spec.Err? ==> r == Err(spec.error) && db.blockTypes == old(db.blockTypes))
        && (spec.Ok? ==> r == Ok(spec.value.1) && db.blockTypes == spec.value.0)
      ensures db.blocks == old(db.blocks) && db.clips == old(db.clips)
      ensures db.labels == old(db.labels) && db.clipLabels == old(db.clipLabels)
    {
      var now := db.Now();
      var spec := BlockTypeTable.Create(db.blockTypes, d, generated, now);
      CreateValid(db.blockTypes, d, generated, now);
      CreateKeepsNamesUnique(db.blockTypes, d, generated, now);
      if spec.Err? {
        r := Err(spec.error);
      } else {
        db.blockTypes := spec.value.0;
        r := Ok(spec.value.1);
      }
    }

    /** `update`: name and definitions of that row; a name held by another row makes it throw. */
    method Update(bt: BlockTypeDefinition) returns (r: Result<(), DbError>)
      requires db.Valid()
      modifies db
      ensures db.Valid() && db.clock == old(db.clock) + 1
      ensures var spec := BlockTypeTable.Update(old(db.blockTypes), bt, db.clock);
        && (spec.Err? ==> r == Err(spec.error) && db.blockTypes == old(db.blockTypes))
        && (spec.Ok? ==> r == Ok(()) && db.blockTypes == spec.value)
      ensures db.blocks == old(db.blocks) && db.clips == old(db.clips)
      ensures db.labels == old(db.labels) && db.clipLabels == old(db.clipLabels)
    {
      var now := db.Now();
      var spec := BlockTypeTable.Update(db.blockTypes, bt, now);
      RewriteValid(db.blockTypes, bt.id, BlockTypeRecord(bt.name, bt.propertiesDefinition), now);
      UpdateKeepsNamesUnique(db.blockTypes, bt, now);
      if spec.Err? {
        r := Err(spec.error);
      } else {
        db.blockTypes := spec.value;
        r := Ok(());
      }
    }

    /** `deleteById`: that block type only; blocks of that type stay. */
    method DeleteById(id: string)
      requires db.Valid()
      modifies db
      ensures db.Valid() && db.clock == old(db.clock)
      ensures db.blockTypes == BlockTypeTable.DeleteById(old(db.blockTypes), id)
      ensures db.blocks == old(db.blocks) && db.clips == old(db.clips)
      ensures db.labels == old(db.labels) && db.clipLabels == old(db.clipLabels)
    {
      RemoveValid(db.blockTypes, id);
      db.blockTypes := BlockTypeTable.DeleteById(db.blockTypes, id);
    }
  }
}
