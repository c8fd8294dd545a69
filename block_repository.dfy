/** BlockSqliteRepository (client/electron/main/repository/BlockSqliteRepository.ts): the object the
    main process uses to read and write the `blocks` table. Each method does to the database what the
    matching function of BlockTable describes, and touches no other table. */
module BlockRepository {
  import opened Base
  import opened Tables
  import opened Blocks
  import opened BlockTable
  import opened Storage

  class BlockSqliteRepository {
    const db: Database

    constructor(db: Database)
      ensures this.db == db
    {
      this.db := db;
    }

    /** `findAll`: every stored block, oldest first. */
    method FindAll() returns (r: seq<Block>)
      requires db.Valid()
      ensures r == BlockTable.FindAll(db.blocks)
      ensures forall id :: id in db.blocks.rows <==> exists i :: 0 <= i < |r| && r[i].id == id
      ensures forall i, j :: 0 <= i < j < |r| ==> r[i].createdAt.value <= r[j].createdAt.value
    {
      FindAllSorted(db.blocks);
      r := BlockTable.FindAll(db.blocks);
    }

    /** `findById`: null for an absent id. */
    method FindById(id: string) returns (r: Option<Block>)
      ensures r == BlockTable.FindById(db.blocks, id)
      ensures r.None? <==> id !in db.blocks.rows
    {
      r := BlockTable.FindById(db.blocks, id);
    }

    /** `create`: returns the id it inserted; an id already stored makes the insert throw. */
    method Create(d: BlockDraft, generated: string) returns (r: Result<string, DbError>)
      requires db.Valid()
      modifies db
      ensures db.Valid() && db.clock == old(db.clock) + 1
      ensures var spec := BlockTable.Create(old(db.blocks), d, generated, db.clock);
        && (spec.Err? ==> r == Err(spec.error) && db.blocks == old(db.blocks))
        && (spec.Ok? ==> r == Ok(spec.value.1) && db.blocks == spec.value.0)
      ensures db.blockTypes == old(db.blockTypes) && db.clips == old(db.clips)
      ensures db.labels == old(db.labels) && db.clipLabels == old(db.clipLabels)
    {
      var now := db.Now();
      var spec := BlockTable.Create(db.blocks, d, generated, now);
      CreateValid(db.blocks, d, generated, now);
      if spec.Err? {
        r := Err(spec.error);
      } else {
        db.blocks := spec.value.0;
        r := Ok(spec.value.1);
      }
    }

    /** `update`: overwrites the row with `b.id`, if there is one. */
    method Update(b: Block)
      requires db.Valid()
      modifies db
      ensures db.Valid() && db.clock == old(db.clock) + 1
      ensures db.blocks == BlockTable.Update(old(db.blocks), b, db.clock)
      ensures db.blockTypes == old(db.blockTypes) && db.clips == old(db.clips)
      ensures db.labels == old(db.labels) && db.clipLabels == old(db.clipLabels)
    {
      var now := db.Now();
      RewriteValid(db.blocks, b.id, BlockRecord(b.blockType, b.properties, b.content, b.parent), now);
      db.blocks := BlockTable.Update(db.blocks, b, now);
    }

    /** `deleteById`: that row only. */
    method DeleteById(id: string)
      requires db.Valid()
      modifies db
      ensures db.Valid()
      ensures db.blocks == BlockTable.DeleteById(old(db.blocks), id)
      ensures db.clock == old(db.clock)
      ensures db.blockTypes == old(db.blockTypes) && db.clips == old(db.clips)
      ensures db.labels == old(db.labels) && db.clipLabels == old(db.clipLabels)
    {
      RemoveValid(db.blocks, id);
      db.blocks := BlockTable.DeleteById(db.blocks, id);
    }
  }
}
