/** ClipSqliteRepository (client/electron/main/repository/ClipSqliteRepository.ts): reads and writes
    the `clips` table as ClipTable describes; deleting a clip also deletes its `clip_labels` rows. */
module ClipRepository {
  import opened Base
  import opened Tables
  import opened LabelTable
  import opened ClipTable
  import opened Storage

  class ClipSqliteRepository {
    const db: Database

    constructor(db: Database)
      ensures this.db == db
    {
      this.db := db;
    }

    method FindAll() returns (r: seq<Clip>)
      ensures r == ClipTable.FindAll(db.clips)
    {
      r := ClipTable.FindAll(db.clips);
    }

    method FindById(id: string) returns (r: Option<Clip>)
      ensures r == ClipTable.FindById(db.clips, id)
      ensures r.None? <==> id !in db.clips.rows
    {
      r := ClipTable.FindById(db.clips, id);
    }

    /** `create`: the caller's id; an id already stored makes the insert throw. */
    method Create(c: Clip) returns (r: Result<(), DbError>)
      requires db.Valid()
      modifies db
      ensures db.Valid() && db.clock == old(db.clock) + 1
      ensures var spec := ClipTable.Create(old(db.clips), c, db.clock);
        && (spec.Err? ==> r == Err(spec.error) && db.clips == old(db.clips))
        && (spec.Ok? ==> r == Ok(()) && db.clips == spec.value)
      ensures db.blocks == old(db.blocks) && db.blockTypes == old(db.blockTypes)
      ensures db.labels == old(db.labels) && db.clipLabels == old(db.clipLabels)
    {
      var now := db.Now();
      var spec := ClipTable.Create(db.clips, c, now);
      ClipTable.CreateValid(db.clips, c, now);
      if spec.Err? {
        r := Err(spec.error);
      } else {
        db.clips := spec.value;
        r := Ok(());
      }
    }

    method Update(c: Clip)
      requires db.Valid()
      modifies db
      ensures db.Valid() && db.clock == old(db.clock) + 1
      ensures db.clips == ClipTable.Update(old(db.clips), c, db.clock)
      ensures db.blocks == old(db.blocks) && db.blockTypes == old(db.blockTypes)
      ensures db.labels == old(db.labels) && db.clipLabels == old(db.clipLabels)
    {
      var now := db.Now();
      RewriteValid(db.clips, c.id, Encode(c), now);
      db.clips := ClipTable.Update(db.clips, c, now);
    }

    /** `deleteById`: the clip's links, then the clip. */
    method DeleteById(id: string)
      requires db.Valid()
      modifies db
      ensures db.Valid() && db.clock == old(db.clock)
      ensures (db.clips, db.clipLabels) == ClipTable.DeleteById(old(db.clips), old(db.clipLabels), id)
      ensures db.blocks == old(db.blocks) && db.blockTypes == old(db.blockTypes) && db.labels == old(db.labels)
    {
      RemoveValid(db.clips, id);
      db.clipLabels := set p | p in db.clipLabels && p.clipId != id;
      db.clips := Remove(db.clips, id);
    }
  }
}
