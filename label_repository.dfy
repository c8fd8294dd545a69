/** LabelSqliteRepository (client/electron/main/repository/LabelSqliteRepository.ts): reads and writes
    the `labels` table and the `clip_labels` association as LabelTable describes. */
module LabelRepository {
  import opened Base
  import opened Tables
  import opened LabelTable
  import opened Storage

  class LabelSqliteRepository {
    const db: Database

    constructor(db: Database)
      ensures this.db == db
    {
      this.db := db;
    }

    method FindAll() returns (r: seq<Label>)
      ensures r == LabelTable.FindAll(db.labels)
    {
      r := LabelTable.FindAll(db.labels);
    }

    method FindById(id: string) returns (r: Option<Label>)
      ensures r == LabelTable.FindById(db.labels, id)
      ensures r.None? <==> id !in db.labels.rows
    {
      r := LabelTable.FindById(db.labels, id);
    }

    method Create(l: Label) returns (r: Result<(), DbError>)
      requires db.Valid()
      modifies db
      ensures db.Valid() && db.clock == old(db.clock) + 1
      ensures var spec := LabelTable.Create(old(db.labels), l, db.clock);
        && (spec.Err? ==> r == Err(spec.error) && db.labels == old(db.labels))
        && (spec.Ok? ==> r == Ok(()) && db.labels == spec.value)
      ensures db.blocks == old(db.blocks) && db.blockTypes == old(db.blockTypes)
      ensures db.clips == old(db.clips) && db.clipLabels == old(db.clipLabels)
    {
      var now := db.Now();
      var spec := LabelTable.Create(db.labels, l, now);
      CreateValid(db.labels, l, now);
      if spec.Err? {
        r := Err(spec.error);
      } else {
        db.labels := spec.value;
        r := Ok(());
      }
    }

    method Update(l: Label)
      requires db.Valid()
      modifies db
      ensures db.Valid() && db.clock == old(db.clock) + 1
      ensures db.labels == LabelTable.Update(old(db.labels), l, db.clock)
      ensures db.blocks == old(db.blocks) && db.blockTypes == old(db.blockTypes)
      ensures db.clips == old(db.clips) && db.clipLabels == old(db.clipLabels)
    {
      var now := db.Now();
      RewriteValid(db.labels, l.id, LabelRecord(l.name, l.color), now);
      db.labels := LabelTable.Update(db.labels, l, now);
    }

    /** `deleteById`: the label's links, then the label. */
    method DeleteById(id: string)
      requires db.Valid()
      modifies db
      ensures db.Valid() && db.clock == old(db.clock)
      ensures (db.labels, db.clipLabels) == LabelTable.DeleteById(old(db.labels), old(db.clipLabels), id)
      ensures db.blocks == old(db.blocks) && db.blockTypes == old(db.blockTypes) && db.clips == old(db.clips)
    {
      RemoveValid(db.labels, id);
      db.clipLabels := set p | p in db.clipLabels && p.labelId != id;
      db.labels := Remove(db.labels, id);
    }

    /** `addLabelToClip`: `INSERT OR IGNORE`. The link's own `created_at` is never read and is not kept. */
    method AddLabelToClip(clipId: string, labelId: string)
      requires db.Valid()
      modifies db
      ensures db.Valid() && db.clock == old(db.clock) + 1
      ensures db.clipLabels == LabelTable.AddLabelToClip(old(db.clipLabels), clipId, labelId)
      ensures db.blocks == old(db.blocks) && db.blockTypes == old(db.blockTypes)
      ensures db.clips == old(db.clips) && db.labels == old(db.labels)
    {
      var now := db.Now();
      db.clipLabels := LabelTable.AddLabelToClip(db.clipLabels, clipId, labelId);
    }

    method RemoveLabelFromClip(clipId: string, labelId: string)
      requires db.Valid()
      modifies db
      ensures db.Valid() && db.clock == old(db.clock)
      ensures db.clipLabels == LabelTable.RemoveLabelFromClip(old(db.clipLabels), clipId, labelId)
      ensures db.blocks == old(db.blocks) && db.blockTypes == old(db.blockTypes)
      ensures db.clips == old(db.clips) && db.labels == old(db.labels)
    {
      db.clipLabels := LabelTable.RemoveLabelFromClip(db.clipLabels, clipId, labelId);
    }

    method CountLabelsOfClip(clipId: string) returns (n: nat)
      ensures n == LabelTable.CountLabelsOfClip(db.clipLabels, clipId)
    {
      n := LabelTable.CountLabelsOfClip(db.clipLabels, clipId);
    }

    method FindLabelsByClip(clipId: string) returns (r: seq<Label>)
      ensures r == LabelTable.FindLabelsByClip(db.labels, db.clipLabels, clipId)
    {
      r := LabelTable.FindLabelsByClip(db.labels, db.clipLabels, clipId);
    }
  }
}
