/** The SQLite database the repositories share (client/electron/main/db.ts): one mutable object
    holding every table and the wall clock the repositories read before each write. */
module Storage {
  import opened Tables
  import opened BlockTable
  import opened BlockTypeTable
  import opened ClipTable
  import opened LabelTable

  class Database {
    var blocks: BlockRows
    var blockTypes: BlockTypeRows
    var clips: ClipRows
    var labels: LabelRows
    var clipLabels: Links
    /** The last clock reading handed out; every stamp in every table is at most this. */
    var clock: nat

    /** Every table is well formed and stamped no later than `clock`; block type names are unique. */
    ghost predicate Valid()
      reads this
    {
      && Tables.Valid(blocks) && StampedBefore(blocks, clock)
      && Tables.Valid(blockTypes) && StampedBefore(blockTypes, clock) && UniqueNames(blockTypes)
      && Tables.Valid(clips) && StampedBefore(clips, clock)
      && Tables.Valid(labels) && StampedBefore(labels, clock)
    }

    /** `initSchema`: every table empty. */
    constructor()
      ensures Valid()
      ensures blocks == Empty() && blockTypes == Empty() && clips == Empty() && labels == Empty()
      ensures clipLabels == {} && clock == 0
    {
      blocks, blockTypes, clips, labels := Empty(), Empty(), Empty(), Empty();
      clipLabels := {};
      clock := 0;
    }

    /** `new Date().toISOString()`: a reading later than every stamp written so far. */
    method Now() returns (now: nat)
      requires Valid()
      modifies this
      ensures Valid()
      ensures now == clock == old(clock) + 1
      ensures blocks == old(blocks) && blockTypes == old(blockTypes) && clips == old(clips)
      ensures labels == old(labels) && clipLabels == old(clipLabels)
    {
      clock := clock + 1;
      now := clock;
    }
  }
}
