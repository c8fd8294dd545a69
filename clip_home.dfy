/** The clip screen (client/src/components/clips/ClipHome.tsx): it splits the store into clip blocks and
    the other blocks, and attaches a dragged block to the clip it is dropped on by appending the block's
    id to that clip's `content`. */
module ClipHome {
  import opened Base
  import opened Seqs
  import opened Text
  import opened Blocks
  import opened BlockTable
  import opened BlockStore

  /** The prefix of every drop target's id: `clip-<block id>`. */
  const DropPrefix := "clip-"

  /** The blocks that are not of type `t`. */
  function NotOfType(t: string): Block -> bool {
    (b: Block) => b.blockType != t
  }

  /** `blocks.filter(b => b.type === "clip")`. */
  function ClipBlocks(blocks: seq<Block>): (r: seq<Block>)
    ensures forall b :: b in r <==> b in blocks && b.blockType == ClipType
  {
    Filter(blocks, OfType(ClipType))
  }

  /** `blocks.filter(b => b.type !== "clip")`. */
  function OtherBlocks(blocks: seq<Block>): (r: seq<Block>)
    ensures forall b :: b in r <==> b in blocks && b.blockType != ClipType
  {
    Filter(blocks, NotOfType(ClipType))
  }

  /** Every block is shown exactly once: in the clip section or in the other section. */
  lemma SectionsPartition(blocks: seq<Block>)
    ensures multiset(ClipBlocks(blocks)) + multiset(OtherBlocks(blocks)) == multiset(blocks)
  {
    FilterPartition(blocks, OfType(ClipType), NotOfType(ClipType));
  }

  /** `over.id.replace("clip-", "")`: the first occurrence of the prefix is removed. */
  function DropTargetId(overId: string): (r: string)
    ensures (forall k :: 0 <= k <= |overId| ==> !OccursAt(overId, DropPrefix, k)) ==> r == overId
  {
    ReplaceFirst(overId, DropPrefix, "")
  }

  /** A droppable registered as `clip-<id>` reports the block id itself. */
  lemma DropTargetOfDroppable(id: string)
    ensures DropTargetId(DropPrefix + id) == id
  {
    ReplaceLeading(DropPrefix, id);
  }

  /** The drop of `activeId` on the droppable `overId` (none when dropped outside every target). */
  datatype DragEnd = DragEnd(activeId: string, overId: Option<string>)

  /** The write a drop makes: the target clip and its new `content`, or nothing. */
  function PlanDrop(blocks: seq<Block>, e: DragEnd): (r: Option<(Block, seq<string>)>)
    ensures e.overId.None? ==> r.None?
    ensures e.overId.Some? && DropTargetId(e.overId.value) == e.activeId ==> r.None?
    ensures e.overId.Some? && Find(blocks, HasId(DropTargetId(e.overId.value))).None? ==> r.None?
    ensures r.Some? ==>
      && e.overId.Some? && DropTargetId(e.overId.value) != e.activeId
      && Find(blocks, HasId(DropTargetId(e.overId.value))) == Some(r.value.0)
      && e.activeId !in r.value.0.content
      && r.value.1 == r.value.0.content + [e.activeId]
    ensures (r.None? && e.overId.Some? && DropTargetId(e.overId.value) != e.activeId
             && Find(blocks, HasId(DropTargetId(e.overId.value))).Some?) ==>
      e.activeId in Find(blocks, HasId(DropTargetId(e.overId.value))).value.content
  {
    match e.overId
    case None => None
    case Some(overId) =>
      var target := DropTargetId(overId);
      if target == e.activeId then None
      else
        match Find(blocks, HasId(target))
        case None => None
        case Some(clip) =>
          if e.activeId in clip.content then None else Some((clip, clip.content + [e.activeId]))
  }

  /** After a drop the dragged id is in the target's `content` exactly once if it was at most once before:
      the old entries keep their order and a duplicate-free `content` stays duplicate-free. */
  lemma DropKeepsContentDuplicateFree(blocks: seq<Block>, e: DragEnd)
    requires PlanDrop(blocks, e).Some?
    ensures var (clip, content) := PlanDrop(blocks, e).value;
      && content[..|clip.content|] == clip.content
      && e.activeId in content
      && (NoDup(clip.content) ==> NoDup(content))
  {
    var (clip, content) := PlanDrop(blocks, e).value;
    assert content[..|clip.content|] == clip.content;
  }

  /** Dropping the same block on the same clip a second time makes no further write. */
  lemma DropIdempotent(blocks: seq<Block>, e: DragEnd)
    requires PlanDrop(blocks, e).Some?
    ensures var (clip, content) := PlanDrop(blocks, e).value;
      PlanDrop(ReplaceById(blocks, clip.id, clip.(content := content)), e).None?
  {
    var (clip, content) := PlanDrop(blocks, e).value;
    var target := DropTargetId(e.overId.value);
    var updated := ReplaceById(blocks, clip.id, clip.(content := content));
    var i := FindIndex(blocks, HasId(target));
    assert updated[i] == clip.(content := content);
    var found := Find(updated, HasId(target));
    assert found.Some?;
    var j := FindIndex(updated, HasId(target));
    assert updated[j].id == target;
    assert found.value == updated[j];
  }

  /** The screen's state: the block being dragged, and the block store it writes through. */
  class ClipHome {
    var activeDragId: Option<string>
    const store: BlockStore

    constructor(store: BlockStore)
      ensures activeDragId.None? && this.store == store
    {
      activeDragId := None;
      this.store := store;
    }

    /** `handleDragStart`. */
    method HandleDragStart(activeId: string)
      modifies this
      ensures activeDragId == Some(activeId)
    {
      activeDragId := Some(activeId);
    }

    /** `handleDragEnd`: at most one `updateBlock` with the new `content`; the drag ends in every case. */
    method HandleDragEnd(e: DragEnd)
      requires store.main.repo.db.Valid()
      modifies this, store, store.main.repo.db
      ensures activeDragId.None?
      ensures store.main.repo.db.Valid()
      ensures var plan := PlanDrop(old(store.blocks), e);
        && (plan.None? ==> store.blocks == old(store.blocks) && store.main.repo.db.blocks == old(store.main.repo.db.blocks))
        && (plan.Some? ==>
              var written := plan.value.0.(content := plan.value.1);
              && store.blocks == ReplaceById(old(store.blocks), plan.value.0.id, written)
              && store.main.repo.db.blocks == BlockTable.Update(old(store.main.repo.db.blocks), written, store.main.repo.db.clock))
      ensures old(store.InStep()) ==> store.InStep()
      ensures store.main.repo.db.blockTypes == old(store.main.repo.db.blockTypes)
      ensures store.main.repo.db.clips == old(store.main.repo.db.clips)
      ensures store.main.repo.db.labels == old(store.main.repo.db.labels)
      ensures store.main.repo.db.clipLabels == old(store.main.repo.db.clipLabels)
    {
      if e.overId.None? {
        activeDragId := None;
        return;
      }
      var overClipId := DropTargetId(e.overId.value);
      if overClipId == e.activeId {
        activeDragId := None;
        return;
      }
      var clipBlock := Find(store.blocks, HasId(overClipId));
      if clipBlock.None? {
        activeDragId := None;
        return;
      }
      if e.activeId !in clipBlock.value.content {
        var newContent := clipBlock.value.content + [e.activeId];
        assert clipBlock.value.id == overClipId;
        store.UpdateBlock(clipBlock.value.id, BlockPatch(None, None, None, Some(newContent), None));
      }
      activeDragId := None;
    }
  }
}
