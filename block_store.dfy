/** The renderer's block store (client/src/store/blockStore.ts): the list of blocks the screens show,
    kept in step with the database through the block handlers. Every write goes to the main process
    first; `createBlock` then reloads the whole list, while `updateBlock` and `deleteBlock` patch the
    list in place. */
module BlockStore {
  import opened Base
  import opened Json
  import opened Seqs
  import opened Tables
  import opened Blocks
  import opened BlockTable
  import opened Storage
  import opened ClipRunner
  import opened BlockIpc

  /** `Partial<BlockItem>` as `updateBlock` receives it. `parent` is `Some(None)` when the patch sets
      it to `null`. */
  datatype BlockPatch = BlockPatch(
    id: Option<string>,
    blockType: Option<string>,
    properties: Option<Props>,
    content: Option<seq<string>>,
    parent: Option<Option<string>>)

  /** The block whose id is `id`. */
  function HasId(id: string): Block -> bool {
    (b: Block) => b.id == id
  }

  /** Every block except the one whose id is `id`. */
  function NotId(id: string): Block -> bool {
    (b: Block) => b.id != id
  }

  function IdOf(b: Block): string {
    b.id
  }

  /** The ids of a list of blocks, in order. */
  function Ids(bs: seq<Block>): (r: seq<string>)
    ensures |r| == |bs| && forall i :: 0 <= i < |bs| ==> r[i] == bs[i].id
  {
    Map(bs, IdOf)
  }

  /** The `base` object `createBlock` sends: the id is chosen here (`partial.id ?? nanoid()`), and the
      other defaults are the ones the repository would apply anyway. */
  function Prepared(partial: BlockDraft, generated: string): (d: BlockDraft)
    ensures d.id == Some(partial.id.GetOr(generated))
    ensures Fill(d) == Fill(partial)
  {
    BlockDraft(Some(partial.id.GetOr(generated)), Some(partial.blockType.GetOr(ClipType)),
               Some(partial.properties.GetOr(map[])), Some(partial.content.GetOr([])), partial.parent)
  }

  /** Filling the defaults in the store first changes nothing: the repository then stores exactly what
      it would have stored for the bare partial, whatever id it would have generated itself. */
  lemma PreparedAgreesWithRepository(t: BlockRows, partial: BlockDraft, generated: string, otherGenerated: string, now: nat)
    ensures BlockTable.Create(t, Prepared(partial, generated), otherGenerated, now) == BlockTable.Create(t, partial, generated, now)
  {
  }

  /** `{ ...prev, ...patch }` on `properties`: every key of either, the patch's value winning. */
  function MergeProps(prev: Props, patch: Option<Props>): (r: Props)
    ensures forall k :: k in r <==> k in prev || (patch.Some? && k in patch.value)
    ensures forall k :: patch.Some? && k in patch.value ==> r[k] == patch.value[k]
    ensures forall k :: k in prev && (patch.None? || k !in patch.value) ==> r[k] == prev[k]
  {
    if patch.Some? then prev + patch.value else prev
  }

  /** `{ ...prev, ...patch, properties: mergedProps }`. */
  function Merge(prev: Block, patch: BlockPatch): (r: Block)
    ensures r.id == (if patch.id.Some? then patch.id.value else prev.id)
    ensures r.blockType == (if patch.blockType.Some? then patch.blockType.value else prev.blockType)
    ensures r.properties == MergeProps(prev.properties, patch.properties)
    ensures r.content == (if patch.content.Some? then patch.content.value else prev.content)
    ensures r.parent == (if patch.parent.Some? then patch.parent.value else prev.parent)
    ensures r.createdAt == prev.createdAt && r.updatedAt == prev.updatedAt
  {
    Block(patch.id.GetOr(prev.id), patch.blockType.GetOr(prev.blockType),
          MergeProps(prev.properties, patch.properties), patch.content.GetOr(prev.content),
          patch.parent.GetOr(prev.parent), prev.createdAt, prev.updatedAt)
  }

  /** An empty patch leaves the block as it is, and applying the same patch twice is applying it once. */
  lemma MergeIdempotent(prev: Block, patch: BlockPatch)
    ensures Merge(prev, BlockPatch(None, None, None, None, None)) == prev
    ensures Merge(Merge(prev, patch), patch) == Merge(prev, patch)
  {
  }

  /** Changing a block's type keeps its properties: the fields of the old type are not dropped. */
  lemma TypeChangeKeepsProperties(prev: Block, newType: string)
    ensures var r := Merge(prev, BlockPatch(None, Some(newType), None, None, None));
      r.blockType == newType && r.properties == prev.properties && r.content == prev.content && r.id == prev.id
  {
  }

  /** `blocks.map(b => b.id === id ? updated : b)`. */
  function ReplaceById(bs: seq<Block>, id: string, updated: Block): (r: seq<Block>)
    ensures |r| == |bs|
    ensures forall i :: 0 <= i < |bs| ==> r[i] == (if bs[i].id == id then updated else bs[i])
  {
    seq(|bs|, i requires 0 <= i < |bs| => if bs[i].id == id then updated else bs[i])
  }

  /** Replacing by id with a block that keeps the id keeps the ids and their order; an id that is not
      listed leaves the list unchanged. */
  lemma ReplaceKeepsIds(bs: seq<Block>, id: string, updated: Block)
    ensures updated.id == id ==> Ids(ReplaceById(bs, id, updated)) == Ids(bs)
    ensures id !in Ids(bs) ==> ReplaceById(bs, id, updated) == bs
  {
  }

  /** `blocks.filter(b => b.id !== id)`. */
  function RemoveById(bs: seq<Block>, id: string): (r: seq<Block>)
    ensures forall b :: b in r <==> b in bs && b.id != id
  {
    Filter(bs, NotId(id))
  }

  /** Removing by id from the list removes the same id from the list of ids, keeping the rest in order. */
  lemma IdsOfRemove(bs: seq<Block>, id: string)
    ensures Ids(RemoveById(bs, id)) == Filter(Ids(bs), Except(id))
  {
    MapFilter(bs, NotId(id), IdOf, Except(id));
  }

  /** After a load the list's ids are the table's ids in table order. */
  lemma LoadedIds(t: BlockRows)
    requires Tables.Valid(t)
    ensures Ids(BlockTable.FindAll(t)) == t.order
  {
    AllOfValid(t);
  }

  /** The store, and the main process it talks to. */
  class BlockStore {
    var blocks: seq<Block>
    const main: BlockHandlers

    constructor(main: BlockHandlers)
      ensures blocks == [] && this.main == main
    {
      blocks := [];
      this.main := main;
    }

    /** The store lists exactly the stored blocks, in table order. */
    ghost predicate InStep()
      reads this, main.repo.db
    {
      Ids(blocks) == main.repo.db.blocks.order
    }

    /** `loadBlocksFromDB`. */
    method LoadBlocksFromDB()
      requires main.repo.db.Valid()
      modifies this
      ensures blocks == BlockTable.FindAll(main.repo.db.blocks)
      ensures InStep()
    {
      blocks := main.BlocksLoad();
      LoadedIds(main.repo.db.blocks);
    }

    /** `createBlock`: the id is `partial.id ?? nanoid()`; on success the list is reloaded. A
        duplicate id makes `invoke` reject, and the rejection propagates. */
    method CreateBlock(partial: BlockDraft, generated: string) returns (r: Result<string, DbError>)
      requires main.repo.db.Valid()
      modifies this, main.repo.db
      ensures main.repo.db.Valid() && main.repo.db.clock == old(main.repo.db.clock) + 1
      ensures var spec := BlockTable.Create(old(main.repo.db.blocks), partial, generated, main.repo.db.clock);
        && (spec.Err? ==> r == Err(spec.error) && main.repo.db.blocks == old(main.repo.db.blocks) && blocks == old(blocks))
        && (spec.Ok? ==> r == Ok(partial.id.GetOr(generated)) && main.repo.db.blocks == spec.value.0)
      ensures r.Ok? ==> blocks == BlockTable.FindAll(main.repo.db.blocks) && InStep() && r.value in Ids(blocks)
      ensures main.repo.db.blockTypes == old(main.repo.db.blockTypes) && main.repo.db.clips == old(main.repo.db.clips)
      ensures main.repo.db.labels == old(main.repo.db.labels) && main.repo.db.clipLabels == old(main.repo.db.clipLabels)
    {
      var newId := partial.id.GetOr(generated);
      var res := main.BlocksCreate(Prepared(partial, generated), generated);
      PreparedAgreesWithRepository(old(main.repo.db.blocks), partial, generated, generated, main.repo.db.clock);
      if res.Err? {
        r := Err(res.error);
        return;
      }
      if res.value.success {
        LoadBlocksFromDB();
      }
      r := Ok(newId);
    }

    /** `updateBlock`: nothing happens for an id the list does not hold; otherwise the merged block
        is written and replaces every listed block with that id. */
    method UpdateBlock(id: string, patch: BlockPatch)
      requires main.repo.db.Valid()
      modifies this, main.repo.db
      ensures main.repo.db.Valid()
      ensures var prev := Find(old(blocks), HasId(id));
        && (prev.None? ==> blocks == old(blocks) && main.repo.db.blocks == old(main.repo.db.blocks))
        && (prev.Some? ==>
              && blocks == ReplaceById(old(blocks), id, Merge(prev.value, patch))
              && main.repo.db.blocks == BlockTable.Update(old(main.repo.db.blocks), Merge(prev.value, patch), main.repo.db.clock))
      ensures patch.id.None? || patch.id == Some(id) ==> old(InStep()) ==> InStep()
      ensures main.repo.db.blockTypes == old(main.repo.db.blockTypes) && main.repo.db.clips == old(main.repo.db.clips)
      ensures main.repo.db.labels == old(main.repo.db.labels) && main.repo.db.clipLabels == old(main.repo.db.clipLabels)
    {
      var prev := Find(blocks, HasId(id));
      if prev.None? {
        return;
      }
      var updated := Merge(prev.value, patch);
      var _ := main.BlocksUpdate(updated);
      ReplaceKeepsIds(blocks, id, updated);
      blocks := ReplaceById(blocks, id, updated);
    }

    /** `deleteBlock`: the row goes, then every listed block with that id. */
    method DeleteBlock(id: string)
      requires main.repo.db.Valid()
      modifies this, main.repo.db
      ensures main.repo.db.Valid() && main.repo.db.clock == old(main.repo.db.clock)
      ensures main.repo.db.blocks == BlockTable.DeleteById(old(main.repo.db.blocks), id)
      ensures blocks == RemoveById(old(blocks), id)
      ensures old(InStep()) ==> InStep()
      ensures main.repo.db.blockTypes == old(main.repo.db.blockTypes) && main.repo.db.clips == old(main.repo.db.clips)
      ensures main.repo.db.labels == old(main.repo.db.labels) && main.repo.db.clipLabels == old(main.repo.db.clipLabels)
    {
      var _ := main.BlocksDelete(id);
      IdsOfRemove(blocks, id);
      blocks := RemoveById(blocks, id);
    }

    /** `runBlock`: the listed block is sent on `block-run`; an unlisted id sends nothing. */
    method RunBlock(blockId: string, host: ScriptHost)
      requires main.repo.db.Valid()
      modifies main
      ensures var found := Find(blocks, HasId(blockId));
        && (found.None? ==> main.sent == old(main.sent))
        && (found.Some? ==> main.sent == old(main.sent) + [BlockRun(found.value, BlockTable.FindAll(main.repo.db.blocks), host)])
    {
      var found := Find(blocks, HasId(blockId));
      if found.None? {
        return;
      }
      main.OnBlockRun(found.value, host);
    }
  }
}
