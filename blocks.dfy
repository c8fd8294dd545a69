/** The Block and BlockType entities (client/electron/main/domain/block.ts, blockType.ts, blockProps.ts)
    and the child-resolution idiom every reader of the block graph repeats: keep the stored blocks whose id
    the parent's `content` lists, then take the first of them whose type is `action`. */
module Blocks {
  import opened Base
  import opened Json
  import opened Seqs
  import opened Text

  const ClipType := "clip"
  const ActionType := "action"
  const ProjectRootType := "project_root"
  const SelectedPathType := "selected_path"

  /** A node of the block graph. `content` holds child ids, which may dangle. */
  datatype Block = Block(
    id: string,
    blockType: string,
    properties: Props,
    content: seq<string>,
    parent: Option<string>,
    createdAt: Option<nat>,
    updatedAt: Option<nat>)

  datatype FieldKind = TextField | TextAreaField | NumberField | CheckboxField | SelectField

  /** One editable field of a user-defined block type. */
  datatype FieldDefinition = FieldDefinition(
    key: string,
    caption: string,
    kind: FieldKind,
    options: Option<seq<string>>,
    order: int,
    defaultValue: Option<Value>)

  /** A user-defined block type: the `name` is matched by value against `Block.type`. */
  datatype BlockTypeDefinition = BlockTypeDefinition(
    id: string,
    name: string,
    propertiesDefinition: seq<FieldDefinition>,
    createdAt: Option<nat>,
    updatedAt: Option<nat>)

  /** The blocks of `all` whose id is listed in `content`, in the order of `all`. */
  function ChildrenOf(all: seq<Block>, content: seq<string>): (children: seq<Block>)
    ensures forall b :: b in children <==> b in all && b.id in content
  {
    Filter(all, (b: Block) => b.id in content)
  }

  /** Children keep the order of the store, not the order of `content`. */
  lemma ChildrenInStoreOrder(a: seq<Block>, b: seq<Block>, content: seq<string>)
    ensures ChildrenOf(a + b, content) == ChildrenOf(a, content) + ChildrenOf(b, content)
  {
    FilterAppend(a, b, (x: Block) => x.id in content);
  }

  /** Only the set of ids in `content` matters: reordering or repeating ids changes nothing. */
  lemma ChildrenDependOnIdSetOnly(all: seq<Block>, c1: seq<string>, c2: seq<string>)
    requires forall id :: id in c1 <==> id in c2
    ensures ChildrenOf(all, c1) == ChildrenOf(all, c2)
  {
    FilterCongruent(all, (x: Block) => x.id in c1, (x: Block) => x.id in c2);
  }

  /** An id that names no stored block (a dangling reference) is silently dropped. */
  lemma ChildrenIgnoreDangling(all: seq<Block>, content: seq<string>, dangling: string)
    requires forall i :: 0 <= i < |all| ==> all[i].id != dangling
    ensures ChildrenOf(all, content + [dangling]) == ChildrenOf(all, content)
  {
    FilterCongruent(all, (x: Block) => x.id in content + [dangling], (x: Block) => x.id in content);
  }

  /** The test `b => b.type === t`. */
  function OfType(t: string): Block -> bool {
    (b: Block) => b.blockType == t
  }

  /** The first child of type `t` (`Array.prototype.find`). */
  function FirstOfType(children: seq<Block>, t: string): (r: Option<Block>)
    ensures r.None? <==> forall i :: 0 <= i < |children| ==> children[i].blockType != t
    ensures r.Some? ==> r.value in children && r.value.blockType == t
  {
    Find(children, OfType(t))
  }

  /** `find` returns the child at the first index of that type: a later one is never chosen. */
  lemma FirstOfTypeIsFirst(children: seq<Block>, t: string, i: int)
    requires 0 <= i < |children| && children[i].blockType == t
    requires forall j :: 0 <= j < i ==> children[j].blockType != t
    ensures FirstOfType(children, t) == Some(children[i])
  {
    var k := FindIndex(children, OfType(t));
    assert k == i;
  }

  /** The first child of type `action`, if any. */
  function ActionOf(children: seq<Block>): Option<Block> {
    FirstOfType(children, ActionType)
  }

  /** The action's script: present only when `properties.code` is a string that is not blank.
      Both runners use this test (`typeof code !== "string" || !code.trim()` and its negation). */
  function CodeOf(props: Props): (code: Option<string>)
    ensures code.Some? ==> "code" in props && props["code"] == Str(code.value) && !IsBlank(code.value)
    ensures code.None? ==> "code" !in props || !props["code"].Str? || IsBlank(props["code"].s)
  {
    if "code" in props && props["code"].Str? && Trim(props["code"].s) != "" then
      TrimEmptyIffBlank(props["code"].s);
      Some(props["code"].s)
    else
      if "code" in props && props["code"].Str? then
        TrimEmptyIffBlank(props["code"].s);
        None
      else None
  }
}
