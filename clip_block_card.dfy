/** The slot rules of the clip card (client/src/components/clips/ClipBlockCard.tsx): which blocks a clip
    shows as its children, which child is its action, which block types the action asks for, and which
    of those slots are filled. Only the card displays these; neither runner checks them. */
module ClipBlockCard {
  import opened Base
  import opened Json
  import opened Seqs
  import opened Blocks

  const CopyActionType := "copy"

  /** The two types a `copy` action asks for when it lists none. */
  const DefaultRequired: seq<Value> := [Str(ProjectRootType), Str(SelectedPathType)]

  /** `(actionBlock.properties.requiredBlockTypes as string[]) ?? []`. The cast checks nothing; the model
      reads an array as its items and a missing or `null` value as the empty list. */
  function DeclaredRequired(props: Props): (r: seq<Value>)
    ensures Get(props, "requiredBlockTypes").Some? && props["requiredBlockTypes"].Arr? ==> r == props["requiredBlockTypes"].items
    ensures Get(props, "requiredBlockTypes").None? || props["requiredBlockTypes"].Null? ==> r == []
  {
    match Get(props, "requiredBlockTypes")
    case Some(Arr(items)) => items
    case _ => []
  }

  /** `(actionBlock.properties.actionType as string) || "copy"`: a falsy or missing value means `copy`. */
  function ActionKind(props: Props): (v: Value)
    ensures Truthy(v)
    ensures "actionType" in props && Truthy(props["actionType"]) ==> v == props["actionType"]
    ensures !("actionType" in props && Truthy(props["actionType"])) ==> v == Str(CopyActionType)
  {
    match Get(props, "actionType")
    case Some(v) => if Truthy(v) then v else Str(CopyActionType)
    case None => Str(CopyActionType)
  }

  /** The `requiredBlockTypes` the card shows for a clip with these children. */
  function RequiredTypes(children: seq<Block>): (r: seq<Value>)
    ensures ActionOf(children).None? ==> r == []
    ensures ActionOf(children).Some? ==>
      var props := ActionOf(children).value.properties;
      && (|DeclaredRequired(props)| > 0 ==> r == DeclaredRequired(props))
      && (|DeclaredRequired(props)| == 0 && ActionKind(props) == Str(CopyActionType) ==> r == DefaultRequired)
      && (|DeclaredRequired(props)| == 0 && ActionKind(props) != Str(CopyActionType) ==> r == [])
  {
    match ActionOf(children)
    case None => []
    case Some(action) =>
      var declared := DeclaredRequired(action.properties);
      if |declared| == 0 && ActionKind(action.properties) == Str(CopyActionType) then DefaultRequired else declared
  }

  /** The child whose type is `rType`, as `childBlocks.find(b => b.type === rType)` looks for it. */
  function HasType(rType: Value): Block -> bool {
    (b: Block) => Str(b.blockType) == rType
  }

  /** `childBlocks.find(b => b.type === rType)` found something. */
  predicate SlotFilled(children: seq<Block>, rType: Value) {
    Find(children, HasType(rType)).Some?
  }

  /** A slot is filled exactly when some child has that type; it does not matter how many do. */
  lemma SlotFilledIff(children: seq<Block>, rType: Value)
    ensures SlotFilled(children, rType) <==> exists i :: 0 <= i < |children| && Str(children[i].blockType) == rType
  {
    if SlotFilled(children, rType) {
      var i := FindIndex(children, HasType(rType));
      assert Str(children[i].blockType) == rType;
    }
  }

  /** The slot row: each required type with whether it is filled. */
  function Slots(children: seq<Block>): (r: seq<(Value, bool)>)
    ensures |r| == |RequiredTypes(children)|
    ensures forall i :: 0 <= i < |r| ==> r[i] == (RequiredTypes(children)[i], SlotFilled(children, RequiredTypes(children)[i]))
  {
    var req := RequiredTypes(children);
    seq(|req|, i requires 0 <= i < |req| => (req[i], SlotFilled(children, req[i])))
  }

  /** An action with no `requiredBlockTypes` and no `actionType` is a `copy`, so the card asks for a
      project root and a selected path, each filled iff some child has that type. */
  lemma BareActionAsksForCopyInputs(children: seq<Block>)
    requires ActionOf(children).Some? && ActionOf(children).value.properties == map[]
    ensures Slots(children) == [(Str(ProjectRootType), SlotFilled(children, Str(ProjectRootType))),
                                (Str(SelectedPathType), SlotFilled(children, Str(SelectedPathType)))]
  {
  }

  /** An action of another kind with an empty list asks for nothing. */
  lemma OtherActionAsksForNothing(children: seq<Block>, kind: string)
    requires kind != "" && kind != CopyActionType
    requires ActionOf(children).Some? && ActionOf(children).value.properties == map["actionType" := Str(kind)]
    ensures Slots(children) == []
  {
  }

  /** The clip whose run the card requests: only a `clip` block, and only when a handler is given. */
  function RunRequest(hasHandler: bool, block: Block): (r: Option<string>)
    ensures r.Some? <==> hasHandler && block.blockType == ClipType
    ensures r.Some? ==> r.value == block.id
  {
    if hasHandler && block.blockType == ClipType then Some(block.id) else None
  }
}
