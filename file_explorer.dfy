/** The file picker (client/src/components/FileExplorer.tsx): shift-click selects the run of paths
    between the last clicked path and the clicked one in the tree's pre-order, ctrl- or meta-click
    toggles one path, and a plain click deselects a selected path or selects only the clicked one. */
module FileExplorer {
  import opened Base
  import opened Seqs

  /** A node of the directory tree `read-dir-structure` returns; a missing `children` is the empty list. */
  datatype FileNode = FileNode(name: string, path: string, isDirectory: bool, children: seq<FileNode>)

  /** The paths of a tree in pre-order: the node, then each child's subtree in order. */
  function PreOrder(n: FileNode): (r: seq<string>)
    ensures |r| >= 1 && r[0] == n.path
    decreases n, 1
  {
    [n.path] + PreOrderAll(n.children)
  }

  /** The pre-orders of a list of subtrees, one after another. */
  function PreOrderAll(ns: seq<FileNode>): seq<string>
    decreases ns, 0
  {
    if ns == [] then [] else PreOrder(ns[0]) + PreOrderAll(ns[1..])
  }

  lemma {:induction false} PreOrderAllAppend(a: seq<FileNode>, b: seq<FileNode>)
    ensures PreOrderAll(a + b) == PreOrderAll(a) + PreOrderAll(b)
  {
    if a == [] {
      assert a + b == b;
    } else {
      assert (a + b)[0] == a[0];
      assert (a + b)[1..] == a[1..] + b;
      PreOrderAllAppend(a[1..], b);
    }
  }

  /** The traversal is pre-order: a node comes first, then the subtrees of its earlier children, then the
      whole subtree of child `i`, then those of its later children. */
  lemma {:induction false} ChildSubtreeInPlace(n: FileNode, i: int)
    requires 0 <= i < |n.children|
    ensures PreOrder(n) ==
      [n.path] + PreOrderAll(n.children[..i]) + PreOrder(n.children[i]) + PreOrderAll(n.children[i + 1..])
  {
    var cs := n.children;
    var tail := [cs[i]] + cs[i + 1..];
    assert cs == cs[..i] + tail;
    PreOrderAllAppend(cs[..i], tail);
    assert tail[0] == cs[i] && tail[1..] == cs[i + 1..];
    var before, here, after := PreOrderAll(cs[..i]), PreOrder(cs[i]), PreOrderAll(cs[i + 1..]);
    assert PreOrderAll(tail) == here + after;
    assert PreOrderAll(cs) == before + (here + after);
  }

  /** `dfs(n)`: pushes `n.path`, then visits each child in turn. `all` is the array it pushes onto. */
  method Dfs(n: FileNode, all: seq<string>) returns (all': seq<string>)
    ensures all' == all + PreOrder(n)
    decreases n
  {
    all' := all + [n.path];
    var i := 0;
    while i < |n.children|
      invariant 0 <= i <= |n.children|
      invariant all' == all + [n.path] + PreOrderAll(n.children[..i])
    {
      var child := n.children[i];
      all' := Dfs(child, all');
      PreOrderAllAppend(n.children[..i], [child]);
      assert n.children[..i + 1] == n.children[..i] + [child];
      assert PreOrderAll([child]) == PreOrder(child) by {
        assert [child][1..] == [];
      }
      i := i + 1;
    }
    assert n.children[..i] == n.children;
  }

  /** The positions `ia` and `ib` and everything between them, both ends included. */
  function Between(all: seq<string>, ia: nat, ib: nat): (r: seq<string>)
    requires ia < |all| && ib < |all|
    ensures |r| == (if ia < ib then ib - ia else ia - ib) + 1
    ensures all[ia] in r && all[ib] in r
  {
    var lo := if ia < ib then ia else ib;
    var hi := if ia < ib then ib else ia;
    assert all[lo..hi + 1][ia - lo] == all[ia];
    assert all[lo..hi + 1][ib - lo] == all[ib];
    all[lo..hi + 1]
  }

  /** `const all: string[] = []; dfs(root);`. */
  method AllPaths(root: FileNode) returns (all: seq<string>)
    ensures all == PreOrder(root)
  {
    all := Dfs(root, []);
    assert [] + PreOrder(root) == PreOrder(root);
  }

  /** What `getRangePaths` returns: the paths of the pre-order between the first occurrences of the
      two paths, both included; nothing without a tree or when either path is not in it. */
  function RangePaths(root: Option<FileNode>, a: string, b: string): (r: Option<seq<string>>)
    ensures r.None? <==> root.None? || a !in PreOrder(root.value) || b !in PreOrder(root.value)
    ensures r.Some? ==> a in r.value && b in r.value
    ensures r.Some? ==> r == Some(Between(PreOrder(root.value), IndexOf(PreOrder(root.value), a), IndexOf(PreOrder(root.value), b)))
  {
    match root
    case None => None
    case Some(tree) =>
      var all := PreOrder(tree);
      var ia, ib := IndexOf(all, a), IndexOf(all, b);
      if ia < 0 || ib < 0 then None else Some(Between(all, ia, ib))
  }

  /** The range does not depend on which end was clicked first, and holds `|idxA - idxB| + 1` paths. */
  lemma RangeSymmetric(tree: FileNode, a: string, b: string)
    requires a in PreOrder(tree) && b in PreOrder(tree)
    ensures RangePaths(Some(tree), a, b) == RangePaths(Some(tree), b, a)
    ensures var ia, ib := IndexOf(PreOrder(tree), a), IndexOf(PreOrder(tree), b);
      |RangePaths(Some(tree), a, b).value| == (if ia < ib then ib - ia else ia - ib) + 1
  {
    var all := PreOrder(tree);
    BetweenSymmetric(all, IndexOf(all, a), IndexOf(all, b));
  }

  lemma BetweenSymmetric(all: seq<string>, ia: nat, ib: nat)
    requires ia < |all| && ib < |all|
    ensures Between(all, ia, ib) == Between(all, ib, ia)
  {
  }

  /** `getRangePaths(root, pathA, pathB)`. */
  method GetRangePaths(root: Option<FileNode>, pathA: string, pathB: string) returns (r: Option<seq<string>>)
    ensures r == RangePaths(root, pathA, pathB)
  {
    if root.None? {
      return None;
    }
    var all := AllPaths(root.value);
    var idxA := IndexOf(all, pathA);
    var idxB := IndexOf(all, pathB);
    if idxA < 0 || idxB < 0 {
      return None;
    }
    var start := if idxA < idxB then idxA else idxB;
    var end := if idxA < idxB then idxB else idxA;
    r := Some(all[start..end + 1]);
  }

  /** A click: `shiftKey`, and `metaKey || ctrlKey`. */
  datatype Click = Click(path: string, shift: bool, ctrl: bool)

  /** `lastClicked && lastClicked !== filePath`: a previous click on another, non-empty path. */
  predicate HasAnchor(lastClicked: Option<string>, path: string) {
    lastClicked.Some? && lastClicked.value != "" && lastClicked.value != path
  }

  /** `selectedPaths.filter(p => p !== filePath)`: every occurrence goes. */
  function Deselect(selected: seq<string>, path: string): (r: seq<string>)
    ensures forall p :: p in r <==> p in selected && p != path
  {
    Filter(selected, Except(path))
  }

  /** The list `handleSelectItem` reports through `onChangeSelected`; when it reports nothing the
      selection stays as it was. */
  function NextSelection(selected: seq<string>, lastClicked: Option<string>, root: Option<FileNode>, click: Click): (r: seq<string>)
    ensures click.shift && HasAnchor(lastClicked, click.path) ==>
      match RangePaths(root, lastClicked.value, click.path)
      case None => r == selected
      case Some(range) => forall p :: p in r <==> p in selected || p in range
    ensures !(click.shift && HasAnchor(lastClicked, click.path)) ==>
      (click.path in r <==> click.path !in selected)
    ensures !(click.shift && HasAnchor(lastClicked, click.path)) && click.ctrl ==>
      forall p :: p != click.path ==> (p in r <==> p in selected)
    ensures !(click.shift && HasAnchor(lastClicked, click.path)) && click.ctrl ==>
      (click.path in selected ==> r == Deselect(selected, click.path)) && (click.path !in selected ==> r == selected + [click.path])
    ensures !(click.shift && HasAnchor(lastClicked, click.path)) && !click.ctrl ==>
      (click.path in selected ==> r == Deselect(selected, click.path)) && (click.path !in selected ==> r == [click.path])
  {
    if click.shift && HasAnchor(lastClicked, click.path) then
      match RangePaths(root, lastClicked.value, click.path)
      case None => selected
      case Some(range) => Dedup(selected + range)
    else if click.ctrl then
      if click.path in selected then Deselect(selected, click.path) else selected + [click.path]
    else
      if click.path in selected then Deselect(selected, click.path) else [click.path]
  }

  /** Shift-click keeps the old selection in front, in its order, and appends the new paths of the range
      in range order, each once. */
  lemma ShiftAppendsRange(selected: seq<string>, range: seq<string>)
    requires NoDup(selected)
    ensures Dedup(selected + range) == selected + Dedup(Filter(range, NotIn(selected)))
  {
    DedupAppend(selected, range, NotIn(selected));
    DedupOfNoDup(selected);
  }

  function NotIn(selected: seq<string>): string -> bool {
    (p: string) => p !in selected
  }

  /** Ctrl-clicking a path that was not selected and then clicking it again with ctrl restores the
      selection exactly. */
  lemma CtrlToggleTwice(selected: seq<string>, lastClicked: Option<string>, root: Option<FileNode>, path: string)
    requires path !in selected
    ensures var once := NextSelection(selected, lastClicked, root, Click(path, false, true));
      NextSelection(once, Some(path), root, Click(path, false, true)) == selected
  {
    FilterAppend(selected, [path], Except(path));
    FilterKeepsAll(selected, Except(path));
    assert Filter([path], Except(path)) == [];
  }

  /** No click makes a duplicate-free selection contain a path twice. */
  lemma SelectionStaysDuplicateFree(selected: seq<string>, lastClicked: Option<string>, root: Option<FileNode>, click: Click)
    requires NoDup(selected)
    ensures NoDup(NextSelection(selected, lastClicked, root, click))
  {
    if !(click.shift && HasAnchor(lastClicked, click.path)) && click.path in selected {
      FilterKeepsNoDup(selected, Except(click.path));
    }
  }

  /** The explorer's state. `selected` is the parent's `selectedPaths`, which it replaces with every list
      `onChangeSelected` reports. */
  class FileExplorer {
    var root: Option<FileNode>
    var lastClicked: Option<string>
    var selected: seq<string>

    constructor(selected: seq<string>)
      ensures root.None? && lastClicked.None? && this.selected == selected
    {
      root := None;
      lastClicked := None;
      this.selected := selected;
    }

    /** The `read-dir-structure` reply arrived. */
    method SetRoot(tree: FileNode)
      modifies this
      ensures root == Some(tree) && lastClicked == old(lastClicked) && selected == old(selected)
    {
      root := Some(tree);
    }

    /** `handleSelectItem(filePath, evt)`. */
    method HandleSelectItem(click: Click)
      modifies this
      ensures selected == NextSelection(old(selected), old(lastClicked), root, click)
      ensures lastClicked == Some(click.path) && root == old(root)
      ensures old(NoDup(selected)) ==> NoDup(selected)
    {
      if NoDup(selected) {
        SelectionStaysDuplicateFree(selected, lastClicked, root, click);
      }
      if click.shift && lastClicked.Some? && lastClicked.value != "" && lastClicked.value != click.path {
        var range := GetRangePaths(root, lastClicked.value, click.path);
        if range.Some? {
          selected := Dedup(selected + range.value);
        }
      } else if click.ctrl {
        if click.path in selected {
          selected := Deselect(selected, click.path);
        } else {
          selected := selected + [click.path];
        }
      } else {
        if click.path in selected {
          selected := Deselect(selected, click.path);
        } else {
          selected := [click.path];
        }
      }
      lastClicked := Some(click.path);
    }
  }
}
