/** The built-in clip actions of the main process (client/electron/main/clipActions.ts): `copy` gathers
    the project under the common root of the selected paths, `txtExtract` writes one line per path.
    The path separator `path.sep` and the working directory `process.cwd()` are parameters; reading the
    project and writing the clipboard are the effects the model returns instead of performing. */
module ClipActions {
  import opened Seqs
  import opened Text

  /** The longest common prefix of two component lists. */
  function CommonPrefix(a: seq<string>, b: seq<string>): (r: seq<string>)
    ensures r <= a && r <= b
    ensures |r| == |a| || |r| == |b| || a[|r|] != b[|r|]
  {
    if a == [] || b == [] || a[0] != b[0] then []
    else [a[0]] + CommonPrefix(a[1..], b[1..])
  }

  /** Every prefix the two lists share is a prefix of their common prefix. */
  lemma {:induction false} CommonPrefixGreatest(q: seq<string>, a: seq<string>, b: seq<string>)
    requires q <= a && q <= b
    ensures q <= CommonPrefix(a, b)
  {
    if q != [] {
      assert a[0] == q[0] == b[0];
      assert q[1..] <= a[1..] && q[1..] <= b[1..];
      CommonPrefixGreatest(q[1..], a[1..], b[1..]);
    }
  }

  /** A shared prefix that cannot be extended is the common prefix: what the inner loop stops at. */
  lemma CommonPrefixUnique(a: seq<string>, b: seq<string>, j: nat)
    requires j <= |a| && j <= |b| && a[..j] == b[..j]
    requires j == |a| || j == |b| || a[j] != b[j]
    ensures a[..j] == CommonPrefix(a, b)
  {
    CommonPrefixGreatest(a[..j], a, b);
  }

  /** The components the loop of `findCommonRoot` keeps after the paths it has seen: the first path's
      components, cut down to the common prefix with each later path's in turn. */
  function CommonParts(paths: seq<string>, sep: char): (r: seq<string>)
    requires |paths| >= 1
  {
    if |paths| == 1 then Split(paths[0], sep)
    else CommonPrefix(CommonParts(paths[..|paths| - 1], sep), Split(paths[|paths| - 1], sep))
  }

  /** The kept components are a prefix of the components of every path. */
  lemma {:induction false} CommonPartsIsPrefix(paths: seq<string>, sep: char, k: int)
    requires |paths| >= 1 && 0 <= k < |paths|
    ensures CommonParts(paths, sep) <= Split(paths[k], sep)
  {
    if |paths| > 1 {
      var init := paths[..|paths| - 1];
      if k < |paths| - 1 {
        CommonPartsIsPrefix(init, sep, k);
        assert init[k] == paths[k];
      }
    }
  }

  /** They are the longest such prefix: every list of components that starts every path starts them. */
  lemma {:induction false} CommonPartsLongest(paths: seq<string>, sep: char, q: seq<string>)
    requires |paths| >= 1
    requires forall k :: 0 <= k < |paths| ==> q <= Split(paths[k], sep)
    ensures q <= CommonParts(paths, sep)
  {
    if |paths| > 1 {
      var init := paths[..|paths| - 1];
      assert forall k :: 0 <= k < |init| ==> init[k] == paths[k];
      CommonPartsLongest(init, sep, q);
      CommonPrefixGreatest(q, CommonParts(init, sep), Split(paths[|paths| - 1], sep));
    }
  }

  /** What `findCommonRoot(paths)` returns: the kept components joined with the separator, or the
      working directory when there are no paths or the join is empty. */
  function CommonRoot(paths: seq<string>, sep: char, cwd: string): (r: string)
    ensures paths == [] ==> r == cwd
    ensures paths != [] ==> var joined := Join(CommonParts(paths, sep), [sep]);
      (joined == "" ==> r == cwd) && (joined != "" ==> r == joined)
  {
    if paths == [] then cwd
    else
      var joined := Join(CommonParts(paths, sep), [sep]);
      if joined == "" then cwd else joined
  }

  /** Joining the first `k` pieces gives a prefix of joining them all. */
  lemma {:induction false} JoinPrefix(parts: seq<string>, sep: string, k: nat)
    requires k <= |parts|
    ensures Join(parts[..k], sep) <= Join(parts, sep)
  {
    if k > 0 && |parts| > 1 {
      if k == 1 {
        assert parts[..1] == [parts[0]];
      } else {
        JoinPrefix(parts[1..], sep, k - 1);
        assert parts[..k][1..] == parts[1..][..k - 1];
        assert Join(parts[..k], sep) == parts[0] + sep + Join(parts[1..][..k - 1], sep);
      }
    }
  }

  /** Unless it falls back to the working directory, the common root is a leading part of every path. */
  lemma RootStartsEveryPath(paths: seq<string>, sep: char, cwd: string, k: int)
    requires 0 <= k < |paths|
    requires CommonRoot(paths, sep, cwd) != cwd
    ensures CommonRoot(paths, sep, cwd) <= paths[k]
  {
    var parts := Split(paths[k], sep);
    var common := CommonParts(paths, sep);
    CommonPartsIsPrefix(paths, sep, k);
    assert parts[..|common|] == common;
    JoinPrefix(parts, [sep], |common|);
    JoinSplit(paths[k], sep);
  }

  /** One path is its own root, unless it is empty. */
  lemma SinglePathIsRoot(p: string, sep: char, cwd: string)
    ensures CommonRoot([p], sep, cwd) == if p == "" then cwd else p
  {
    JoinSplit(p, sep);
  }

  /** Two absolute paths that part right below the root share only the empty first component, whose
      join is empty, so the working directory comes back. */
  lemma DisjointTopLevelFallsBack(cwd: string)
    ensures CommonRoot(["/a", "/b"], '/', cwd) == cwd
  {
    SplitSlashName('a');
    SplitSlashName('b');
    assert ["/a", "/b"][..1] == ["/a"];
    assert CommonPrefix(["", "a"], ["", "b"]) == [""] by {
      assert ["", "a"][1..] == ["a"] && ["", "b"][1..] == ["b"];
    }
  }

  lemma SplitSlashName(c: char)
    requires c != '/'
    ensures Split(['/', c], '/') == ["", [c]]
  {
    assert Split([], '/') == [""];
    assert [c][1..] == [];
    assert [c] + "" == [c];
    assert Split([c], '/') == [[c]];
    assert ['/', c][1..] == [c];
  }

  /** The inner `while` of `findCommonRoot`: counts the leading components the two lists share. */
  method SharedLength(parts: seq<string>, otherParts: seq<string>) returns (j: nat)
    ensures j <= |parts| && j <= |otherParts|
    ensures parts[..j] == CommonPrefix(parts, otherParts)
  {
    j := 0;
    while j < |parts| && j < |otherParts| && parts[j] == otherParts[j]
      invariant 0 <= j <= |parts| && j <= |otherParts|
      invariant parts[..j] == otherParts[..j]
    {
      j := j + 1;
    }
    CommonPrefixUnique(parts, otherParts, j);
  }

  /** One more path narrows the kept components to their common prefix with its own. */
  lemma CommonPartsStep(paths: seq<string>, sep: char, i: nat)
    requires 1 <= i < |paths|
    ensures CommonParts(paths[..i + 1], sep) == CommonPrefix(CommonParts(paths[..i], sep), Split(paths[i], sep))
  {
    var seen := paths[..i + 1];
    assert |seen| == i + 1 && |seen| != 1;
    assert seen[..i] == paths[..i];
    assert seen[i] == paths[i];
    assert CommonParts(seen, sep) == CommonPrefix(CommonParts(seen[..i], sep), Split(seen[i], sep));
  }

  /** `findCommonRoot(paths)`. */
  method FindCommonRoot(paths: seq<string>, sep: char, cwd: string) returns (root: string)
    ensures root == CommonRoot(paths, sep, cwd)
  {
    if |paths| == 0 {
      return cwd;
    }
    var parts := Split(paths[0], sep);
    assert paths[..1] == [paths[0]];
    var i := 1;
    while i < |paths|
      invariant 1 <= i <= |paths|
      invariant parts == CommonParts(paths[..i], sep)
    {
      var otherParts := Split(paths[i], sep);
      CommonPartsStep(paths, sep, i);
      var j := SharedLength(parts, otherParts);
      parts := parts[..j];
      i := i + 1;
    }
    assert paths[..i] == paths;
    var joined := Join(parts, [sep]);
    root := if joined == "" then cwd else joined;
  }

  /** The two actions `runClipAction` knows. */
  datatype ClipActionType = Copy | TxtExtract

  /** What a run of an action does to the outside world. */
  datatype Effect =
    | GatherProject(root: string)  // `clipboard.writeText(gatherProjectFilesForClipboard(root))`
    | WriteText(text: string)      // `clipboard.writeText(text)`

  const ExtractedSuffix := " (extracted)"

  /** A path as `txtExtract` writes it. */
  function Extracted(p: string): (r: string)
    ensures |r| == |p| + |ExtractedSuffix|
    ensures r[..|p|] == p && r[|p|..] == ExtractedSuffix
  {
    p + ExtractedSuffix
  }

  /** The `txtExtract` text: one suffixed line per path, in the given order. */
  function ExtractedText(paths: seq<string>): string {
    Join(Map(paths, Extracted), "\n")
  }

  /** When no path holds a line break, the lines of the text are the suffixed paths, so the paths can be
      read back from it; no paths give the empty text. */
  lemma ExtractedLines(paths: seq<string>)
    requires forall i :: 0 <= i < |paths| ==> '\n' !in paths[i]
    ensures paths == [] ==> ExtractedText(paths) == ""
    ensures paths != [] ==> Split(ExtractedText(paths), '\n') == Map(paths, Extracted)
  {
    if paths != [] {
      var lines := Map(paths, Extracted);
      forall i | 0 <= i < |lines| ensures '\n' !in lines[i] {
        ExtractedKeepsOneLine(paths[i]);
      }
      SplitJoin(lines, '\n');
    }
  }

  lemma ExtractedKeepsOneLine(p: string)
    requires '\n' !in p
    ensures '\n' !in Extracted(p)
  {
    assert '\n' !in ExtractedSuffix;
    assert Extracted(p) == p + ExtractedSuffix;
  }

  /** `runClipAction(actionType, filePaths)`: `copy` falls back to the working directory itself when no
      path is selected, which is what `findCommonRoot` would return anyway. */
  function RunClipAction(actionType: ClipActionType, filePaths: seq<string>, sep: char, cwd: string): (e: Effect)
    ensures actionType == Copy ==> e == GatherProject(CommonRoot(filePaths, sep, cwd))
    ensures actionType == TxtExtract ==> e == WriteText(ExtractedText(filePaths))
  {
    match actionType
    case Copy =>
      var maybeRoot := if |filePaths| > 0 then CommonRoot(filePaths, sep, cwd) else cwd;
      GatherProject(maybeRoot)
    case TxtExtract => WriteText(ExtractedText(filePaths))
  }
}
