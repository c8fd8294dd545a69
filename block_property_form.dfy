/** The block property form (client/src/components/BlockPropertyForm.tsx): a local copy of a block's
    type and properties that every edit updates and reports through `onChange`, and the comma-separated
    text field in which a `selected_path` block's `paths` are edited. */
module BlockPropertyForm {
  import opened Base
  import opened Json
  import opened Seqs
  import opened Text
  import opened BlockStore

  /** The form's local state: `localType` and `localProps`. Each handler reports the new state through
      `onChange`, so the reported pair is the new state itself. */
  datatype Form = Form(blockType: string, props: Props)

  /** `{ ...localProps, [key]: value }`. */
  function UpdateProp(props: Props, key: string, value: Value): (r: Props)
    ensures r.Keys == props.Keys + {key}
    ensures r[key] == value
    ensures forall k :: k in props && k != key ==> r[k] == props[k]
  {
    props[key := value]
  }

  /** `updateProp`: the type stays, one property changes. */
  function SetProp(f: Form, key: string, value: Value): (r: Form)
    ensures r.blockType == f.blockType && r.props == UpdateProp(f.props, key, value)
  {
    Form(f.blockType, UpdateProp(f.props, key, value))
  }

  /** `handleTypeChange`: the properties stay, the type changes. */
  function ChangeType(f: Form, newType: string): (r: Form)
    ensures r.props == f.props && r.blockType == newType
  {
    Form(newType, f.props)
  }

  /** The form never drops a property, so what it reports survives the store's merge unchanged:
      `{ ...prev.properties, ...reported }` is the reported object whenever it started from `prev`. */
  lemma ReportedPropsStoredAsIs(prev: Props, key: string, value: Value)
    ensures MergeProps(prev, Some(UpdateProp(prev, key, value))) == UpdateProp(prev, key, value)
  {
  }

  function IsNonEmpty(s: string): bool {
    s != ""
  }

  /** `text.split(",").map(s => s.trim()).filter(s => s)`. */
  function ParsePaths(text: string): (r: seq<string>)
    ensures forall p :: p in r ==> p != "" && IsTrimmed(p)
  {
    var pieces := Map(Split(text, ','), Trim);
    assert forall p :: p in pieces ==> IsTrimmed(p) by {
      forall p | p in pieces ensures IsTrimmed(p) {
        var i :| 0 <= i < |pieces| && pieces[i] == p;
      }
    }
    Filter(pieces, IsNonEmpty)
  }

  /** How `join` shows one element of `paths`: a string as itself; anything else is shown empty. */
  function ItemText(v: Value): string {
    match v
    case Str(s) => s
    case _ => ""
  }

  /** The text field's value: the `paths` array joined with `", "`, or `""` when `paths` is not an array. */
  function PathsText(paths: Option<Value>): (r: string)
    ensures paths.None? || !paths.value.Arr? ==> r == ""
  {
    match paths
    case Some(Arr(items)) => Join(Map(items, ItemText), ", ")
    case _ => ""
  }

  function StrValue(s: string): Value {
    Str(s)
  }

  /** Typing into the paths field stores the parsed list under `paths`. */
  function EditPaths(f: Form, text: string): (r: Form)
    ensures r.blockType == f.blockType
    ensures "paths" in r.props && r.props["paths"] == Arr(Map(ParsePaths(text), StrValue))
  {
    SetProp(f, "paths", Arr(Map(ParsePaths(text), StrValue)))
  }

  /** Paths free of commas stay free of them behind a space. */
  lemma PaddedCommaFree(paths: seq<string>)
    requires |paths| >= 1
    requires forall i :: 0 <= i < |paths| ==> ',' !in paths[i]
    ensures forall i :: 0 <= i < |paths| ==> ',' !in ([paths[0]] + PadAll(paths[1..], " "))[i]
  {
    var padded := [paths[0]] + PadAll(paths[1..], " ");
    forall i | 0 <= i < |paths| ensures ',' !in padded[i] {
      if i > 0 {
        assert padded[i] == " " + paths[i];
      }
    }
  }

  /** The pieces `split(",")` finds in paths joined with `", "`: the first path, then each later one
      behind a space. */
  lemma ShownPieces(paths: seq<string>)
    requires |paths| >= 1
    requires forall i :: 0 <= i < |paths| ==> ',' !in paths[i]
    ensures Split(Join(paths, ", "), ',') == [paths[0]] + PadAll(paths[1..], " ")
  {
    JoinPadded(paths, ',', " ");
    assert [','] + " " == ", ";
    PaddedCommaFree(paths);
    SplitJoin([paths[0]] + PadAll(paths[1..], " "), ',');
  }

  /** Trimming the i-th piece gives the i-th path back. */
  lemma TrimShownPiece(paths: seq<string>, i: nat)
    requires i < |paths| && IsTrimmed(paths[i])
    ensures Trim(([paths[0]] + PadAll(paths[1..], " "))[i]) == paths[i]
  {
    if i == 0 {
      TrimOfTrimmed(paths[0]);
    } else {
      assert ([paths[0]] + PadAll(paths[1..], " "))[i] == " " + paths[i];
      TrimLeadingSpace(paths[i]);
    }
  }

  /** Trimming those pieces gives the paths back. */
  lemma TrimShownPieces(paths: seq<string>)
    requires |paths| >= 1
    requires forall i :: 0 <= i < |paths| ==> IsTrimmed(paths[i])
    ensures Map([paths[0]] + PadAll(paths[1..], " "), Trim) == paths
  {
    var padded := [paths[0]] + PadAll(paths[1..], " ");
    forall i | 0 <= i < |paths| ensures Trim(padded[i]) == paths[i] {
      TrimShownPiece(paths, i);
    }
  }

  /** A `paths` array of strings is shown as the strings joined with `", "`. */
  lemma ShownText(paths: seq<string>)
    ensures PathsText(Some(Arr(Map(paths, StrValue)))) == Join(paths, ", ")
  {
    assert Map(Map(paths, StrValue), ItemText) == paths;
  }

  /** Text whose trimmed pieces are all non-empty parses to exactly those pieces. */
  lemma ParseNonEmptyPieces(text: string, pieces: seq<string>)
    requires Map(Split(text, ','), Trim) == pieces
    requires forall i :: 0 <= i < |pieces| ==> pieces[i] != ""
    ensures ParsePaths(text) == pieces
  {
    FilterKeepsAll(pieces, IsNonEmpty);
  }

  /** The empty field parses to the empty list. */
  lemma ParseEmptyText()
    ensures ParsePaths("") == []
  {
    assert Split("", ',') == [""];
    assert Map([""], Trim) == [""];
  }

  /** A non-empty list of showable paths survives being shown and parsed. */
  lemma ParseShownNonEmptyPaths(paths: seq<string>)
    requires |paths| >= 1
    requires forall i :: 0 <= i < |paths| ==> paths[i] != "" && IsTrimmed(paths[i]) && ',' !in paths[i]
    ensures ParsePaths(Join(paths, ", ")) == paths
  {
    ShownPieces(paths);
    TrimShownPieces(paths);
    ParseNonEmptyPieces(Join(paths, ", "), paths);
  }

  /** Showing a list of non-empty, trimmed, comma-free paths and parsing the text back gives the same
      list: the field is a faithful editor for such lists. */
  lemma ParseShownPaths(paths: seq<string>)
    requires forall i :: 0 <= i < |paths| ==> paths[i] != "" && IsTrimmed(paths[i]) && ',' !in paths[i]
    ensures ParsePaths(PathsText(Some(Arr(Map(paths, StrValue))))) == paths
  {
    ShownText(paths);
    if paths == [] {
      ParseEmptyText();
    } else {
      ParseShownNonEmptyPaths(paths);
    }
  }
}
