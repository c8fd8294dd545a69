/** The array idioms the source uses everywhere (`filter`, `find`, `indexOf`, `new Set(...)`),
    as functions on sequences, with the facts the rest of the model relies on. */
module Seqs {
  import opened Base

  /** No element occurs twice. */
  predicate NoDup<T(==)>(s: seq<T>) {
    forall i, j :: 0 <= i < j < |s| ==> s[i] != s[j]
  }

  /** Everything but `x`, the test of `s.filter(y => y !== x)`. */
  function Except<T(==)>(x: T): T -> bool {
    (y: T) => y != x
  }

  /** `s.filter(keep)`: the elements that satisfy `keep`, in their original order. */
  function Filter<T(!new)>(s: seq<T>, keep: T -> bool): (r: seq<T>)
    ensures |r| <= |s|
    ensures forall x :: x in r <==> x in s && keep(x)
  {
    if s == [] then []
    else (if keep(s[0]) then [s[0]] else []) + Filter(s[1..], keep)
  }

  /** Filtering a concatenation filters each part: the order of the kept elements is the input order. */
  lemma {:induction false} FilterAppend<T(!new)>(a: seq<T>, b: seq<T>, keep: T -> bool)
    ensures Filter(a + b, keep) == Filter(a, keep) + Filter(b, keep)
  {
    if a == [] {
      assert a + b == b;
    } else {
      assert (a + b)[0] == a[0];
      assert (a + b)[1..] == a[1..] + b;
      FilterAppend(a[1..], b, keep);
    }
  }

  /** A filter that keeps everything is the identity. */
  lemma {:induction false} FilterKeepsAll<T(!new)>(s: seq<T>, keep: T -> bool)
    requires forall i :: 0 <= i < |s| ==> keep(s[i])
    ensures Filter(s, keep) == s
  {
    if s != [] {
      FilterKeepsAll(s[1..], keep);
    }
  }

  /** Two filters that agree on every element of `s` select the same subsequence. */
  lemma {:induction false} FilterCongruent<T(!new)>(s: seq<T>, p: T -> bool, q: T -> bool)
    requires forall i :: 0 <= i < |s| ==> p(s[i]) == q(s[i])
    ensures Filter(s, p) == Filter(s, q)
  {
    if s != [] {
      FilterCongruent(s[1..], p, q);
    }
  }

  /** `s.map(f)`. */
  function Map<T, U>(s: seq<T>, f: T -> U): (r: seq<U>)
    ensures |r| == |s| && forall i :: 0 <= i < |s| ==> r[i] == f(s[i])
  {
    if s == [] then [] else [f(s[0])] + Map(s[1..], f)
  }

  /** Mapping after filtering is filtering after mapping, when the two filters agree through `f`. */
  lemma {:induction false} MapFilter<T(!new), U(!new)>(s: seq<T>, keep: T -> bool, f: T -> U, keepImage: U -> bool)
    requires forall i :: 0 <= i < |s| ==> keep(s[i]) == keepImage(f(s[i]))
    ensures Map(Filter(s, keep), f) == Filter(Map(s, f), keepImage)
  {
    if s != [] {
      MapFilter(s[1..], keep, f, keepImage);
      var head := if keep(s[0]) then [s[0]] else [];
      assert Filter(s, keep) == head + Filter(s[1..], keep);
      assert Map(head + Filter(s[1..], keep), f) == Map(head, f) + Map(Filter(s[1..], keep), f);
      assert Map(s, f)[1..] == Map(s[1..], f);
    }
  }

  /** `rel` holds between every element and every later one. */
  predicate Pairwise<T>(s: seq<T>, rel: (T, T) -> bool) {
    forall i, j :: 0 <= i < j < |s| ==> rel(s[i], s[j])
  }

  /** Any relation that holds between every earlier and later element of `s` still holds after filtering,
      because filtering keeps the relative order (this gives "no duplicates" and "sorted" at once). */
  lemma {:induction false} FilterKeepsPairwise<T(!new)>(s: seq<T>, keep: T -> bool, rel: (T, T) -> bool)
    requires Pairwise(s, rel)
    ensures Pairwise(Filter(s, keep), rel)
  {
    if s != [] {
      var tail := Filter(s[1..], keep);
      assert Pairwise(s[1..], rel) by {
        forall i, j | 0 <= i < j < |s[1..]| ensures rel(s[1..][i], s[1..][j]) {
          assert s[1..][i] == s[i + 1] && s[1..][j] == s[j + 1];
        }
      }
      FilterKeepsPairwise(s[1..], keep, rel);
      if keep(s[0]) {
        var r := [s[0]] + tail;
        assert Filter(s, keep) == r;
        forall i, j | 0 <= i < j < |r|
          ensures rel(r[i], r[j])
        {
          assert r[j] == tail[j - 1];
          if i == 0 {
            assert r[j] in s[1..];
            var k :| 0 <= k < |s[1..]| && s[1..][k] == r[j];
            assert s[k + 1] == r[j];
          } else {
            assert r[i] == tail[i - 1];
          }
        }
      } else {
        assert Filter(s, keep) == tail;
      }
    }
  }

  /** Filtering a sequence that starts with `x` decides `x` first. */
  lemma FilterCons<T(!new)>(x: T, rest: seq<T>, keep: T -> bool)
    ensures Filter([x] + rest, keep) == (if keep(x) then [x] else []) + Filter(rest, keep)
  {
    assert ([x] + rest)[0] == x && ([x] + rest)[1..] == rest;
  }

  /** The multiset of `s` splits exactly between the elements `keep` accepts and those `drop`
      (its negation) accepts. */
  lemma {:induction false} FilterPartition<T(!new)>(s: seq<T>, keep: T -> bool, drop: T -> bool)
    requires forall x :: drop(x) <==> !keep(x)
    ensures multiset(Filter(s, keep)) + multiset(Filter(s, drop)) == multiset(s)
  {
    if s != [] {
      var x, rest := s[0], s[1..];
      assert s == [x] + rest;
      FilterPartition(rest, keep, drop);
      FilterCons(x, rest, keep);
      FilterCons(x, rest, drop);
      var headKept: seq<T> := if keep(x) then [x] else [];
      var headDropped: seq<T> := if drop(x) then [x] else [];
      assert multiset(headKept) + multiset(headDropped) == multiset([x]);
    }
  }

  /** Filtering keeps a sequence free of duplicates. */
  lemma FilterKeepsNoDup<T(!new)>(s: seq<T>, keep: T -> bool)
    requires NoDup(s)
    ensures NoDup(Filter(s, keep))
  {
    var neq := (x: T, y: T) => x != y;
    assert Pairwise(s, neq);
    FilterKeepsPairwise(s, keep, neq);
  }

  /** `s.findIndex(p)`: the index of the first element satisfying `p`, or -1. */
  function FindIndex<T>(s: seq<T>, p: T -> bool): (i: int)
    ensures -1 <= i < |s|
    ensures i >= 0 ==> p(s[i])
    ensures forall j :: 0 <= j < |s| && (i < 0 || j < i) ==> !p(s[j])
  {
    if s == [] then -1
    else if p(s[0]) then 0
    else
      var k := FindIndex(s[1..], p);
      if k < 0 then -1 else k + 1
  }

  /** `s.find(p)`: the first element satisfying `p`, or `undefined`. */
  function Find<T>(s: seq<T>, p: T -> bool): (r: Option<T>)
    ensures r.None? <==> forall i :: 0 <= i < |s| ==> !p(s[i])
    ensures r.Some? ==> r.value in s && p(r.value)
    ensures r.Some? ==> 0 <= FindIndex(s, p) && r.value == s[FindIndex(s, p)]
  {
    var i := FindIndex(s, p);
    if i < 0 then None else Some(s[i])
  }

  /** `s.indexOf(x)`: the index of the first occurrence of `x`, or -1. */
  function IndexOf<T(==)>(s: seq<T>, x: T): (i: int)
    ensures -1 <= i < |s|
    ensures i < 0 <==> x !in s
    ensures i >= 0 ==> s[i] == x && x !in s[..i]
  {
    FindIndex(s, y => y == x)
  }

  /** `Array.from(new Set(s))`: every element once, at the position of its first occurrence. */
  function Dedup<T(==,!new)>(s: seq<T>): (r: seq<T>)
    ensures NoDup(r)
    ensures forall x :: x in r <==> x in s
  {
    if s == [] then []
    else
      var d := Dedup(s[..|s| - 1]);
      var last := s[|s| - 1];
      assert s == s[..|s| - 1] + [last];
      if last in d then d else d + [last]
  }

  /** A sequence without duplicates is its own deduplication. */
  lemma {:induction false} DedupOfNoDup<T(!new)>(s: seq<T>)
    requires NoDup(s)
    ensures Dedup(s) == s
  {
    if s != [] {
      var init := s[..|s| - 1];
      assert NoDup(init);
      DedupOfNoDup(init);
      assert s[|s| - 1] !in init;
    }
  }

  lemma AppendAssoc<T>(x: seq<T>, y: seq<T>, z: seq<T>)
    ensures (x + y) + z == x + (y + z)
  {
  }

  /** Appending one element to a sequence appends it to the deduplication unless it was already there. */
  lemma DedupSnoc<T(!new)>(s: seq<T>, x: T)
    ensures Dedup(s + [x]) == if x in s then Dedup(s) else Dedup(s) + [x]
  {
    assert (s + [x])[..|s + [x]| - 1] == s;
  }

  /** Deduplicating `a + b` keeps `Dedup(a)` in front and then the first occurrences of the elements
      of `b` that are not in `a` (`isNew` is membership outside `a`). */
  lemma {:induction false} DedupAppend<T(!new)>(a: seq<T>, b: seq<T>, isNew: T -> bool)
    requires forall x :: isNew(x) <==> x !in a
    ensures Dedup(a + b) == Dedup(a) + Dedup(Filter(b, isNew))
  {
    if b == [] {
      assert a + b == a;
      assert Dedup(Filter(b, isNew)) == [];
      assert Dedup(a) + [] == Dedup(a);
      assert Dedup(a + b) == Dedup(a) + Dedup(Filter(b, isNew));
    } else {
      var init := b[..|b| - 1];
      var last := b[|b| - 1];
      assert b == init + [last];
      assert a + b == (a + init) + [last];
      DedupAppend(a, init, isNew);
      FilterAppend(init, [last], isNew);
      var tail := Filter(init, isNew);
      DedupSnoc(a + init, last);
      if last in a {
        assert Filter(b, isNew) == tail;
        assert last in a + init;
        assert Dedup(a + b) == Dedup(a) + Dedup(Filter(b, isNew));
      } else {
        assert Filter([last], isNew) == [last];
        assert Filter(b, isNew) == tail + [last];
        DedupSnoc(tail, last);
        assert last in a + init <==> last in tail;
        if last in tail {
          assert Dedup(a + b) == Dedup(a) + Dedup(tail);
          assert Dedup(a + b) == Dedup(a) + Dedup(Filter(b, isNew));
        } else {
          var da, dt := Dedup(a), Dedup(tail);
          assert Dedup(a + b) == (da + dt) + [last];
          assert Dedup(Filter(b, isNew)) == dt + [last];
          AppendAssoc(da, dt, [last]);
        }
      }
    }
  }
}
