/** Array.prototype.filter on sequences, with what it keeps. */
module Seqs {

  /** The elements of `s` that `keep` accepts, in their order. */
  function Filter<T>(s: seq<T>, keep: T -> bool): (r: seq<T>)
    ensures |r| <= |s|
  {
    if s == [] then []
    else (if keep(s[0]) then [s[0]] else []) + Filter(s[1..], keep)
  }

  /** Filtering keeps each accepted element as often as it occurs and
      drops every other element. */
  lemma {:induction false} FilterCounts<T>(s: seq<T>, keep: T -> bool, x: T)
    ensures multiset(Filter(s, keep))[x] == if keep(x) then multiset(s)[x] else 0
  {
    if s != [] {
      var head := if keep(s[0]) then [s[0]] else [];
      FilterCounts(s[1..], keep, x);
      assert Filter(s, keep) == head + Filter(s[1..], keep);
      assert s == [s[0]] + s[1..];
      assert multiset(s) == multiset{s[0]} + multiset(s[1..]);
    }
  }

  /** Filtering keeps, for every value, each copy of an accepted value and
      none of a rejected one. */
  lemma FilterCountsAll<T>(s: seq<T>, keep: T -> bool)
    ensures forall x :: multiset(Filter(s, keep))[x] == if keep(x) then multiset(s)[x] else 0
  {
    forall x ensures multiset(Filter(s, keep))[x] == if keep(x) then multiset(s)[x] else 0 {
      FilterCounts(s, keep, x);
    }
  }

  /** Filtering a concatenation filters each part in turn: the kept
      elements stay in the order they had. */
  lemma {:induction false} FilterAppend<T>(a: seq<T>, b: seq<T>, keep: T -> bool)
    ensures Filter(a + b, keep) == Filter(a, keep) + Filter(b, keep)
  {
    if a == [] {
      assert a + b == b;
    } else {
      var head := if keep(a[0]) then [a[0]] else [];
      assert (a + b)[0] == a[0] && (a + b)[1..] == a[1..] + b;
      FilterAppend(a[1..], b, keep);
      assert Filter(a + b, keep) == head + Filter(a[1..] + b, keep);
    }
  }

  /** Filtering twice with the same test is filtering once. */
  lemma {:induction false} FilterTwice<T>(s: seq<T>, keep: T -> bool)
    ensures Filter(Filter(s, keep), keep) == Filter(s, keep)
  {
    if s != [] {
      var head := if keep(s[0]) then [s[0]] else [];
      FilterTwice(s[1..], keep);
      FilterAppend(head, Filter(s[1..], keep), keep);
      if keep(s[0]) {
        assert [s[0]][1..] == [];
      }
    }
  }

  /** Two adjacent slices of `s` make the slice that spans both. */
  lemma SliceJoin<T>(s: seq<T>, a: int, b: int)
    requires 0 <= a <= b <= |s|
    ensures s[..a] + s[a..b] == s[..b]
  {
  }

  /** `s.slice(lo, hi)` for `0 <= lo <= hi`: the elements from `lo` up to
      `hi`, cut at the end of `s`. */
  function Slice<T>(s: seq<T>, lo: int, hi: int): (r: seq<T>)
    requires 0 <= lo <= hi
    ensures |r| == if lo >= |s| then 0 else (if hi <= |s| then hi else |s|) - lo
    ensures forall i :: 0 <= i < |r| ==> r[i] == s[lo + i]
  {
    if lo >= |s| then [] else if hi > |s| then s[lo..] else s[lo..hi]
  }
}
