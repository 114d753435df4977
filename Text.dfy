/** String operations the dashboard takes from JavaScript's built-ins:
    default sort order, `split`, `trim`, `toLowerCase`, `includes`, and the
    de-duplication done by `new Set(...)`. */
module Text {
  import opened Sorting

  // ---------------------------------------------------------------------
  // Character order (the comparison of Array.prototype.sort without a
  // comparator, for arrays of strings)
  // ---------------------------------------------------------------------

  /** `a` sorts before `b` or equals it: the first differing character is
      smaller (characters compare as Unicode code points), or `a` is a
      prefix of `b`. */
  predicate Below(a: string, b: string)
  {
    a == [] || (b != [] && (a[0] < b[0] || (a[0] == b[0] && Below(a[1..], b[1..]))))
  }

  lemma {:induction false} BelowReflexive(a: string)
    ensures Below(a, a)
  {
    if a != [] { BelowReflexive(a[1..]); }
  }

  lemma {:induction false} BelowTotal(a: string, b: string)
    ensures Below(a, b) || Below(b, a)
  {
    if a != [] && b != [] && a[0] == b[0] { BelowTotal(a[1..], b[1..]); }
  }

  lemma {:induction false} BelowTransitive(a: string, b: string, c: string)
    requires Below(a, b) && Below(b, c)
    ensures Below(a, c)
  {
    if a != [] && a[0] == b[0] && b[0] == c[0] { BelowTransitive(a[1..], b[1..], c[1..]); }
  }

  lemma {:induction false} BelowAntisymmetric(a: string, b: string)
    requires Below(a, b) && Below(b, a)
    ensures a == b
  {
    if a != [] {
      BelowAntisymmetric(a[1..], b[1..]);
      assert a == [a[0]] + a[1..] && b == [b[0]] + b[1..];
    }
  }

  /** Character order on strings is a total order. */
  lemma BelowIsTotalOrder()
    ensures TotalPreorder(Below)
    ensures Antisymmetric(Below)
    ensures forall a :: Below(a, a)
  {
    forall a, b ensures Below(a, b) || Below(b, a) { BelowTotal(a, b); }
    forall a, b, c | Below(a, b) && Below(b, c) ensures Below(a, c) { BelowTransitive(a, b, c); }
    forall a, b | Below(a, b) && Below(b, a) ensures a == b { BelowAntisymmetric(a, b); }
    forall a ensures Below(a, a) { BelowReflexive(a); }
  }

  /** Ascending, with no element twice. */
  predicate StrictlySorted(s: seq<string>)
  {
    forall i, j :: 0 <= i < j < |s| ==> Below(s[i], s[j]) && s[i] != s[j]
  }

  /** `arr.sort()` on an array of strings. */
  function SortStrings(s: seq<string>): (r: seq<string>)
    ensures SortedBy(r, Below)
    ensures multiset(r) == multiset(s)
  {
    BelowIsTotalOrder();
    SortBySorted(s, Below);
    SortBy(s, Below)
  }

  /** Sorting a sequence without repetitions gives the unique ascending
      sequence of its elements. */
  lemma SortDistinct(s: seq<string>)
    requires NoDuplicates(s)
    ensures StrictlySorted(SortStrings(s))
    ensures forall x :: x in SortStrings(s) <==> x in s
  {
    var r := SortStrings(s);
    forall x ensures x in r <==> x in s {
      assert x in r <==> x in multiset(r);
      assert x in s <==> x in multiset(s);
    }
    forall i, j | 0 <= i < j < |r| ensures r[i] != r[j] {
      if r[i] == r[j] {
        DuplicateCount(r, i, j);
        MultiplicityBound(s, r[i]);
      }
    }
  }

  lemma DuplicateCount<T>(r: seq<T>, i: int, j: int)
    requires 0 <= i < j < |r| && r[i] == r[j]
    ensures multiset(r)[r[i]] >= 2
  {
    assert r == r[..i] + [r[i]] + r[i + 1..j] + [r[j]] + r[j + 1..];
  }

  predicate NoDuplicates<T(==)>(s: seq<T>)
  {
    forall i, j :: 0 <= i < j < |s| ==> s[i] != s[j]
  }

  lemma {:induction false} MultiplicityBound<T>(s: seq<T>, x: T)
    requires NoDuplicates(s)
    ensures multiset(s)[x] <= 1
  {
    if s != [] {
      assert s == [s[0]] + s[1..];
      MultiplicityBound(s[1..], x);
      if s[0] == x { assert x !in s[1..]; }
    }
  }

  /** Two sequences with the same elements and no repetitions sort to the
      same result: a sorted id list depends on the set of ids only. */
  lemma SortDependsOnElementsOnly(s: seq<string>, t: seq<string>)
    requires NoDuplicates(s) && NoDuplicates(t)
    requires forall x :: x in s <==> x in t
    ensures SortStrings(s) == SortStrings(t)
  {
    SortDistinct(s);
    SortDistinct(t);
    var a, b := SortStrings(s), SortStrings(t);
    assert multiset(a) == multiset(b) by {
      forall x ensures multiset(a)[x] == multiset(b)[x] {
        MultiplicityBound(s, x);
        MultiplicityBound(t, x);
        assert x in s <==> x in multiset(s);
        assert x in t <==> x in multiset(t);
      }
    }
    BelowIsTotalOrder();
    SortedUnique(a, b, Below);
  }

  // ---------------------------------------------------------------------
  // new Set(xs): first occurrences, in order
  // ---------------------------------------------------------------------

  /** The elements of `s` in order of first occurrence, each once. */
  function Distinct(s: seq<string>): (r: seq<string>)
    ensures NoDuplicates(r)
    ensures forall x :: x in r <==> x in s
  {
    if s == [] then []
    else
      var init := Distinct(s[..|s| - 1]);
      assert s == s[..|s| - 1] + [s[|s| - 1]];
      if s[|s| - 1] in init then init else init + [s[|s| - 1]]
  }

  // ---------------------------------------------------------------------
  // String.prototype.split with a one-character separator
  // ---------------------------------------------------------------------

  /** The pieces between occurrences of `d`; always at least one piece. */
  function Split(s: string, d: char): (parts: seq<string>)
    ensures |parts| >= 1
    ensures forall i :: 0 <= i < |parts| ==> d !in parts[i]
  {
    if s == [] then [[]]
    else
      var rest := Split(s[1..], d);
      if s[0] == d then [[]] + rest else [[s[0]] + rest[0]] + rest[1..]
  }

  /** `parts.join(d)`. */
  function Join(parts: seq<string>, d: char): string
    requires |parts| >= 1
  {
    if |parts| == 1 then parts[0] else parts[0] + [d] + Join(parts[1..], d)
  }

  /** Splitting loses nothing: joining the pieces gives the string back. */
  lemma {:induction false} JoinSplit(s: string, d: char)
    ensures Join(Split(s, d), d) == s
  {
    if s != [] {
      var rest := Split(s[1..], d);
      JoinSplit(s[1..], d);
      if s[0] != d {
        if |rest| > 1 {
          assert Split(s, d)[1..] == rest[1..];
        }
      }
    }
  }

  /** Joining pieces free of `d` and splitting again gives the pieces back. */
  lemma {:induction false} SplitJoin(parts: seq<string>, d: char)
    requires |parts| >= 1
    requires forall i :: 0 <= i < |parts| ==> d !in parts[i]
    ensures Split(Join(parts, d), d) == parts
  {
    if |parts| == 1 {
      SplitPiece(parts[0], d);
    } else {
      SplitJoin(parts[1..], d);
      SplitPrefix(parts[0], Join(parts[1..], d), d);
      assert parts == [parts[0]] + parts[1..];
    }
  }

  lemma {:induction false} SplitPiece(p: string, d: char)
    requires d !in p
    ensures Split(p, d) == [p]
  {
    if p != [] {
      SplitPiece(p[1..], d);
      assert [p[0]] + p[1..] == p;
    }
  }

  lemma {:induction false} SplitPrefix(p: string, t: string, d: char)
    requires d !in p
    ensures Split(p + [d] + t, d) == [p] + Split(t, d)
  {
    if p == [] {
      assert p + [d] + t == [d] + t;
      assert ([d] + t)[1..] == t;
    } else {
      assert (p + [d] + t)[1..] == p[1..] + [d] + t;
      SplitPrefix(p[1..], t, d);
      assert [p[0]] + p[1..] == p;
    }
  }

  // ---------------------------------------------------------------------
  // String.prototype.trim, toLowerCase, includes
  // ---------------------------------------------------------------------

  /** ECMAScript WhiteSpace and LineTerminator code points (the characters
      `trim` strips): TAB, VT, FF, SP, NBSP, ZWNBSP, the other Zs
      separators, LF, CR, LS and PS. */
  predicate IsTrimmable(c: char)
  {
    || c == '\t' || c == '\U{000B}' || c == '\U{000C}' || c == ' '
    || c == '\U{00A0}' || c == '\U{FEFF}' || c == '\U{1680}'
    || ('\U{2000}' <= c <= '\U{200A}') || c == '\U{202F}' || c == '\U{205F}' || c == '\U{3000}'
    || c == '\n' || c == '\r' || c == '\U{2028}' || c == '\U{2029}'
  }

  function TrimStart(s: string): (r: string)
    ensures |r| <= |s| && r == s[|s| - |r|..]
    ensures r == [] || !IsTrimmable(r[0])
    ensures forall i :: 0 <= i < |s| - |r| ==> IsTrimmable(s[i])
  {
    if s != [] && IsTrimmable(s[0]) then TrimStart(s[1..]) else s
  }

  function TrimEnd(s: string): (r: string)
    ensures |r| <= |s| && r == s[..|r|]
    ensures r == [] || !IsTrimmable(r[|r| - 1])
    ensures forall i :: |r| <= i < |s| ==> IsTrimmable(s[i])
  {
    if s != [] && IsTrimmable(s[|s| - 1]) then TrimEnd(s[..|s| - 1]) else s
  }

  /** `needle` occurs in `hay` starting at index `i`. */
  predicate OccursAt(hay: string, needle: string, i: int)
  {
    0 <= i <= |hay| - |needle| && hay[i..i + |needle|] == needle
  }

  /** `s.trim()`: a contiguous piece of `s` with no trimmable character at
      either end, obtained by dropping only trimmable characters. */
  function Trim(s: string): (r: string)
    ensures r == [] || (!IsTrimmable(r[0]) && !IsTrimmable(r[|r| - 1]))
    ensures exists i :: OccursAt(s, r, i) && (forall k :: 0 <= k < i ==> IsTrimmable(s[k]))
                                          && (forall k :: i + |r| <= k < |s| ==> IsTrimmable(s[k]))
  {
    var t := TrimStart(s);
    var r := TrimEnd(t);
    TrimIsInfix(s, t, r);
    r
  }

  /** Trimming the start and then the end leaves a piece of `s` surrounded
      only by trimmable characters. */
  lemma TrimIsInfix(s: string, t: string, r: string)
    requires |t| <= |s| && t == s[|s| - |t|..]
    requires t == [] || !IsTrimmable(t[0])
    requires forall k :: 0 <= k < |s| - |t| ==> IsTrimmable(s[k])
    requires |r| <= |t| && r == t[..|r|]
    requires r == [] || !IsTrimmable(r[|r| - 1])
    requires forall j :: |r| <= j < |t| ==> IsTrimmable(t[j])
    ensures r == [] || (!IsTrimmable(r[0]) && !IsTrimmable(r[|r| - 1]))
    ensures var i := |s| - |t|;
            && OccursAt(s, r, i)
            && (forall k :: 0 <= k < i ==> IsTrimmable(s[k]))
            && (forall k :: i + |r| <= k < |s| ==> IsTrimmable(s[k]))
  {
    var i := |s| - |t|;
    PrefixOfSuffix(s, t, r);
    TrailingTrimmable(s, t, r);
    if r != [] {
      assert r[0] == t[0];
    }
  }

  /** A prefix `r` of the suffix `t` of `s` sits in `s` where `t` starts. */
  lemma PrefixOfSuffix(s: string, t: string, r: string)
    requires |t| <= |s| && t == s[|s| - |t|..]
    requires |r| <= |t| && r == t[..|r|]
    ensures OccursAt(s, r, |s| - |t|)
  {
    var i := |s| - |t|;
    assert s[i..i + |r|] == s[i..][..|r|];
  }

  /** What `TrimEnd` dropped from `t` is what follows `r` in `s`. */
  lemma TrailingTrimmable(s: string, t: string, r: string)
    requires |t| <= |s| && t == s[|s| - |t|..]
    requires |r| <= |t|
    requires forall j :: |r| <= j < |t| ==> IsTrimmable(t[j])
    ensures forall k :: |s| - |t| + |r| <= k < |s| ==> IsTrimmable(s[k])
  {
    var i := |s| - |t|;
    forall k | i + |r| <= k < |s| ensures IsTrimmable(s[k]) {
      assert s[k] == t[k - i];
    }
  }

  /** `toLowerCase` restricted to the ASCII letters. */
  function LowerChar(c: char): char
  {
    if 'A' <= c <= 'Z' then (c as int + 32) as char else c
  }

  function Lower(s: string): (r: string)
    ensures |r| == |s| && forall i :: 0 <= i < |s| ==> r[i] == LowerChar(s[i])
  {
    if s == [] then [] else [LowerChar(s[0])] + Lower(s[1..])
  }

  /** `hay.includes(needle)`. */
  function Contains(hay: string, needle: string): (b: bool)
    ensures b <==> exists i :: OccursAt(hay, needle, i)
  {
    if |needle| <= |hay| && hay[..|needle|] == needle then
      assert OccursAt(hay, needle, 0);
      true
    else if hay == [] then false
    else
      var b := Contains(hay[1..], needle);
      assert b ==> exists i :: OccursAt(hay, needle, i) by {
        if b {
          var i :| OccursAt(hay[1..], needle, i);
          assert hay[1..][i..i + |needle|] == hay[i + 1..i + 1 + |needle|];
          assert OccursAt(hay, needle, i + 1);
        }
      }
      assert (exists i :: OccursAt(hay, needle, i)) ==> b by {
        if i :| OccursAt(hay, needle, i) {
          assert i != 0;
          assert hay[1..][i - 1..i - 1 + |needle|] == hay[i..i + |needle|];
          assert OccursAt(hay[1..], needle, i - 1);
        }
      }
      b
  }

  /** `s.replace(from, to)` with a one-character pattern: only the first
      occurrence of `from` is replaced. */
  function ReplaceFirst(s: string, from: char, to: char): (r: string)
    ensures |r| == |s|
    ensures forall k :: 0 <= k < |s| ==> r[k] == if s[k] == from && from !in s[..k] then to else s[k]
  {
    if s == [] then []
    else if s[0] == from then
      FoundAtHead(s, from);
      [to] + s[1..]
    else
      PrefixesOfTail(s, from);
      [s[0]] + ReplaceFirst(s[1..], from, to)
  }

  /** After the replacement, `from` is left only where an earlier `from`
      was replaced or left. */
  lemma ReplaceFirstKeepsLater(s: string, from: char, to: char)
    requires from != to
    ensures var r := ReplaceFirst(s, from, to);
            forall k :: 0 <= k < |r| ==> r[k] != from || from in s[..k]
  {
  }

  /** Once `from` leads `s`, every longer prefix contains it. */
  lemma FoundAtHead(s: string, from: char)
    requires s != [] && s[0] == from
    ensures forall k :: 1 <= k < |s| ==> from in s[..k]
  {
    forall k | 1 <= k < |s| ensures from in s[..k] { assert s[..k][0] == from; }
  }

  /** When `s` does not start with `from`, a prefix of `s` contains `from`
      exactly when the matching prefix of its tail does. */
  lemma PrefixesOfTail(s: string, from: char)
    requires s != [] && s[0] != from
    ensures forall k :: 1 <= k < |s| ==> (from in s[..k] <==> from in s[1..][..k - 1])
  {
    forall k | 1 <= k < |s| ensures from in s[..k] <==> from in s[1..][..k - 1] {
      assert s[..k] == [s[0]] + s[1..][..k - 1];
    }
  }
}
