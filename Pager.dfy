/** The page buttons under the fleet table: page numbers with "…" standing
    for runs of hidden pages. */
module Pager {

  /** A button: a page number, or the ellipsis "…". */
  datatype PageItem = Page(n: int) | Gap

  /** Most pages listed without any ellipsis. */
  const ShowAllUpTo: int := 7

  /** Pages `lo` to `hi`, both included, in order (empty when `lo > hi`). */
  function Range(lo: int, hi: int): (r: seq<PageItem>)
    ensures |r| == if lo <= hi then hi - lo + 1 else 0
    ensures forall i :: 0 <= i < |r| ==> r[i] == Page(lo + i)
    decreases hi - lo
  {
    if lo > hi then [] else [Page(lo)] + Range(lo + 1, hi)
  }

  /** First page shown in the middle run: the one before the current page,
      but never page 1 (which is always shown). */
  function Left(current: int): int
  {
    if current - 1 > 2 then current - 1 else 2
  }

  /** Last page shown in the middle run: the one after the current page, but
      never the last page (which is always shown). */
  function Right(total: int, current: int): int
  {
    if current + 1 < total - 1 then current + 1 else total - 1
  }

  /** The buttons for `total` pages with page `current` open: every page
      when there are at most 7, otherwise page 1, the pages around the
      current one and the last page, with "…" where pages are skipped. */
  function PageItems(total: int, current: int): (r: seq<PageItem>)
    ensures total <= ShowAllUpTo ==>
      && |r| == (if total > 0 then total else 0)
      && forall i :: 0 <= i < |r| ==> r[i] == Page(i + 1)
    ensures total > ShowAllUpTo ==> |r| >= 3 && r[0] == Page(1) && r[|r| - 1] == Page(total)
    ensures 1 <= current <= total ==> |r| <= ShowAllUpTo
  {
    if total <= ShowAllUpTo then Range(1, total)
    else
      var left := Left(current);
      var right := Right(total, current);
      [Page(1)] + (if left > 2 then [Gap] else []) + Range(left, right)
        + (if right < total - 1 then [Gap] else []) + [Page(total)]
  }

  /** The builder as the component runs it: push 1, maybe "…", the run from
      `left` to `right`, maybe "…", then the last page. */
  method MakePageItems(total: int, current: int) returns (items: seq<PageItem>)
    ensures items == PageItems(total, current)
  {
    if total <= ShowAllUpTo {
      items := Range(1, total);
      return;
    }
    items := [Page(1)];
    var left := Left(current);
    var right := Right(total, current);
    if left > 2 {
      items := items + [Gap];
    }
    ghost var head := items;
    var p := left;
    while p <= right
      invariant left <= p <= (if left <= right then right + 1 else left)
      invariant items == head + Range(left, p - 1)
    {
      RangeSnoc(left, p);
      items := items + [Page(p)];
      p := p + 1;
    }
    assert items == head + Range(left, right);
    if right < total - 1 {
      items := items + [Gap];
    }
    items := items + [Page(total)];
  }

  /** A run grows by its next page at the end. */
  lemma RangeSnoc(lo: int, hi: int)
    requires lo <= hi
    ensures Range(lo, hi) == Range(lo, hi - 1) + [Page(hi)]
  {
    assert Range(lo, hi)[hi - lo] == Page(hi);
  }

  // ---------------------------------------------------------------------
  // What the buttons promise
  // ---------------------------------------------------------------------

  /** The numbered buttons go strictly up and stay within 1..total. */
  lemma PagesIncreasing(total: int, current: int)
    ensures var r := PageItems(total, current);
            && (forall i :: 0 <= i < |r| && r[i].Page? ==> 1 <= r[i].n <= total)
            && (forall i, j :: 0 <= i < j < |r| && r[i].Page? && r[j].Page? ==> r[i].n < r[j].n)
  {
    var r := PageItems(total, current);
    if total > ShowAllUpTo {
      forall i | 0 <= i < |r| && r[i].Page?
        ensures 1 <= r[i].n <= total
      {
        ItemAt(total, current, i);
      }
      forall i, j | 0 <= i < j < |r| && r[i].Page? && r[j].Page?
        ensures r[i].n < r[j].n
      {
        ItemAt(total, current, i);
        ItemAt(total, current, j);
      }
    }
  }

  /** Every page from `left` to `right` has a button; in particular the
      current page has one whenever it exists. */
  lemma NeighboursListed(total: int, current: int, p: int)
    requires total > ShowAllUpTo
    requires Left(current) <= p <= Right(total, current)
    ensures Page(p) in PageItems(total, current)
  {
    var left, right := Left(current), Right(total, current);
    var a := [Page(1)] + (if left > 2 then [Gap] else []);
    var m := Range(left, right);
    var z := (if right < total - 1 then [Gap] else []) + [Page(total)];
    assert PageItems(total, current) == a + m + z;
    assert m[p - left] == Page(p);
  }

  lemma CurrentListed(total: int, current: int)
    requires 1 <= current <= total
    ensures Page(current) in PageItems(total, current)
  {
    if total <= ShowAllUpTo {
      assert PageItems(total, current)[current - 1] == Page(current);
    } else if current == 1 || current == total {
      var r := PageItems(total, current);
      assert r[0] == Page(1) && r[|r| - 1] == Page(total);
    } else {
      NeighboursListed(total, current, current);
    }
  }

  /** How many buttons come before the middle run: page 1, and "…" if
      pages are skipped after it. */
  function Lead(current: int): nat
  {
    if Left(current) > 2 then 2 else 1
  }

  /** How many pages the middle run holds. */
  function RunLength(total: int, current: int): nat
  {
    if Left(current) <= Right(total, current) then Right(total, current) - Left(current) + 1 else 0
  }

  /** Button `i` of a long list, read off its layout. */
  lemma {:induction false} ItemAt(total: int, current: int, i: int)
    requires total > ShowAllUpTo
    requires 0 <= i < |PageItems(total, current)|
    ensures var r := PageItems(total, current);
            var lead, run := Lead(current), RunLength(total, current);
            && |r| == lead + run + (if Right(total, current) < total - 1 then 2 else 1)
            && r[i] == if i == 0 then Page(1)
                       else if i < lead then Gap
                       else if i < lead + run then Page(Left(current) + i - lead)
                       else if i < |r| - 1 then Gap
                       else Page(total)
  {
    var left, right := Left(current), Right(total, current);
    var a := [Page(1)] + (if left > 2 then [Gap] else []);
    var m := Range(left, right);
    var z := (if right < total - 1 then [Gap] else []) + [Page(total)];
    var r := a + m + z;
    assert PageItems(total, current) == r;
    if i < |a| {
      assert r[i] == a[i];
    } else if i < |a| + |m| {
      assert r[i] == m[i - |a|];
    } else {
      assert r[i] == z[i - |a| - |m|];
    }
  }

  /** A "…" follows page 1 exactly when pages 2 up to `left - 1` are
      skipped, and one precedes the last page exactly when pages after
      `right` are skipped. */
  lemma GapPlacement(total: int, current: int)
    requires total > ShowAllUpTo
    requires 1 <= current <= total
    ensures var r := PageItems(total, current);
            && |r| >= 3
            && (r[1] == Gap <==> Left(current) > 2)
            && (r[|r| - 2] == Gap <==> Right(total, current) < total - 1)
  {
    ItemAt(total, current, 0);
    var r := PageItems(total, current);
    ItemAt(total, current, 1);
    ItemAt(total, current, |r| - 2);
  }

  /** When the current page is off either end, only the first and the last
      page are listed, with one "…" between them. */
  lemma CurrentOutOfRange(total: int, current: int)
    requires total > ShowAllUpTo
    requires current < 1 || current > total
    ensures PageItems(total, current) == [Page(1), Gap, Page(total)]
  {
    assert Range(Left(current), Right(total, current)) == [];
  }

  /** Next to each other, two pages are consecutive. */
  lemma AdjacentPagesConsecutive(total: int, current: int)
    ensures var r := PageItems(total, current);
            forall i :: 0 <= i < |r| - 1 && r[i].Page? && r[i + 1].Page? ==> r[i + 1].n == r[i].n + 1
  {
    var r := PageItems(total, current);
    if total > ShowAllUpTo {
      forall i | 0 <= i < |r| - 1 && r[i].Page? && r[i + 1].Page?
        ensures r[i + 1].n == r[i].n + 1
      {
        ItemAt(total, current, i);
        ItemAt(total, current, i + 1);
      }
    }
  }

  /** No "…" comes first, last or next to another "…", and a "…" always
      hides at least one page. */
  lemma GapsWellPlaced(total: int, current: int)
    ensures var r := PageItems(total, current);
            && (r != [] ==> r[0] != Gap && r[|r| - 1] != Gap)
            && (forall i :: 0 < i < |r| - 1 && r[i] == Gap ==>
                  r[i - 1].Page? && r[i + 1].Page? && r[i + 1].n >= r[i - 1].n + 2)
  {
    var r := PageItems(total, current);
    if total > ShowAllUpTo {
      ItemAt(total, current, 0);
      ItemAt(total, current, |r| - 1);
      forall i | 0 < i < |r| - 1 && r[i] == Gap
        ensures r[i - 1].Page? && r[i + 1].Page? && r[i + 1].n >= r[i - 1].n + 2
      {
        ItemAt(total, current, i - 1);
        ItemAt(total, current, i);
        ItemAt(total, current, i + 1);
      }
    }
  }
}
