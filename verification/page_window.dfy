/**
 `getPageNumbers`: the labels of the pager. Up to five pages are all listed;
 beyond that the first and last pages frame a run of three around the current
 page, with an ellipsis wherever pages are skipped.
 */
module PageWindow {
  import opened Seqs

  datatype PageLabel = Page(n: int) | EllipsisStart | EllipsisEnd

  const MaxPagesToShow := 5

  /** `Page(lo), Page(lo + 1), ..., Page(hi)`; empty when `lo > hi`. */
  function Numbers(lo: int, hi: int): (r: seq<PageLabel>)
    ensures |r| == if lo <= hi then hi - lo + 1 else 0
    ensures forall i :: 0 <= i < |r| ==> r[i] == Page(lo + i)
    decreases hi - lo
  {
    if lo > hi then [] else [Page(lo)] + Numbers(lo + 1, hi)
  }

  /** `startPage` and `endPage` of the middle run, after the adjustment at either end. */
  function Middle(currentPage: int, totalPages: int): (int, int)
  {
    var startPage := Max(2, currentPage - 1);
    var endPage := Min(totalPages - 1, currentPage + 1);
    if currentPage <= 2 then (startPage, 4)
    else if currentPage >= totalPages - 1 then (totalPages - 3, endPage)
    else (startPage, endPage)
  }

  function PageNumbers(currentPage: int, totalPages: nat): seq<PageLabel>
  {
    if totalPages <= MaxPagesToShow then Numbers(1, totalPages)
    else
      var (startPage, endPage) := Middle(currentPage, totalPages);
      [Page(1)]
      + (if startPage > 2 then [EllipsisStart] else [])
      + Numbers(startPage, endPage)
      + (if endPage < totalPages - 1 then [EllipsisEnd] else [])
      + [Page(totalPages)]
  }

  /** The page numbers among the labels, in order. */
  function PagesIn(r: seq<PageLabel>): (ps: seq<int>)
  {
    if |r| == 0 then []
    else (if r[0].Page? then [r[0].n] else []) + PagesIn(r[1..])
  }

  /** Numeric labels lie in `1..totalPages` and strictly increase. */
  predicate InRangeIncreasing(r: seq<PageLabel>, totalPages: int)
  {
    && (forall i :: 0 <= i < |r| && r[i].Page? ==> 1 <= r[i].n <= totalPages)
    && (forall i, j :: 0 <= i < j < |r| && r[i].Page? && r[j].Page? ==> r[i].n < r[j].n)
  }

  /**
   Ellipses stand exactly for skipped pages: two neighbouring numbers are
   consecutive, and every ellipsis sits between two numbers with a gap.
   */
  predicate GapsMarked(r: seq<PageLabel>)
  {
    && (forall i :: 0 <= i < |r| - 1 && r[i].Page? && r[i + 1].Page? ==> r[i + 1].n == r[i].n + 1)
    && (forall i :: 0 <= i < |r| && !r[i].Page? ==>
          0 < i < |r| - 1 && r[i - 1].Page? && r[i + 1].Page? && r[i + 1].n > r[i - 1].n + 1)
  }

  /** With more than five pages the middle run is three pages strictly between the first and the last. */
  lemma MiddleBounds(currentPage: int, totalPages: int)
    requires totalPages > MaxPagesToShow
    ensures 2 <= Middle(currentPage, totalPages).0
    ensures Middle(currentPage, totalPages).1 == Middle(currentPage, totalPages).0 + 2
    ensures Middle(currentPage, totalPages).1 <= totalPages - 1
  {
  }

  /** The long-form window spelled out from its middle run `s..s + 2`. */
  function LongWindow(s: int, totalPages: int): seq<PageLabel>
  {
    [Page(1)]
    + (if s > 2 then [EllipsisStart] else [])
    + [Page(s), Page(s + 1), Page(s + 2)]
    + (if s + 2 < totalPages - 1 then [EllipsisEnd] else [])
    + [Page(totalPages)]
  }

  lemma LongForm(currentPage: int, totalPages: nat)
    requires totalPages > MaxPagesToShow
    ensures PageNumbers(currentPage, totalPages) == LongWindow(Middle(currentPage, totalPages).0, totalPages)
  {
    MiddleBounds(currentPage, totalPages);
    var (s, e) := Middle(currentPage, totalPages);
    assert Numbers(s, e) == [Page(s), Page(s + 1), Page(s + 2)];
  }

  lemma LongWindowShape(s: int, totalPages: int)
    requires 2 <= s && s + 2 <= totalPages - 1 && totalPages > MaxPagesToShow
    ensures InRangeIncreasing(LongWindow(s, totalPages), totalPages)
    ensures GapsMarked(LongWindow(s, totalPages))
  {
    var r := LongWindow(s, totalPages);
    if s > 2 && s + 2 < totalPages - 1 {
      assert r == [Page(1), EllipsisStart, Page(s), Page(s + 1), Page(s + 2), EllipsisEnd, Page(totalPages)];
      BothEllipses(s, totalPages);
    } else if s > 2 {
      assert r == [Page(1), EllipsisStart, Page(s), Page(s + 1), Page(s + 2), Page(totalPages)];
      LeadingEllipsis(s, totalPages);
    } else {
      assert r == [Page(1), Page(s), Page(s + 1), Page(s + 2), EllipsisEnd, Page(totalPages)];
      TrailingEllipsis(s, totalPages);
    }
  }

  lemma BothEllipses(s: int, t: int)
    requires 2 < s && s + 2 < t - 1
    ensures var r := [Page(1), EllipsisStart, Page(s), Page(s + 1), Page(s + 2), EllipsisEnd, Page(t)];
      InRangeIncreasing(r, t) && GapsMarked(r)
  {
  }

  lemma LeadingEllipsis(s: int, t: int)
    requires 2 < s && s + 2 == t - 1
    ensures var r := [Page(1), EllipsisStart, Page(s), Page(s + 1), Page(s + 2), Page(t)];
      InRangeIncreasing(r, t) && GapsMarked(r)
  {
  }

  lemma TrailingEllipsis(s: int, t: int)
    requires s == 2 && s + 2 < t - 1
    ensures var r := [Page(1), Page(s), Page(s + 1), Page(s + 2), EllipsisEnd, Page(t)];
      InRangeIncreasing(r, t) && GapsMarked(r)
  {
  }

  lemma LongWindowPages(s: int, totalPages: int)
    ensures PagesIn(LongWindow(s, totalPages)) == [1, s, s + 1, s + 2, totalPages]
  {
    var left: seq<PageLabel> := if s > 2 then [EllipsisStart] else [];
    var right: seq<PageLabel> := if s + 2 < totalPages - 1 then [EllipsisEnd] else [];
    var mid := [Page(s), Page(s + 1), Page(s + 2)];
    PagesInFive([Page(1)], left, mid, right, [Page(totalPages)]);
    PagesInSingle(Page(1));
    PagesInSingle(Page(totalPages));
    if s > 2 {
      PagesInSingle(EllipsisStart);
    }
    if s + 2 < totalPages - 1 {
      PagesInSingle(EllipsisEnd);
    }
    PagesInRun(s);
  }

  /** The numbers of one label. */
  lemma PagesInSingle(l: PageLabel)
    ensures PagesIn([l]) == if l.Page? then [l.n] else []
  {
    assert [l][1..] == [];
  }

  /** The numbers of a run of three pages. */
  lemma PagesInRun(s: int)
    ensures PagesIn([Page(s), Page(s + 1), Page(s + 2)]) == [s, s + 1, s + 2]
  {
    var m1: seq<PageLabel> := [Page(s + 1), Page(s + 2)];
    var m2: seq<PageLabel> := [Page(s + 2)];
    assert [Page(s), Page(s + 1), Page(s + 2)][1..] == m1 && m1[1..] == m2;
    PagesInSingle(Page(s + 2));
  }

  lemma PagesInFive(a: seq<PageLabel>, b: seq<PageLabel>, c: seq<PageLabel>, d: seq<PageLabel>, e: seq<PageLabel>)
    ensures PagesIn(a + b + c + d + e) == PagesIn(a) + PagesIn(b) + PagesIn(c) + PagesIn(d) + PagesIn(e)
  {
    PagesInConcat(a, b);
    PagesInConcat(a + b, c);
    PagesInConcat(a + b + c, d);
    PagesInConcat(a + b + c + d, e);
  }

  lemma {:induction false} PagesInConcat(a: seq<PageLabel>, b: seq<PageLabel>)
    ensures PagesIn(a + b) == PagesIn(a) + PagesIn(b)
  {
    if |a| > 0 {
      assert (a + b)[1..] == a[1..] + b;
      PagesInConcat(a[1..], b);
    } else {
      assert a + b == b;
    }
  }

  lemma {:induction false} NumbersPages(lo: int, hi: int)
    ensures PagesIn(Numbers(lo, hi)) == if lo <= hi then [lo] + PagesIn(Numbers(lo + 1, hi)) else []
  {
    if lo <= hi {
      assert Numbers(lo, hi)[1..] == Numbers(lo + 1, hi);
    }
  }

  /** With at most five pages, every page is listed and nothing else. */
  lemma ShortWindow(currentPage: int, totalPages: nat)
    requires totalPages <= MaxPagesToShow
    ensures |PageNumbers(currentPage, totalPages)| == totalPages
    ensures forall i :: 0 <= i < totalPages ==> PageNumbers(currentPage, totalPages)[i] == Page(i + 1)
  {
  }

  /**
   Every window lists pages of `1..totalPages` in increasing order, starting at
   page 1 and ending at the last page, with ellipses exactly at the gaps, and it
   lists `min(totalPages, 5)` pages.
   */
  lemma WindowShape(currentPage: int, totalPages: nat)
    ensures InRangeIncreasing(PageNumbers(currentPage, totalPages), totalPages)
    ensures GapsMarked(PageNumbers(currentPage, totalPages))
    ensures totalPages > 0 ==> PageNumbers(currentPage, totalPages)[0] == Page(1)
    ensures totalPages > 0 ==> PageNumbers(currentPage, totalPages)[|PageNumbers(currentPage, totalPages)| - 1] == Page(totalPages)
    ensures |PagesIn(PageNumbers(currentPage, totalPages))| == Min(totalPages, MaxPagesToShow)
  {
    if totalPages <= MaxPagesToShow {
      ShortShape(currentPage, totalPages);
    } else {
      LongShape(currentPage, totalPages);
    }
  }

  lemma ShortShape(currentPage: int, totalPages: nat)
    requires totalPages <= MaxPagesToShow
    ensures InRangeIncreasing(PageNumbers(currentPage, totalPages), totalPages)
    ensures GapsMarked(PageNumbers(currentPage, totalPages))
    ensures totalPages > 0 ==> PageNumbers(currentPage, totalPages)[0] == Page(1)
    ensures totalPages > 0 ==> PageNumbers(currentPage, totalPages)[|PageNumbers(currentPage, totalPages)| - 1] == Page(totalPages)
    ensures |PagesIn(PageNumbers(currentPage, totalPages))| == totalPages
  {
    var r := Numbers(1, totalPages);
    assert PageNumbers(currentPage, totalPages) == r;
    ShortPages(1, totalPages);
  }

  lemma LongShape(currentPage: int, totalPages: nat)
    requires totalPages > MaxPagesToShow
    ensures InRangeIncreasing(PageNumbers(currentPage, totalPages), totalPages)
    ensures GapsMarked(PageNumbers(currentPage, totalPages))
    ensures PageNumbers(currentPage, totalPages)[0] == Page(1)
    ensures PageNumbers(currentPage, totalPages)[|PageNumbers(currentPage, totalPages)| - 1] == Page(totalPages)
    ensures |PagesIn(PageNumbers(currentPage, totalPages))| == MaxPagesToShow
  {
    MiddleBounds(currentPage, totalPages);
    LongForm(currentPage, totalPages);
    var s := Middle(currentPage, totalPages).0;
    LongWindowShape(s, totalPages);
    LongWindowPages(s, totalPages);
    var r := LongWindow(s, totalPages);
    assert r[0] == Page(1);
    assert r[|r| - 1] == Page(totalPages);
  }

  lemma {:induction false} ShortPages(lo: int, hi: int)
    ensures |PagesIn(Numbers(lo, hi))| == if lo <= hi then hi - lo + 1 else 0
    decreases hi - lo
  {
    NumbersPages(lo, hi);
    if lo <= hi {
      ShortPages(lo + 1, hi);
    }
  }

  /** The current page is always listed when it is a real page. */
  lemma CurrentPageListed(currentPage: int, totalPages: nat)
    requires 1 <= currentPage <= totalPages
    ensures Page(currentPage) in PageNumbers(currentPage, totalPages)
  {
    var r := PageNumbers(currentPage, totalPages);
    if totalPages <= MaxPagesToShow {
      assert r[currentPage - 1] == Page(currentPage);
    } else {
      LongForm(currentPage, totalPages);
    }
  }

  /** The leading ellipsis appears exactly when more than five pages exist and the current page is 4 or later. */
  lemma EllipsisStartWhen(currentPage: int, totalPages: nat)
    ensures EllipsisStart in PageNumbers(currentPage, totalPages) <==> totalPages > MaxPagesToShow && currentPage >= 4
  {
    if totalPages > MaxPagesToShow {
      LongForm(currentPage, totalPages);
    }
  }

  /** The trailing ellipsis appears exactly when more than five pages exist and the current page is at least three before the last. */
  lemma EllipsisEndWhen(currentPage: int, totalPages: nat)
    ensures EllipsisEnd in PageNumbers(currentPage, totalPages) <==> totalPages > MaxPagesToShow && currentPage <= totalPages - 3
  {
    if totalPages > MaxPagesToShow {
      LongForm(currentPage, totalPages);
    }
  }

  /** The worked cases: three pages, and ten pages seen from pages 1, 5 and 10. */
  lemma WorkedCases()
    ensures PageNumbers(1, 3) == [Page(1), Page(2), Page(3)]
    ensures PageNumbers(1, 10) == [Page(1), Page(2), Page(3), Page(4), EllipsisEnd, Page(10)]
    ensures PageNumbers(5, 10) == [Page(1), EllipsisStart, Page(4), Page(5), Page(6), EllipsisEnd, Page(10)]
    ensures PageNumbers(10, 10) == [Page(1), EllipsisStart, Page(7), Page(8), Page(9), Page(10)]
  {
    LongForm(1, 10);
    LongForm(5, 10);
    LongForm(10, 10);
  }
}
