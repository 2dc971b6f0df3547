/**
 The hook's derived view: filter the fetched invoices, sort them when a
 column and a direction are chosen, and cut out the current page; plus the
 list of years offered by the year filter.
 */
module TableView {
  import opened Wrappers
  import opened Seqs
  import opened Text
  import opened Invoices
  import opened StableSort
  import opened TableState

  /** The row filter: the client filter occurs in the client number, and the year filter is "all" or the year's text. */
  predicate Matches(x: Invoice, clientFilter: string, yearFilter: string)
  {
    Contains(x.clientNumber, clientFilter) && (yearFilter == "all" || IntText(x.year) == yearFilter)
  }

  function MatchesFilters(clientFilter: string, yearFilter: string): Invoice -> bool
  {
    x => Matches(x, clientFilter, yearFilter)
  }

  /** The filtered rows; fetched data that has not arrived (`None`) yields no rows. */
  function FilterRecords(data: Option<seq<Invoice>>, clientFilter: string, yearFilter: string): (r: seq<Invoice>)
    ensures data.None? ==> r == []
    ensures data.Some? ==> IsSubseq(r, data.value)
    ensures forall x :: x in r <==> data.Some? && x in data.value && Matches(x, clientFilter, yearFilter)
  {
    match data
    case None => []
    case Some(rows) =>
      KeepIsSubseq(rows, MatchesFilters(clientFilter, yearFilter));
      Keep(rows, MatchesFilters(clientFilter, yearFilter))
  }

  /** A row passes the filter exactly when the client filter occurs somewhere in its client number and its year matches. */
  lemma MatchesMeaning(x: Invoice, clientFilter: string, yearFilter: string)
    ensures Matches(x, clientFilter, yearFilter) <==>
      (exists i :: OccursAt(x.clientNumber, clientFilter, i)) && (yearFilter == "all" || IntText(x.year) == yearFilter)
  {
    ContainsOccurs(x.clientNumber, clientFilter);
  }

  /** Choosing the text of year `y` in the year filter keeps exactly the rows of year `y`. */
  lemma YearFilterExact(x: Invoice, clientFilter: string, y: int)
    ensures Matches(x, clientFilter, IntText(y)) <==> Contains(x.clientNumber, clientFilter) && x.year == y
  {
    if IntText(x.year) == IntText(y) {
      IntTextInjective(x.year, y);
    }
  }

  /** The empty client filter with every year keeps all the data. */
  lemma EmptyFilterKeepsAll(rows: seq<Invoice>)
    ensures FilterRecords(Some(rows), "", "all") == rows
  {
    forall i | 0 <= i < |rows|
      ensures MatchesFilters("", "all")(rows[i])
    {
      assert rows[i].clientNumber[..0] == "";
    }
    KeepAll(rows, MatchesFilters("", "all"));
  }

  /** The filtered rows keep their multiplicities in the data. */
  lemma FilterCount(rows: seq<Invoice>, clientFilter: string, yearFilter: string, x: Invoice)
    ensures multiset(FilterRecords(Some(rows), clientFilter, yearFilter))[x] ==
      if Matches(x, clientFilter, yearFilter) then multiset(rows)[x] else 0
  {
    KeepCount(rows, MatchesFilters(clientFilter, yearFilter), x);
  }

  /** Sorting step: applied only when both a column and a direction are set. */
  function ApplySort(c: SortConfig, s: seq<Invoice>): (r: seq<Invoice>)
    ensures multiset(r) == multiset(s) && |r| == |s|
    ensures !c.Active() ==> r == s
    ensures c.Active() ==> Sorted(c.key.value, c.direction.value, r)
    ensures c.Active() ==> forall v :: Ties(r, c.key.value, v) == Ties(s, c.key.value, v)
  {
    if c.Active() then
      var k, d := c.key.value, c.direction.value;
      SortSorted(k, d, s);
      assert forall v :: Ties(Sort(k, d, s), k, v) == Ties(s, k, v) by {
        forall v ensures Ties(Sort(k, d, s), k, v) == Ties(s, k, v) {
          SortStable(k, d, s, v);
        }
      }
      assert |Sort(k, d, s)| == |multiset(Sort(k, d, s))|;
      Sort(k, d, s)
    else s
  }

  /** `pages` pages of `itemsPerPage` rows hold `totalItems` rows, and one page fewer would not. */
  predicate PagesFit(totalItems: nat, pages: nat, itemsPerPage: int)
  {
    && totalItems <= pages * itemsPerPage
    && (pages == 0 || (pages - 1) * itemsPerPage < totalItems)
  }

  /** `Math.ceil(totalItems / itemsPerPage)`: the fewest pages of `itemsPerPage` rows that hold every row. */
  function TotalPages(totalItems: nat, itemsPerPage: int): (pages: nat)
    requires itemsPerPage > 0
    ensures PagesFit(totalItems, pages, itemsPerPage)
  {
    var q := (totalItems + itemsPerPage - 1) / itemsPerPage;
    var m := (totalItems + itemsPerPage - 1) % itemsPerPage;
    assert totalItems + itemsPerPage - 1 == q * itemsPerPage + m;
    assert (q - 1) * itemsPerPage == q * itemsPerPage - itemsPerPage;
    q
  }

  /** A `slice` bound: negative positions count back from the end, and the result is clamped to `0..len`. */
  function Clamp(i: int, len: nat): (r: nat)
    ensures r <= len
    ensures 0 <= i ==> r == Min(i, len)
  {
    if i < 0 then Max(len + i, 0) else Min(i, len)
  }

  /** `s.slice(start, end)` as JavaScript defines it. */
  function JsSlice<T>(s: seq<T>, start: int, end: int): (r: seq<T>)
    ensures |r| <= |s|
    ensures 0 <= start <= end ==> r == s[Min(start, |s|)..Min(end, |s|)]
  {
    var from := Clamp(start, |s|);
    var to := Clamp(end, |s|);
    if from < to then s[from..to] else []
  }

  /** The rows shown on page `page`: `result.slice((page - 1) * n, (page - 1) * n + n)`. */
  function PageRows<T>(s: seq<T>, page: int, itemsPerPage: int): (r: seq<T>)
    requires itemsPerPage > 0
    ensures |r| <= itemsPerPage
    ensures page >= 1 ==> IsPageWindow(r, s, page, itemsPerPage)
    ensures page > TotalPages(|s|, itemsPerPage) ==> r == []
  {
    var start := (page - 1) * itemsPerPage;
    StartPastEnd(page, itemsPerPage, |s|);
    SliceWindow(s, start, itemsPerPage);
    SliceFrom(s, start, itemsPerPage);
    JsSlice(s, start, start + itemsPerPage)
  }

  /** A page after the last one starts at or past the end of the result; a page from 1 on starts at 0 or later. */
  lemma StartPastEnd(page: int, itemsPerPage: int, count: nat)
    requires itemsPerPage > 0
    ensures page >= 1 ==> (page - 1) * itemsPerPage >= 0
    ensures page > TotalPages(count, itemsPerPage) ==> (page - 1) * itemsPerPage >= count
  {
    PageStart(page, itemsPerPage, TotalPages(count, itemsPerPage));
  }

  /** A slice that starts at or past the end is empty. */
  lemma SliceFrom<T>(s: seq<T>, start: int, n: nat)
    ensures start >= |s| ==> JsSlice(s, start, start + n) == []
  {
  }

  /**
   `rows` are page `page` of `s`: the `itemsPerPage` elements from index
   `(page - 1) * itemsPerPage` on, or fewer at the end.
   */
  ghost predicate IsPageWindow<T>(rows: seq<T>, s: seq<T>, page: int, itemsPerPage: nat)
  {
    var start := (page - 1) * itemsPerPage;
    && start >= 0
    && rows == s[Min(start, |s|)..Min(start + itemsPerPage, |s|)]
  }

  /** A slice `n` wide from any start holds at most `n` elements. */
  lemma SliceWindow<T>(s: seq<T>, start: int, n: nat)
    ensures |JsSlice(s, start, start + n)| <= n
  {
  }

  /** The arithmetic behind a page's start index. */
  lemma PageStart(page: int, itemsPerPage: int, totalPages: nat)
    requires itemsPerPage > 0
    ensures page >= 1 ==> (page - 1) * itemsPerPage >= 0
    ensures page > totalPages ==> (page - 1) * itemsPerPage >= totalPages * itemsPerPage
    ensures (page - 1) * itemsPerPage + itemsPerPage == page * itemsPerPage
  {
    if page >= 1 {
      MulNonNegative(page - 1, itemsPerPage);
    }
    if page > totalPages {
      MulMonotone(totalPages, page - 1, itemsPerPage);
    }
  }

  lemma MulNonNegative(a: int, b: int)
    requires a >= 0 && b >= 0
    ensures a * b >= 0
  {
  }

  lemma MulMonotone(a: int, b: int, c: int)
    requires a <= b && c >= 0
    ensures a * c <= b * c
  {
    assert b * c - a * c == (b - a) * c;
    MulNonNegative(b - a, c);
  }

  /** Pages `1..count` laid end to end. */
  function PagesUpTo<T>(s: seq<T>, itemsPerPage: int, count: nat): seq<T>
    requires itemsPerPage > 0
  {
    if count == 0 then [] else PagesUpTo(s, itemsPerPage, count - 1) + PageRows(s, count, itemsPerPage)
  }

  /** The first `count` pages are exactly the first `count * itemsPerPage` rows (or all of them). */
  lemma {:induction false} PagesJoin<T>(s: seq<T>, itemsPerPage: int, count: nat)
    requires itemsPerPage > 0
    ensures PagesUpTo(s, itemsPerPage, count) == s[..Min(count * itemsPerPage, |s|)]
  {
    if count > 0 {
      PagesJoin(s, itemsPerPage, count - 1);
      PageStart(count, itemsPerPage, 0);
      var a := (count - 1) * itemsPerPage;
      var b := count * itemsPerPage;
      assert a + itemsPerPage == b;
      var lo := Min(a, |s|);
      var hi := Min(b, |s|);
      assert PageRows(s, count, itemsPerPage) == s[lo..hi];
      assert s[..lo] + s[lo..hi] == s[..hi];
    }
  }

  /** Concatenating pages `1..totalPages` reproduces the whole result, each row once and in order. */
  lemma PagesReassemble<T>(s: seq<T>, itemsPerPage: int)
    requires itemsPerPage > 0
    ensures PagesUpTo(s, itemsPerPage, TotalPages(|s|, itemsPerPage)) == s
  {
    PagesJoin(s, itemsPerPage, TotalPages(|s|, itemsPerPage));
    assert s[..|s|] == s;
  }

  /** Row `i` of the result is shown on page `i / n + 1`, at position `i % n`. */
  lemma RowOnPage<T>(s: seq<T>, itemsPerPage: int, i: int)
    requires itemsPerPage > 0 && 0 <= i < |s|
    ensures 1 <= i / itemsPerPage + 1 <= TotalPages(|s|, itemsPerPage)
    ensures i % itemsPerPage < |PageRows(s, i / itemsPerPage + 1, itemsPerPage)|
    ensures PageRows(s, i / itemsPerPage + 1, itemsPerPage)[i % itemsPerPage] == s[i]
  {
    var p := i / itemsPerPage;
    var o := i % itemsPerPage;
    assert i == p * itemsPerPage + o;
    assert (p + 1) * itemsPerPage == p * itemsPerPage + itemsPerPage;
    var tp := TotalPages(|s|, itemsPerPage);
    if p + 1 > tp {
      MulMonotone(tp, p, itemsPerPage);
    }
  }

  /** Every row on a page is a row of the result. */
  lemma PageRowsFromResult<T>(s: seq<T>, page: int, itemsPerPage: int)
    requires itemsPerPage > 0
    ensures forall x :: x in PageRows(s, page, itemsPerPage) ==> x in s
  {
    var start := (page - 1) * itemsPerPage;
    var from, to := Clamp(start, |s|), Clamp(start + itemsPerPage, |s|);
    if from < to {
      forall x | x in s[from..to]
        ensures x in s
      {
        var i :| 0 <= i < to - from && s[from..to][i] == x;
        assert s[from + i] == x;
      }
    }
  }

  /** What the table shows: one page of rows and the counts under the pager. */
  datatype View = View(rows: seq<Invoice>, totalItems: nat, totalPages: nat)

  /** Every row that passes the filters, in display order. */
  function Result(data: Option<seq<Invoice>>, vs: ViewState): seq<Invoice>
  {
    ApplySort(vs.sort, FilterRecords(data, vs.clientFilter, vs.yearFilter))
  }

  /** Every row of the result is a row of the data that passes the filters. */
  lemma ResultRows(data: Option<seq<Invoice>>, vs: ViewState)
    ensures forall x :: x in Result(data, vs) ==>
      data.Some? && x in data.value && Matches(x, vs.clientFilter, vs.yearFilter)
  {
    var filtered := FilterRecords(data, vs.clientFilter, vs.yearFilter);
    forall x | x in Result(data, vs)
      ensures x in filtered
    {
      assert x in multiset(Result(data, vs));
    }
  }

  function ComputeView(data: Option<seq<Invoice>>, vs: ViewState): (v: View)
    requires vs.itemsPerPage > 0
    ensures v.totalItems == |Result(data, vs)|
    ensures PagesFit(v.totalItems, v.totalPages, vs.itemsPerPage)
    ensures |v.rows| <= vs.itemsPerPage
    ensures forall x :: x in v.rows ==> data.Some? && x in data.value && Matches(x, vs.clientFilter, vs.yearFilter)
    ensures vs.currentPage > v.totalPages ==> v.rows == []
    ensures vs.currentPage >= 1 ==> IsPageWindow(v.rows, Result(data, vs), vs.currentPage, vs.itemsPerPage)
  {
    var result := Result(data, vs);
    var rows := PageRows(result, vs.currentPage, vs.itemsPerPage);
    PageRowsFromResult(result, vs.currentPage, vs.itemsPerPage);
    ResultRows(data, vs);
    View(rows, |result|, TotalPages(|result|, vs.itemsPerPage))
  }

  /** Position of the first occurrence of `x` in `s`. */
  function FirstIndex(s: seq<int>, x: int): (i: nat)
    requires x in s
    ensures i < |s| && s[i] == x && x !in s[..i]
  {
    if s[0] == x then 0 else
      assert s[1..][..FirstIndex(s[1..], x)] == s[1..1 + FirstIndex(s[1..], x)];
      1 + FirstIndex(s[1..], x)
  }

  function YearsOf(rows: seq<Invoice>): (ys: seq<int>)
    ensures |ys| == |rows| && forall i :: 0 <= i < |rows| ==> ys[i] == rows[i].year
  {
    if |rows| == 0 then [] else [rows[0].year] + YearsOf(rows[1..])
  }

  /** An element whose earlier occurrences are absent first occurs here. */
  lemma FirstIndexAt(s: seq<int>, n: nat)
    requires n < |s| && s[n] !in s[..n]
    ensures FirstIndex(s, s[n]) == n
  {
  }

  /**
   `Array.from(new Set(ys))`: each value of `ys` once, in the order of its
   first occurrence.
   */
  method Distinct(ys: seq<int>) returns (out: seq<int>)
    ensures forall i, j :: 0 <= i < j < |out| ==> out[i] != out[j]
    ensures forall y :: y in out <==> y in ys
    ensures forall i, j :: 0 <= i < j < |out| ==> FirstIndex(ys, out[i]) < FirstIndex(ys, out[j])
  {
    out := [];
    var seen: set<int> := {};
    for n := 0 to |ys|
      invariant forall y :: y in seen <==> y in out
      invariant forall y :: y in out <==> y in ys[..n]
      invariant forall i :: 0 <= i < |out| ==> out[i] in ys && FirstIndex(ys, out[i]) < n
      invariant FirstOccurrenceOrder(ys, out)
    {
      var y := ys[n];
      assert ys[..n + 1] == ys[..n] + [y];
      if y !in seen {
        FirstIndexAt(ys, n);
        AppendFirstOccurrence(ys, out, n);
        out := out + [y];
        seen := seen + {y};
      }
    }
    assert ys[..|ys|] == ys;
  }

  /** The elements of `out` occur in `ys`, in the order of their first occurrences there. */
  predicate FirstOccurrenceOrder(ys: seq<int>, out: seq<int>)
  {
    && (forall i :: 0 <= i < |out| ==> out[i] in ys)
    && (forall i, j :: 0 <= i < j < |out| ==> FirstIndex(ys, out[i]) < FirstIndex(ys, out[j]))
  }

  /** Appending the element first seen at `n` after those first seen before `n` keeps the order. */
  lemma AppendFirstOccurrence(ys: seq<int>, out: seq<int>, n: nat)
    requires n < |ys| && FirstIndex(ys, ys[n]) == n
    requires FirstOccurrenceOrder(ys, out)
    requires forall i :: 0 <= i < |out| ==> FirstIndex(ys, out[i]) < n
    ensures FirstOccurrenceOrder(ys, out + [ys[n]])
  {
    var r := out + [ys[n]];
    forall i, j | 0 <= i < j < |r|
      ensures FirstIndex(ys, r[i]) < FirstIndex(ys, r[j])
    {
      assert r[i] == out[i];
      if j < |out| {
        assert r[j] == out[j];
      }
    }
  }

  /** The year filter's choices: the distinct years of the data in first-occurrence order, none before data arrives. */
  method AvailableYears(data: Option<seq<Invoice>>) returns (years: seq<int>)
    ensures data.None? ==> years == []
    ensures forall i, j :: 0 <= i < j < |years| ==> years[i] != years[j]
    ensures forall y :: y in years <==> data.Some? && y in YearsOf(data.value)
    ensures data.Some? ==> forall i, j :: 0 <= i < j < |years| ==>
      FirstIndex(YearsOf(data.value), years[i]) < FirstIndex(YearsOf(data.value), years[j])
  {
    match data
    case None =>
      years := [];
    case Some(rows) =>
      years := Distinct(YearsOf(rows));
  }
}
