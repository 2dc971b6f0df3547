/**
 The pager under the clients table and the cycle of user events around it:
 each event runs a handler, the handler writes the address bar, and the mount
 effect reads it back. Over fixed data that cycle keeps the current page
 inside the page range.
 */
module Pager {
  import opened Wrappers
  import opened Text
  import opened Invoices
  import opened TableState
  import opened TableView
  import opened PageWindow
  import opened UrlState
  import opened Handlers

  /** The pager is drawn only when there is at least one page. */
  predicate PagerShown(totalPages: int)
  {
    totalPages > 0
  }

  /** The clickable parts of the pager; `Label(i)` is the `i`-th label of `getPageNumbers`. */
  datatype Click = Previous | Next | Label(index: int)

  /** The page a click asks for, `None` when the click does nothing. */
  function Requested(currentPage: int, totalPages: nat, click: Click): (r: Option<int>)
    ensures click.Previous? ==> (r.Some? <==> currentPage > 1) && (r.Some? ==> r.value == currentPage - 1)
    ensures click.Next? ==> (r.Some? <==> currentPage < totalPages) && (r.Some? ==> r.value == currentPage + 1)
    ensures click.Label? ==> (r.Some? <==> (0 <= click.index < |PageNumbers(currentPage, totalPages)| &&
                                           PageNumbers(currentPage, totalPages)[click.index].Page?))
    ensures click.Label? && r.Some? ==> Page(r.value) in PageNumbers(currentPage, totalPages)
  {
    match click
    case Previous => if currentPage > 1 then Some(currentPage - 1) else None
    case Next => if currentPage < totalPages then Some(currentPage + 1) else None
    case Label(i) =>
      var labels := PageNumbers(currentPage, totalPages);
      if 0 <= i < |labels| && labels[i].Page? then Some(labels[i].n) else None
  }

  /** Every page a click can ask for is a real page, whenever the current page is. */
  lemma RequestedInRange(currentPage: int, totalPages: nat, click: Click)
    requires 1 <= currentPage <= totalPages
    ensures var r := Requested(currentPage, totalPages, click);
      r.Some? ==> 1 <= r.value <= totalPages
  {
    if click.Label? {
      WindowShape(currentPage, totalPages);
    }
  }

  /** Every label that shows a number can be clicked, and asks for that number. */
  lemma LabelsAreLive(currentPage: int, totalPages: nat, i: int)
    requires 0 <= i < |PageNumbers(currentPage, totalPages)| && PageNumbers(currentPage, totalPages)[i].Page?
    ensures Requested(currentPage, totalPages, Label(i)) == Some(PageNumbers(currentPage, totalPages)[i].n)
  {
  }

  /** "Previous" is dimmed on the first page, "Next" on the last. */
  predicate PreviousDimmed(currentPage: int)
  {
    currentPage == 1
  }

  predicate NextDimmed(currentPage: int, totalPages: int)
  {
    currentPage == totalPages
  }

  /** Inside the page range a button looks dimmed exactly when clicking it does nothing. */
  lemma DimmedMeansInert(currentPage: int, totalPages: nat)
    requires 1 <= currentPage <= totalPages
    ensures PreviousDimmed(currentPage) <==> Requested(currentPage, totalPages, Previous).None?
    ensures NextDimmed(currentPage, totalPages) <==> Requested(currentPage, totalPages, Next).None?
  {
  }

  /** Exactly one label is marked active, the one of the current page. */
  lemma ExactlyOneActive(currentPage: int, totalPages: nat)
    requires 1 <= currentPage <= totalPages
    ensures var r := PageNumbers(currentPage, totalPages);
      exists i :: 0 <= i < |r| && r[i] == Page(currentPage)
    ensures var r := PageNumbers(currentPage, totalPages);
      forall i, j :: 0 <= i < |r| && 0 <= j < |r| && r[i] == Page(currentPage) && r[j] == Page(currentPage) ==> i == j
  {
    var r := PageNumbers(currentPage, totalPages);
    CurrentPageListed(currentPage, totalPages);
    WindowShape(currentPage, totalPages);
  }

  /** The number of pages the hook reports, as the pager reads it. */
  function PageCount(data: Option<seq<Invoice>>, vs: ViewState): nat
    requires vs.itemsPerPage > 0
  {
    TotalPages(|Result(data, vs)|, vs.itemsPerPage)
  }

  /** The pager's page count is the hook's `totalPages`. */
  lemma PageCountIsTotalPages(data: Option<seq<Invoice>>, vs: ViewState)
    requires vs.itemsPerPage > 0
    ensures PageCount(data, vs) == ComputeView(data, vs).totalPages
  {
  }

  /** The page count reads only the filters, the sort and the page size. */
  lemma PageCountFrame(data: Option<seq<Invoice>>, a: ViewState, b: ViewState)
    requires a.itemsPerPage > 0
    requires a.(currentPage := b.currentPage, selectedRow := b.selectedRow) == b
    ensures PageCount(data, a) == PageCount(data, b)
  {
    assert Result(data, a) == Result(data, b);
  }

  /** When an event runs a handler that succeeds, the new state is the handler's, normalized. */
  lemma ReactRunsHandler(data: Option<seq<Invoice>>, vs: ViewState, e: UiEvent, a: Action)
    requires vs.itemsPerPage > 0 && !e.RowClicked?
    requires ActionOf(data, vs, e) == Some(a) && Handle(vs, a).Some?
    ensures React(data, vs, e) == Some(Normalized(Handle(vs, a).value.state))
  {
  }

  /** The options of the page-size select. */
  const PageSizeOptions: seq<string> := ["5", "10", "20", "50"]

  /** The events the table reacts to. */
  datatype UiEvent =
    | PagerClick(click: Click)
    | HeaderClick(key: SortKey)
    | ClientTyped(client: string)
    | YearChosen(year: string)
    | PageSizeChosen(size: string)
    | RowClicked(id: string)

  /** The page-size select can only produce one of its options. */
  predicate Offered(e: UiEvent)
  {
    e.PageSizeChosen? ==> e.size in PageSizeOptions
  }

  /** The handler call an event makes, if any; pager clicks count only while the pager is drawn. */
  function ActionOf(data: Option<seq<Invoice>>, vs: ViewState, e: UiEvent): (r: Option<Action>)
    requires vs.itemsPerPage > 0
    ensures r.None? <==> (e.RowClicked? || (e.PagerClick? &&
      (!PagerShown(PageCount(data, vs)) ||
       Requested(vs.currentPage, PageCount(data, vs), e.click).None?)))
  {
    match e
    case PagerClick(click) =>
      var totalPages := PageCount(data, vs);
      if !PagerShown(totalPages) then None
      else (match Requested(vs.currentPage, totalPages, click)
            case None => None
            case Some(page) => Some(GoToPage(page)))
    case HeaderClick(key) => Some(SortBy(key))
    case ClientTyped(client) => Some(ClientFilter(client))
    case YearChosen(year) => Some(YearFilter(year))
    case PageSizeChosen(size) => Some(ItemsPerPage(size))
    case RowClicked(_) => None
  }

  /**
   The state after an event and the navigation it causes; `None` when the
   page size would become NaN.
   */
  function React(data: Option<seq<Invoice>>, vs: ViewState, e: UiEvent): (r: Option<ViewState>)
    requires vs.itemsPerPage > 0
    ensures e.RowClicked? ==> r == Some(SelectRow(vs, e.id))
    ensures ActionOf(data, vs, e).None? && !e.RowClicked? ==> r == Some(vs)
  {
    if e.RowClicked? then Some(SelectRow(vs, e.id))
    else
      match ActionOf(data, vs, e)
      case None => Some(vs)
      case Some(a) =>
        match Handle(vs, a)
        case None => None
        case Some(step) => Some(Normalized(step.state))
  }

  /** `React` is what the address-bar round trip yields, whatever the address bar held before. */
  lemma ReactIsSettle(data: Option<seq<Invoice>>, q: Query, vs: ViewState, e: UiEvent)
    requires vs.itemsPerPage > 0
    requires ActionOf(data, vs, e).Some? && Handle(vs, ActionOf(data, vs, e).value).Some?
    ensures React(data, vs, e) == Settle(q, Handle(vs, ActionOf(data, vs, e).value).value)
  {
    SettleNormalizes(q, vs, ActionOf(data, vs, e).value);
  }

  /**
   The invariant of the cycle: a usable page size, a state the address bar
   reproduces, and a current page inside the range whenever there are pages.
   */
  predicate Consistent(data: Option<seq<Invoice>>, vs: ViewState)
  {
    && vs.itemsPerPage > 0
    && Normalized(vs) == vs
    && var totalPages := PageCount(data, vs);
       totalPages == 0 || 1 <= vs.currentPage <= totalPages
  }

  lemma InitialConsistent(data: Option<seq<Invoice>>)
    ensures Consistent(data, Initial)
  {
  }

  /** Each offered page size parses to its positive value. */
  lemma OptionsParse(size: string)
    requires size in PageSizeOptions
    ensures ParseInt(size).Some? && ParseInt(size).value > 0
  {
    var n := if size == "5" then 5 else if size == "10" then 10 else if size == "20" then 20 else 50;
    OptionText(n);
    assert IntText(n) == size;
  }

  /** The text of each offered page size. */
  lemma OptionText(n: int)
    requires n == 5 || n == 10 || n == 20 || n == 50
    ensures ParseInt(IntText(n)) == Some(n)
    ensures IntText(n) == if n == 5 then "5" else if n == 10 then "10" else if n == 20 then "20" else "50"
  {
    IntTextWritten(n);
  }

  /** Over fixed data, every offered event keeps the state consistent. */
  lemma ReactKeepsConsistent(data: Option<seq<Invoice>>, vs: ViewState, e: UiEvent)
    requires Consistent(data, vs) && Offered(e)
    ensures React(data, vs, e).Some?
    ensures Consistent(data, React(data, vs, e).value)
  {
    match e
    case PagerClick(click) => PagerClickConsistent(data, vs, click);
    case HeaderClick(key) => HeaderClickConsistent(data, vs, key);
    case ClientTyped(_) => FilterConsistent(data, vs, e);
    case YearChosen(_) => FilterConsistent(data, vs, e);
    case PageSizeChosen(size) => PageSizeConsistent(data, vs, size);
    case RowClicked(id) => assert Normalized(SelectRow(vs, id)) == SelectRow(vs, id);
  }

  /** Filter changes go back to page 1, which is always consistent. */
  lemma FilterConsistent(data: Option<seq<Invoice>>, vs: ViewState, e: UiEvent)
    requires Consistent(data, vs)
    requires e.ClientTyped? || e.YearChosen?
    ensures React(data, vs, e).Some?
    ensures Consistent(data, React(data, vs, e).value)
  {
    var a := if e.ClientTyped? then ClientFilter(e.client) else YearFilter(e.year);
    assert ActionOf(data, vs, e) == Some(a);
    FirstPageAfter(data, vs, e, a);
  }

  /** So does a page-size change, since every offered size is positive. */
  lemma PageSizeConsistent(data: Option<seq<Invoice>>, vs: ViewState, size: string)
    requires Consistent(data, vs) && size in PageSizeOptions
    ensures React(data, vs, PageSizeChosen(size)).Some?
    ensures Consistent(data, React(data, vs, PageSizeChosen(size)).value)
  {
    var a := ItemsPerPage(size);
    assert ActionOf(data, vs, PageSizeChosen(size)) == Some(a);
    OptionsParse(size);
    var step := HandleItemsPerPageChange(vs, size).value;
    assert step.state.currentPage == 1 && step.state.itemsPerPage > 0;
    FirstPageAfter(data, vs, PageSizeChosen(size), a);
  }

  /** An action that lands on page 1 with a positive page size leaves the state consistent. */
  lemma FirstPageAfter(data: Option<seq<Invoice>>, vs: ViewState, e: UiEvent, a: Action)
    requires vs.itemsPerPage > 0 && !e.RowClicked?
    requires ActionOf(data, vs, e) == Some(a) && Handle(vs, a).Some?
    requires Handle(vs, a).value.state.currentPage == 1 && Handle(vs, a).value.state.itemsPerPage > 0
    ensures React(data, vs, e).Some?
    ensures Consistent(data, React(data, vs, e).value)
  {
    ReactRunsHandler(data, vs, e, a);
    FirstPageConsistent(data, Handle(vs, a).value.state);
  }

  lemma PagerClickConsistent(data: Option<seq<Invoice>>, vs: ViewState, click: Click)
    requires Consistent(data, vs)
    ensures React(data, vs, PagerClick(click)).Some?
    ensures Consistent(data, React(data, vs, PagerClick(click)).value)
  {
    var totalPages := PageCount(data, vs);
    if PagerShown(totalPages) {
      RequestedInRange(vs.currentPage, totalPages, click);
      var r := Requested(vs.currentPage, totalPages, click);
      if r.Some? {
        var a := GoToPage(r.value);
        assert ActionOf(data, vs, PagerClick(click)) == Some(a);
        var s := HandlePageChange(vs, r.value).state;
        ReactRunsHandler(data, vs, PagerClick(click), a);
        assert Normalized(s) == s;
        PageCountFrame(data, vs, s);
      }
    }
  }

  lemma HeaderClickConsistent(data: Option<seq<Invoice>>, vs: ViewState, key: SortKey)
    requires Consistent(data, vs)
    ensures React(data, vs, HeaderClick(key)).Some?
    ensures Consistent(data, React(data, vs, HeaderClick(key)).value)
  {
    var a := SortBy(key);
    assert ActionOf(data, vs, HeaderClick(key)) == Some(a);
    var s := HandleSort(vs, key).state;
    ReactRunsHandler(data, vs, HeaderClick(key), a);
    assert Normalized(s) == s;
    SortKeepsPageCount(data, vs, key);
  }

  lemma SortKeepsPageCount(data: Option<seq<Invoice>>, vs: ViewState, key: SortKey)
    requires vs.itemsPerPage > 0
    ensures PageCount(data, HandleSort(vs, key).state) == PageCount(data, vs)
  {
    var s := HandleSort(vs, key).state;
    var filtered := FilterRecords(data, vs.clientFilter, vs.yearFilter);
    assert Result(data, s) == ApplySort(s.sort, filtered);
    assert Result(data, vs) == ApplySort(vs.sort, filtered);
  }

  /** A state on page 1 with a positive page size is consistent once normalized. */
  lemma FirstPageConsistent(data: Option<seq<Invoice>>, s: ViewState)
    requires s.currentPage == 1 && s.itemsPerPage > 0
    ensures Consistent(data, Normalized(s))
  {
    NormalizedIdempotent(s);
  }
}
