/**
 The event handlers of the clients table. Each handler sets new state and
 passes the whole parameter object to `updateUrl`; the router then changes the
 address bar and the mount effect reads it back into the state. `Settle`
 models that loop, and the lemmas below say what it converges to.
 */
module Handlers {
  import opened Wrappers
  import opened Seqs
  import opened Text
  import opened Invoices
  import opened StableSort
  import opened TableState
  import opened TableView
  import opened UrlState

  /** What a handler does: the state it sets and the parameters it writes. */
  datatype Step = Step(state: ViewState, params: seq<Entry>)

  /** A click on a column header: toggle the sort, keep the page. */
  function HandleSort(vs: ViewState, key: SortKey): (r: Step)
    ensures r.state.sort == ToggleSort(vs.sort, key)
    ensures r.state.(sort := vs.sort) == vs
    ensures r.params == UrlParams(r.state)
  {
    var state := vs.(sort := ToggleSort(vs.sort, key));
    Step(state, Params(vs.clientFilter, vs.yearFilter, IntText(vs.currentPage), IntText(vs.itemsPerPage), state.sort))
  }

  /** Typing in the client number box: new filter, back to page 1. */
  function HandleClientFilterChange(vs: ViewState, value: string): (r: Step)
    ensures r.state.clientFilter == value && r.state.currentPage == 1
    ensures r.state.(clientFilter := vs.clientFilter, currentPage := vs.currentPage) == vs
    ensures r.params == UrlParams(r.state)
  {
    assert IntText(1) == "1";
    Step(vs.(clientFilter := value, currentPage := 1),
         Params(value, vs.yearFilter, "1", IntText(vs.itemsPerPage), vs.sort))
  }

  /** Choosing a year: new filter, back to page 1. */
  function HandleYearFilterChange(vs: ViewState, value: string): (r: Step)
    ensures r.state.yearFilter == value && r.state.currentPage == 1
    ensures r.state.(yearFilter := vs.yearFilter, currentPage := vs.currentPage) == vs
    ensures r.params == UrlParams(r.state)
  {
    assert IntText(1) == "1";
    Step(vs.(yearFilter := value, currentPage := 1),
         Params(vs.clientFilter, value, "1", IntText(vs.itemsPerPage), vs.sort))
  }

  /** A pager click: the requested page, nothing else. */
  function HandlePageChange(vs: ViewState, page: int): (r: Step)
    ensures r.state.currentPage == page
    ensures r.state.(currentPage := vs.currentPage) == vs
    ensures r.params == UrlParams(r.state)
  {
    Step(vs.(currentPage := page),
         Params(vs.clientFilter, vs.yearFilter, IntText(page), IntText(vs.itemsPerPage), vs.sort))
  }

  /**
   Choosing a page size: the raw option text is parsed for the state and
   written unparsed to the address bar. `None` when `parseInt` reads NaN.
   */
  function HandleItemsPerPageChange(vs: ViewState, value: string): (r: Option<Step>)
    ensures r.None? <==> ParseInt(value).None?
    ensures r.Some? ==> r.value.state.itemsPerPage == ParseInt(value).value && r.value.state.currentPage == 1
    ensures r.Some? ==> r.value.state.(itemsPerPage := vs.itemsPerPage, currentPage := vs.currentPage) == vs
    ensures r.Some? ==> |r.value.params| == 6 && r.value.params[3] == Entry("perPage", value)
  {
    match ParseInt(value)
    case None => None
    case Some(n) =>
      Some(Step(vs.(itemsPerPage := n, currentPage := 1),
                Params(vs.clientFilter, vs.yearFilter, "1", value, vs.sort)))
  }

  /** A click on a row selects it; the address bar is not touched. */
  function SelectRow(vs: ViewState, id: string): (r: ViewState)
    ensures r.selectedRow == Some(id)
    ensures r.(selectedRow := vs.selectedRow) == vs
  {
    vs.(selectedRow := Some(id))
  }

  /** Every user action that goes through `updateUrl`. */
  datatype Action =
    | SortBy(key: SortKey)
    | ClientFilter(client: string)
    | YearFilter(year: string)
    | GoToPage(page: int)
    | ItemsPerPage(perPage: string)

  function Handle(vs: ViewState, a: Action): (r: Option<Step>)
    ensures r.None? <==> a.ItemsPerPage? && ParseInt(a.perPage).None?
    ensures r.Some? ==> DistinctKeys(r.value.params)
    ensures r.Some? ==> r.value.state.selectedRow == vs.selectedRow
  {
    match a
    case SortBy(key) => Some(HandleSort(vs, key))
    case ClientFilter(client) => Some(HandleClientFilterChange(vs, client))
    case YearFilter(year) => Some(HandleYearFilterChange(vs, year))
    case GoToPage(page) => Some(HandlePageChange(vs, page))
    case ItemsPerPage(perPage) => HandleItemsPerPageChange(vs, perPage)
  }

  /** The router navigates to the written parameters and the mount effect reads them back. */
  function Settle(q: Query, step: Step): (r: Option<ViewState>)
    requires DistinctKeys(step.params)
    ensures r.Some? ==> r.value.selectedRow == step.state.selectedRow
  {
    FromQuery(UpdateUrl(q, step.params), step.state)
  }

  /**
   Whatever the action and whatever the address bar held before, the state
   the effect reads back is the state the handler set, normalized.
   */
  lemma SettleNormalizes(q: Query, vs: ViewState, a: Action)
    requires Handle(vs, a).Some?
    ensures Settle(q, Handle(vs, a).value) == Some(Normalized(Handle(vs, a).value.state))
  {
    var step := Handle(vs, a).value;
    match a
    case ItemsPerPage(perPage) =>
      ParseIntText(1, "");
      assert IntText(1) + "" == "1";
      RoundTripTexts(q, step.state, "1", perPage, step.state);
    case _ =>
      RoundTrip(q, step.state, step.state);
  }

  /** Normalizing twice changes nothing. */
  lemma NormalizedIdempotent(vs: ViewState)
    ensures Normalized(Normalized(vs)) == Normalized(vs)
  {
  }

  /**
   After one round the loop is at rest: writing the settled state back to the
   address bar and reading it again gives the same state.
   */
  lemma SettledIsFixedPoint(q: Query, vs: ViewState, a: Action)
    requires Handle(vs, a).Some?
    ensures Settle(q, Handle(vs, a).value).Some?
    ensures var s := Settle(q, Handle(vs, a).value).value;
      FromQuery(UpdateUrl(q, UrlParams(s)), s) == Some(s)
  {
    SettleNormalizes(q, vs, a);
    var s := Normalized(Handle(vs, a).value.state);
    RoundTripExact(q, s);
  }

  /** The selected row survives every action and the navigation that follows it. */
  lemma SelectionSurvives(q: Query, vs: ViewState, id: string, a: Action)
    requires Handle(SelectRow(vs, id), a).Some?
    ensures var r := Settle(q, Handle(SelectRow(vs, id), a).value);
      r.Some? && r.value.selectedRow == Some(id)
  {
    SettleNormalizes(q, SelectRow(vs, id), a);
  }

  /** After a filter change the table shows the first rows of the new result. */
  lemma FilterChangeShowsFirstPage(data: Option<seq<Invoice>>, vs: ViewState, a: Action)
    requires vs.itemsPerPage > 0
    requires a.ClientFilter? || a.YearFilter?
    ensures var s := Handle(vs, a).value.state;
      ComputeView(data, s).rows == Result(data, s)[..Min(vs.itemsPerPage, |Result(data, s)|)]
  {
    var s := Handle(vs, a).value.state;
    assert s.currentPage == 1 && s.itemsPerPage == vs.itemsPerPage;
    assert (s.currentPage - 1) * s.itemsPerPage == 0;
    assert s.currentPage * s.itemsPerPage == vs.itemsPerPage;
  }

  /** Re-sorting keeps the page, the row count and the page count, and only reorders the rows. */
  lemma SortKeepsCounts(data: Option<seq<Invoice>>, vs: ViewState, key: SortKey)
    requires vs.itemsPerPage > 0
    ensures var s := HandleSort(vs, key).state;
      && s.currentPage == vs.currentPage
      && ComputeView(data, s).totalItems == ComputeView(data, vs).totalItems
      && ComputeView(data, s).totalPages == ComputeView(data, vs).totalPages
      && multiset(Result(data, s)) == multiset(Result(data, vs))
  {
  }

  /** Every row of the result can be brought on screen by a page change. */
  lemma EveryRowReachable(data: Option<seq<Invoice>>, vs: ViewState, i: int)
    requires vs.itemsPerPage > 0 && 0 <= i < |Result(data, vs)|
    ensures exists page :: (1 <= page <= ComputeView(data, vs).totalPages &&
      Result(data, vs)[i] in ComputeView(data, HandlePageChange(vs, page).state).rows)
  {
    var n := vs.itemsPerPage;
    var result := Result(data, vs);
    var page := i / n + 1;
    RowOnPage(result, n, i);
    var s := HandlePageChange(vs, page).state;
    assert Result(data, s) == result;
    assert ComputeView(data, s).rows == PageRows(result, page, n);
    assert ComputeView(data, s).rows[i % n] == result[i];
  }
}
