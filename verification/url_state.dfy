/**
 The view state in the address bar: `updateUrl` writes six query parameters,
 and the mount effect reads them back into the state.
 The query string is modelled as a map from parameter names to values.
 */
module UrlState {
  import opened Wrappers
  import opened Text
  import opened Invoices
  import opened TableState

  type Query = map<string, string>

  /** One `key: value` entry of the object handed to `updateUrl`. */
  datatype Entry = Entry(key: string, value: string)

  function KeysOf(entries: seq<Entry>): seq<string>
  {
    if |entries| == 0 then [] else [entries[0].key] + KeysOf(entries[1..])
  }

  /** The keys of a JavaScript object literal are distinct. */
  predicate DistinctKeys(entries: seq<Entry>)
  {
    forall i, j :: 0 <= i < j < |entries| ==> entries[i].key != entries[j].key
  }

  /** A value is written to the address bar when it is non-empty and neither "all" nor "null". */
  predicate Written(value: string)
  {
    value != "" && value != "all" && value != "null"
  }

  /** `url.searchParams.set(key, value)` or `url.searchParams.delete(key)`. */
  function ApplyEntry(q: Query, e: Entry): Query
  {
    if Written(e.value) then q[e.key := e.value] else q - {e.key}
  }

  /**
   `updateUrl`: each entry in turn is set when written and deleted otherwise;
   parameters the entries do not name are left as they were.
   */
  function UpdateUrl(q: Query, entries: seq<Entry>): (r: Query)
    requires DistinctKeys(entries)
    ensures forall i :: 0 <= i < |entries| ==>
      (entries[i].key in r <==> Written(entries[i].value)) &&
      (entries[i].key in r ==> r[entries[i].key] == entries[i].value)
    ensures forall k :: k !in KeysOf(entries) ==> (k in r <==> k in q) && (k in r ==> r[k] == q[k])
    decreases |entries|
  {
    if |entries| == 0 then q
    else
      var r := UpdateUrl(ApplyEntry(q, entries[0]), entries[1..]);
      assert forall j :: 0 <= j < |entries| - 1 ==> entries[1..][j].key != entries[0].key;
      assert entries[0].key !in KeysOf(entries[1..]) by {
        KeysOfIndex(entries[1..], entries[0].key);
      }
      r
  }

  /** A key is among the entries' keys exactly when some entry carries it. */
  lemma {:induction false} KeysOfIndex(entries: seq<Entry>, k: string)
    ensures k in KeysOf(entries) <==> exists i :: 0 <= i < |entries| && entries[i].key == k
  {
    if |entries| > 0 {
      KeysOfIndex(entries[1..], k);
      if exists i :: 0 <= i < |entries| && entries[i].key == k {
        var i :| 0 <= i < |entries| && entries[i].key == k;
        if i > 0 {
          assert entries[1..][i - 1].key == k;
        }
      }
      if exists i :: 0 <= i < |entries[1..]| && entries[1..][i].key == k {
        var i :| 0 <= i < |entries[1..]| && entries[1..][i].key == k;
        assert entries[i + 1].key == k;
      }
    }
  }

  /** The object the handlers pass to `updateUrl`, in its key order. */
  function Params(client: string, year: string, page: string, perPage: string, sort: SortConfig): (ps: seq<Entry>)
    ensures DistinctKeys(ps)
  {
    [ Entry("client", client),
      Entry("year", year),
      Entry("page", page),
      Entry("perPage", perPage),
      Entry("sortKey", match sort.key case Some(k) => KeyName(k) case None => ""),
      Entry("sortDir", match sort.direction case Some(d) => DirectionName(d) case None => "") ]
  }

  /** The parameters that describe a view state. */
  function UrlParams(vs: ViewState): seq<Entry>
  {
    Params(vs.clientFilter, vs.yearFilter, IntText(vs.currentPage), IntText(vs.itemsPerPage), vs.sort)
  }

  /** `searchParams.get(key) || fallback`. */
  function GetOr(q: Query, key: string, fallback: string): string
  {
    if key in q && q[key] != "" then q[key] else fallback
  }

  /** The sort stored in the query when both `sortKey` and `sortDir` name a column and a direction; `previous` otherwise. */
  function RestoredSort(q: Query, previous: SortConfig): (r: SortConfig)
    ensures r == previous || (r.Active() && "sortKey" in q && "sortDir" in q)
  {
    var key := ParseKey(GetOr(q, "sortKey", ""));
    var direction := ParseDirection(GetOr(q, "sortDir", ""));
    if key.Some? && direction.Some? then SortConfig(key, direction) else previous
  }

  /**
   The mount effect: client, year, page and page size are read with their
   defaults ("", "all", 1, 10); the sort is replaced only when both of its
   parameters are present; the selected row is kept. `None` stands for a page
   or page size that `parseInt` reads as NaN.
   */
  function FromQuery(q: Query, previous: ViewState): (r: Option<ViewState>)
    ensures r.Some? ==> r.value.clientFilter == GetOr(q, "client", "")
    ensures r.Some? ==> r.value.yearFilter == GetOr(q, "year", "all")
    ensures r.Some? ==> r.value.selectedRow == previous.selectedRow
    ensures r.Some? ==> r.value.sort == previous.sort || ("sortKey" in q && "sortDir" in q)
  {
    var page := ParseInt(GetOr(q, "page", "1"));
    var perPage := ParseInt(GetOr(q, "perPage", "10"));
    if page.None? || perPage.None? then None
    else
      Some(ViewState(
        GetOr(q, "client", ""),
        GetOr(q, "year", "all"),
        RestoredSort(q, previous.sort),
        previous.selectedRow,
        page.value,
        perPage.value))
  }

  /** With no parameters at all the effect yields the initial state. */
  lemma EmptyQueryIsInitial()
    ensures FromQuery(map[], Initial) == Some(Initial)
  {
    ParseIntText(1, "");
    ParseIntText(10, "");
    assert IntText(1) + "" == "1";
    assert IntText(10) + "" == "10";
  }

  /** What survives a trip through the address bar: "all" and "null" client filters come back empty, empty and "null" year filters come back as "all". */
  function Normalized(vs: ViewState): ViewState
  {
    vs.(clientFilter := if vs.clientFilter == "all" || vs.clientFilter == "null" then "" else vs.clientFilter,
        yearFilter := if vs.yearFilter == "" || vs.yearFilter == "null" then "all" else vs.yearFilter)
  }

  lemma IntTextWritten(i: int)
    ensures Written(IntText(i))
    ensures ParseInt(IntText(i)) == Some(i)
  {
    ParseIntText(i, "");
    assert IntText(i) + "" == IntText(i);
    var t := IntText(i);
    assert t[0] == '-' || IsDigit(t[0]);
  }

  lemma NamesWritten(k: SortKey, d: Direction)
    ensures Written(KeyName(k)) && Written(DirectionName(d))
  {
  }

  /**
   Writing a state to the address bar and reading it back gives the state
   again, up to `Normalized`; the sort comes back only when it is active, and
   otherwise the reader keeps `previous.sort`.
   */
  lemma RoundTrip(q: Query, vs: ViewState, previous: ViewState)
    ensures FromQuery(UpdateUrl(q, UrlParams(vs)), previous) ==
      Some(Normalized(vs).(sort := if vs.sort.Active() then vs.sort else previous.sort,
                            selectedRow := previous.selectedRow))
  {
    IntTextWritten(vs.currentPage);
    IntTextWritten(vs.itemsPerPage);
    RoundTripTexts(q, vs, IntText(vs.currentPage), IntText(vs.itemsPerPage), previous);
  }

  /** The round trip for any page and page-size texts that `parseInt` reads as the state's numbers. */
  lemma RoundTripTexts(q: Query, vs: ViewState, pageText: string, perPageText: string, previous: ViewState)
    requires ParseInt(pageText) == Some(vs.currentPage)
    requires ParseInt(perPageText) == Some(vs.itemsPerPage)
    ensures FromQuery(UpdateUrl(q, Params(vs.clientFilter, vs.yearFilter, pageText, perPageText, vs.sort)), previous) ==
      Some(Normalized(vs).(sort := if vs.sort.Active() then vs.sort else previous.sort,
                            selectedRow := previous.selectedRow))
  {
    var r := UpdateUrl(q, Params(vs.clientFilter, vs.yearFilter, pageText, perPageText, vs.sort));
    ParamsReadBack(q, vs.clientFilter, vs.yearFilter, pageText, perPageText, vs.sort);
    ParsedIsWritten(pageText);
    ParsedIsWritten(perPageText);
    SortReadBack(r, vs.sort, previous.sort);
    FromQueryReads(r, vs, previous);
  }

  /** The reader's result, given what it finds under each of the six parameters. */
  lemma FromQueryReads(r: Query, vs: ViewState, previous: ViewState)
    requires GetOr(r, "client", "") == (if Written(vs.clientFilter) then vs.clientFilter else "")
    requires GetOr(r, "year", "all") == (if Written(vs.yearFilter) then vs.yearFilter else "all")
    requires ParseInt(GetOr(r, "page", "1")) == Some(vs.currentPage)
    requires ParseInt(GetOr(r, "perPage", "10")) == Some(vs.itemsPerPage)
    requires RestoredSort(r, previous.sort) == if vs.sort.Active() then vs.sort else previous.sort
    ensures FromQuery(r, previous) ==
      Some(Normalized(vs).(sort := if vs.sort.Active() then vs.sort else previous.sort,
                            selectedRow := previous.selectedRow))
  {
  }

  /** Text that `parseInt` reads as a number is written to the address bar. */
  lemma ParsedIsWritten(s: string)
    requires ParseInt(s).Some?
    ensures Written(s)
  {
    if s == "all" || s == "null" {
      ParseIntNaN(s);
    }
  }

  /** What the reader sees of each of the six parameters after `updateUrl`. */
  lemma ParamsReadBack(q: Query, client: string, year: string, page: string, perPage: string, sort: SortConfig)
    ensures var r := UpdateUrl(q, Params(client, year, page, perPage, sort));
      && GetOr(r, "client", "") == (if Written(client) then client else "")
      && GetOr(r, "year", "all") == (if Written(year) then year else "all")
      && GetOr(r, "page", "1") == (if Written(page) then page else "1")
      && GetOr(r, "perPage", "10") == (if Written(perPage) then perPage else "10")
      && GetOr(r, "sortKey", "") == (match sort.key case Some(k) => KeyName(k) case None => "")
      && GetOr(r, "sortDir", "") == (match sort.direction case Some(d) => DirectionName(d) case None => "")
  {
    var ps := Params(client, year, page, perPage, sort);
    ReadBack(q, ps, 0, "");
    ReadBack(q, ps, 1, "all");
    ReadBack(q, ps, 2, "1");
    ReadBack(q, ps, 3, "10");
    ReadBack(q, ps, 4, "");
    ReadBack(q, ps, 5, "");
    if sort.key.Some? {
      NamesWritten(sort.key.value, Asc);
    }
    if sort.direction.Some? {
      NamesWritten(ClientNumber, sort.direction.value);
    }
  }

  /** Reading back one parameter written by `updateUrl`. */
  lemma ReadBack(q: Query, ps: seq<Entry>, i: int, fallback: string)
    requires DistinctKeys(ps) && 0 <= i < |ps|
    ensures GetOr(UpdateUrl(q, ps), ps[i].key, fallback) == if Written(ps[i].value) then ps[i].value else fallback
  {
  }

  lemma SortReadBack(r: Query, sort: SortConfig, previous: SortConfig)
    requires GetOr(r, "sortKey", "") == match sort.key case Some(k) => KeyName(k) case None => ""
    requires GetOr(r, "sortDir", "") == match sort.direction case Some(d) => DirectionName(d) case None => ""
    ensures RestoredSort(r, previous) == if sort.Active() then sort else previous
  {
    if sort.Active() {
      ParseKeyName(sort.key.value);
      ParseDirectionName(sort.direction.value);
    }
  }

  /** A state whose filters are not "all"/"null" comes back exactly, sort included when it is active. */
  lemma RoundTripExact(q: Query, vs: ViewState)
    requires vs.clientFilter != "all" && vs.clientFilter != "null"
    requires vs.yearFilter != "" && vs.yearFilter != "null"
    ensures FromQuery(UpdateUrl(q, UrlParams(vs)), vs) == Some(vs)
  {
    RoundTrip(q, vs, vs);
  }

  /** The client filter "all" is lost on the way: it comes back as the empty filter. */
  lemma ClientAllIsLost(q: Query, vs: ViewState)
    requires vs.clientFilter == "all"
    ensures FromQuery(UpdateUrl(q, UrlParams(vs)), vs).Some?
    ensures FromQuery(UpdateUrl(q, UrlParams(vs)), vs).value.clientFilter == ""
  {
    RoundTrip(q, vs, vs);
  }
}
