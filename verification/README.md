# Invoice table and upload list, modelled in Dafny

This project models the client-side core of the invoice-extract web app. The
app lets users browse and upload electricity invoices.

- **Clients table engine** (`useClientsTable`). It turns the fetched invoice
  rows and a small view state into the rows on screen:
  - filter by client-number substring and by year;
  - stable sort on one of six columns, with a three-state header toggle
    (asc → desc → off);
  - paginate with a `Math.ceil` page count and a `slice`.

  Around that engine sit:
  - the pager labels (`getPageNumbers`), the pager's Previous/Next/link guards
    and the sort indicator;
  - the list of years offered by the year filter;
  - the address-bar round trip: `updateUrl` writes the state, the mount
    effect reads it back.
- **Upload list** (`usePdfUpload`). It keeps a list of pending files:
  - it queues only `application/pdf` files;
  - it removes files by index and tracks a drag flag;
  - on submit it builds one multipart entry per file and clears the list.
- **File sizes** (`formatFileSize`). It formats byte counts, including the
  exact rounding of `toFixed(1)`.

Modules, one per file:

| file | module | what |
|---|---|---|
| `wrappers.dfy` | `Wrappers` | `Option` |
| `seqs.dfy` | `Seqs` | `Array.prototype.filter` (`Keep`) and the subsequence relation |
| `text.dfy` | `Text` | `toString`, `parseInt`, `String.prototype.includes` on decimal text |
| `invoices.dfy` | `Invoices` | the invoice record, the six sort columns, the comparator |
| `stable_sort.dfy` | `StableSort` | the stable sort the comparator drives, and its uniqueness |
| `table_state.dfy` | `TableState` | the view state, the sort toggle, the sort indicator |
| `table_view.dfy` | `TableView` | filter, sort, paginate, available years |
| `page_window.dfy` | `PageWindow` | `getPageNumbers` |
| `url_state.dfy` | `UrlState` | `updateUrl`, the mount effect, and the round trip between them |
| `handlers.dfy` | `Handlers` | the five handlers and row selection, settled through the address bar |
| `pager.dfy` | `Pager` | pager guards and the UI event cycle that keeps the page in range |
| `pdf_upload.dfy` | `PdfUpload` | the upload list |
| `file_size.dfy` | `FileSize` | `formatFileSize` |

How JavaScript behaviour is modelled:

- `Array.prototype.sort` is modelled as a stable insertion sort over the
  source's comparator. `StableSort.SortUnique` shows why this choice does not
  matter: two sequences that are sorted and keep ties in their input order are
  equal. So every stable sort gives the same result.
- `slice` clamps its bounds exactly, including negative starts, so any current
  page is handled.
- `parseInt` reads an optional sign and then the longest run of decimal digits.
  NaN is `None`.
- `URLSearchParams` is a `map<string, string>`.
- `get(k) || fallback` is `UrlState.GetOr`.

Toggling a sort off keeps the column key and clears only the direction
(`TableState.ToggleSort`).

## Model

| member | source | states |
|---|---|---|
| `Invoices.ParseKey` | src/hooks/use-clients-table.ts:41 | a `sortKey` text is read as a column exactly when it is that column's property name |
| `Invoices.ParseKeyName` | src/components/clients-table.tsx:135-188 | each of the six header columns reads back from its name |
| `Invoices.ParseDirection` | src/hooks/use-clients-table.ts:41-42 | a `sortDir` text is read as a direction exactly when it is "asc" or "desc" |
| `Invoices.Comparator` | src/hooks/use-clients-table.ts:185-196 | no contract of its own: `ComparatorSign`, `ComparatorTie` and `InOrderTransitive` state that it is antisymmetric, zero exactly on equal cells, and induces a transitive order |
| `Invoices.TextLess` | src/hooks/use-clients-table.ts:189-192 | no contract of its own: `TextLessIrreflexive`, `TextLessAsymmetric`, `TextLessTransitive` and `TextLessTotal` state that string `<` is a strict total order |
| `Invoices.ComparatorSign` | src/hooks/use-clients-table.ts:185-196 | the comparator is antisymmetric, returns 0 exactly for equal cells, and is non-positive exactly when the pair is in sorted order |
| `Invoices.InOrderTransitive` | src/hooks/use-clients-table.ts:189-195 | the order the comparator induces is transitive, for string and number columns |
| `Invoices.InOrderAntisymmetric` | src/hooks/use-clients-table.ts:189-195 | rows that may each precede the other hold the same cell |
| `Invoices.TextLessTotal` | src/hooks/use-clients-table.ts:189-192 | JavaScript string `<` orders any two different strings |
| `Invoices.TextLessTransitive` | src/hooks/use-clients-table.ts:189-192 | JavaScript string `<` is transitive |
| `Text.IntText` | src/hooks/use-clients-table.ts:90-91 | no contract of its own: `NatTextValue`, `ParseIntText` and `IntTextInjective` state that the text denotes the integer, reads back through `parseInt`, and differs for different integers |
| `Text.ParseInt` | src/hooks/use-clients-table.ts:39-40 | no contract of its own: `ParseIntText` states that it reads back `toString` output followed by any non-digit text, and `ParseIntNaN` that empty text or a leading non-digit non-sign is NaN |
| `Text.Contains` | src/hooks/use-clients-table.ts:176 | no contract of its own: `ContainsOccurs` states that `includes` holds exactly when the needle occurs at some position |
| `Text.NatTextValue` | src/hooks/use-clients-table.ts:90-91 | the decimal text `toString` writes denotes the number |
| `Text.ParseIntText` | src/hooks/use-clients-table.ts:39-40 | `parseInt` on `toString` output, followed by any non-digit text, gives back the integer |
| `Text.IntTextInjective` | src/hooks/use-clients-table.ts:178 | different years have different decimal texts |
| `Text.ParseIntNaN` | src/hooks/use-clients-table.ts:39-40 | `parseInt` is NaN on empty text or text that starts with neither a digit nor a sign |
| `Text.ContainsOccurs` | src/hooks/use-clients-table.ts:175-176 | `includes` holds exactly when the needle occurs at some position |
| `Seqs.Keep` | src/hooks/use-clients-table.ts:173-181 | `filter` keeps exactly the elements that pass the predicate, never more of them than the input has |
| `Seqs.KeepIsSubseq` | src/hooks/use-clients-table.ts:173-181 | `filter` returns an order-preserving subsequence of its input |
| `Seqs.KeepCount` | src/hooks/use-clients-table.ts:173-181 | `filter` keeps each passing element as often as it occurs, and drops every other |
| `TableView.FilterRecords` | src/hooks/use-clients-table.ts:173-181 | absent data filters to nothing; the result is a subsequence of the data, and a row is in it iff it matches both filters |
| `TableView.MatchesMeaning` | src/hooks/use-clients-table.ts:175-179 | a row matches iff its client number contains the filter and the year filter is "all" or the year's text |
| `TableView.YearFilterExact` | src/hooks/use-clients-table.ts:177-178 | with a year's text as filter, a row matches iff it has exactly that year |
| `TableView.EmptyFilterKeepsAll` | src/hooks/use-clients-table.ts:173-181 | the initial filters ("" and "all") keep every row in order |
| `TableView.FilterCount` | src/hooks/use-clients-table.ts:173-181 | each matching row is kept as often as it occurs in the data |
| `TableView.ApplySort` | src/hooks/use-clients-table.ts:183-197 | the rows are permuted; unchanged unless key and direction are both set; otherwise sorted with ties kept in filtered order |
| `StableSort.Sort` | src/hooks/use-clients-table.ts:185-196 | sorting is a permutation of its input |
| `StableSort.SortSorted` | src/hooks/use-clients-table.ts:185-196 | the sort's output is in comparator order |
| `StableSort.SortStable` | src/hooks/use-clients-table.ts:185-196 | rows with equal cells keep their relative order |
| `StableSort.SortUnique` | src/hooks/use-clients-table.ts:185-196 | two sorted sequences with the same ties in the same order are equal, so every stable sort agrees |
| `StableSort.SortOfSorted` | src/hooks/use-clients-table.ts:185-196 | sorting an already sorted sequence changes nothing |
| `StableSort.SortIdempotent` | src/hooks/use-clients-table.ts:185-196 | sorting twice is sorting once |
| `TableView.TotalPages` | src/hooks/use-clients-table.ts:201 | the page count is the least number of pages of the given size that hold every row |
| `TableView.JsSlice` | src/hooks/use-clients-table.ts:203 | `slice` with non-negative bounds is the clamped subsequence and never longer than its input |
| `TableView.PageRows` | src/hooks/use-clients-table.ts:202-203 | a page has at most `itemsPerPage` rows, is the clamped window of the result that starts at `(page - 1) * itemsPerPage` (`IsPageWindow`), and is empty past the last page |
| `TableView.PagesJoin` | src/hooks/use-clients-table.ts:200-203 | the first `c` pages joined are the first `c * itemsPerPage` rows |
| `TableView.PagesReassemble` | src/hooks/use-clients-table.ts:200-203 | pages 1 to `totalPages` joined give back the whole result |
| `TableView.RowOnPage` | src/hooks/use-clients-table.ts:200-203 | row `i` of the result is row `i % n` of page `i / n + 1`, and that page exists |
| `TableView.ComputeView` | src/hooks/use-clients-table.ts:170-205 | `totalItems` counts the result, `totalPages` is its ceiling; from page 1 on, the visible rows are the `itemsPerPage` rows of the sorted, filtered result that start at `(currentPage - 1) * itemsPerPage` (`IsPageWindow`), so at most a page, all matching the filters, none past the last page |
| `TableView.Result` | src/hooks/use-clients-table.ts:173-197 | no contract of its own: `FilterRecords` and `ApplySort` state that it is a permutation of the matching rows of the data, sorted with stable ties when a sort is active |
| `TableView.Matches` | src/hooks/use-clients-table.ts:175-179 | no contract of its own: `MatchesMeaning` and `YearFilterExact` state that the client filter must occur in the client number and the year filter must be "all" or exactly the row's year |
| `TableView.AvailableYears` | src/hooks/use-clients-table.ts:263-265 | the years offered have no duplicates, are exactly the years in the data, come in first-occurrence order, and are empty without data |
| `TableView.Distinct` | src/components/clients-table.tsx:72-74 | `Array.from(new Set(...))` drops repeats, keeps every value, and keeps first-occurrence order |
| `TableState.ToggleSort` | src/hooks/use-clients-table.ts:72-84 | a new column sorts ascending; on the same column asc → desc → off → asc, and the key is always the clicked column |
| `TableState.ThreeClicksUnsort` | src/hooks/use-clients-table.ts:72-84 | three clicks on a new column leave it selected but unsorted |
| `TableState.ToggleCycle` | src/hooks/use-clients-table.ts:72-84 | on the selected column the toggle has period three |
| `TableState.SortIndicator` | src/components/clients-table.tsx:77-91 | up iff the column is the key and the direction is asc, down iff it is desc, neutral otherwise |
| `TableState.IndicatorShowsActiveSort` | src/components/clients-table.tsx:77-91 | some column shows an arrow iff a sort is active, and only the key column does |
| `PageWindow.PageNumbers` | src/hooks/use-clients-table.ts:216-260 | no contract of its own: `WindowShape`, `CurrentPageListed`, `ShortWindow`, `LongForm`, `EllipsisStartWhen` and `EllipsisEndWhen` state that `getPageNumbers` lists in-range pages in increasing order, marks exactly the gaps with ellipses, and always shows the current page |
| `PageWindow.Middle` | src/hooks/use-clients-table.ts:229-238 | no contract of its own: `MiddleBounds` states that the adjusted `startPage..endPage` is three consecutive pages strictly between the first and the last |
| `PageWindow.Numbers` | src/hooks/use-clients-table.ts:222-224 | the run from `lo` to `hi` lists each page once, in order |
| `PageWindow.ShortWindow` | src/hooks/use-clients-table.ts:220-224 | up to five pages, the labels are exactly pages 1 to `totalPages` |
| `PageWindow.LongForm` | src/hooks/use-clients-table.ts:225-257 | beyond five pages, the labels are 1, an optional leading ellipsis, three middle pages, an optional trailing ellipsis, and the last page |
| `PageWindow.MiddleBounds` | src/hooks/use-clients-table.ts:229-238 | the middle run is three pages strictly between the first and the last |
| `PageWindow.WindowShape` | src/hooks/use-clients-table.ts:216-260 | numbered labels lie in range and strictly increase, ellipses mark exactly the gaps, the first and last pages frame the list, and min(totalPages, 5) pages are shown |
| `PageWindow.LongWindowPages` | src/hooks/use-clients-table.ts:225-257 | the long form shows pages 1, s, s+1, s+2 and `totalPages` |
| `PageWindow.CurrentPageListed` | src/hooks/use-clients-table.ts:216-260 | the current page is always among the labels when it is a real page |
| `PageWindow.EllipsisStartWhen` | src/hooks/use-clients-table.ts:240-243 | the leading ellipsis appears iff there are more than five pages and the current page is 4 or later |
| `PageWindow.EllipsisEndWhen` | src/hooks/use-clients-table.ts:250-253 | the trailing ellipsis appears iff there are more than five pages and the current page is at most three before the last |
| `PageWindow.WorkedCases` | src/hooks/use-clients-table.ts:216-260 | the labels for three pages, and for ten pages seen from pages 1, 5 and 10 |
| `UrlState.UpdateUrl` | src/hooks/use-clients-table.ts:55-69 | each key is set to its value iff the value is non-empty and not "all" or "null", otherwise deleted; other keys are untouched |
| `UrlState.Params` | src/hooks/use-clients-table.ts:87-94 | the six parameter keys are distinct |
| `UrlState.FromQuery` | src/hooks/use-clients-table.ts:36-52 | filters are read with defaults "" and "all", the selected row is kept, and the sort changes only when both sort parameters are present |
| `UrlState.RestoredSort` | src/hooks/use-clients-table.ts:49-51 | the sort is replaced only by an active sort named in both `sortKey` and `sortDir` |
| `UrlState.EmptyQueryIsInitial` | src/hooks/use-clients-table.ts:25-52 | reading an empty address bar gives the initial state |
| `UrlState.Normalized` | src/hooks/use-clients-table.ts:37-38 | no contract of its own: `RoundTrip` and `ClientAllIsLost` state that it is what a trip through the address bar makes of a state: client "all"/"null" read back as "", year ""/"null" as "all" |
| `UrlState.RoundTrip` | src/hooks/use-clients-table.ts:36-69 | writing a state and reading it back gives the normalized state; the sort comes back only when it is active |
| `UrlState.RoundTripTexts` | src/hooks/use-clients-table.ts:36-69 | the round trip also holds when page and page size are written as any text `parseInt` reads as them |
| `UrlState.RoundTripExact` | src/hooks/use-clients-table.ts:36-69 | a state whose filters are not "all"/"null" ("" for the year) comes back unchanged |
| `UrlState.ClientAllIsLost` | src/hooks/use-clients-table.ts:37 | a client filter of "all" comes back as "" |
| `UrlState.SortReadBack` | src/hooks/use-clients-table.ts:41-51 | written sort parameters are read back as the sort if it was active, otherwise the previous sort stays |
| `UrlState.ParsedIsWritten` | src/hooks/use-clients-table.ts:60 | any text `parseInt` accepts is kept by `updateUrl` |
| `Handlers.HandleSort` | src/hooks/use-clients-table.ts:72-95 | only the sort changes, to the toggled sort, and the whole state is written with the current page |
| `Handlers.HandleClientFilterChange` | src/hooks/use-clients-table.ts:98-111 | only the client filter and the page change, and the page becomes 1 |
| `Handlers.HandleYearFilterChange` | src/hooks/use-clients-table.ts:114-127 | only the year filter and the page change, and the page becomes 1 |
| `Handlers.HandlePageChange` | src/hooks/use-clients-table.ts:130-142 | only the page changes, to the requested one |
| `Handlers.HandleItemsPerPageChange` | src/hooks/use-clients-table.ts:145-159 | NaN exactly when `parseInt` fails; otherwise only page size and page change, page to 1, and the raw text is written as `perPage` |
| `Handlers.SelectRow` | src/components/clients-table.tsx:204 | only the selected row changes |
| `Handlers.Handle` | src/hooks/use-clients-table.ts:72-159 | every handler writes distinct keys and keeps the selection; only an unparsable page size fails |
| `Handlers.Settle` | src/hooks/use-clients-table.ts:36-69 | keeps the selected row; `SettleNormalizes` states that after any handler the state read back is the handler's state, normalized |
| `Handlers.SettleNormalizes` | src/hooks/use-clients-table.ts:36-159 | after any handler and the navigation it causes, the state read back is the handler's state, normalized |
| `Handlers.SettledIsFixedPoint` | src/hooks/use-clients-table.ts:36-69 | after one round trip, writing and reading again changes nothing |
| `Handlers.SelectionSurvives` | src/hooks/use-clients-table.ts:36-52 | the selected row survives every handler and navigation |
| `Handlers.FilterChangeShowsFirstPage` | src/hooks/use-clients-table.ts:98-127 | after a filter change the table shows the first `itemsPerPage` rows of the new result |
| `Handlers.SortKeepsCounts` | src/hooks/use-clients-table.ts:72-95 | a sort click keeps the page, the row count and the page count, and only reorders the rows |
| `Handlers.EveryRowReachable` | src/hooks/use-clients-table.ts:130-142 | each row of the result is shown by some page change to a page in range |
| `Pager.Requested` | src/components/clients-table.tsx:299-345 | Previous asks for page−1 iff the page is above 1, Next for page+1 iff below the last, and a label only when it is a number |
| `Pager.RequestedInRange` | src/components/clients-table.tsx:301-338 | from a page in range, every click asks for a page in range |
| `Pager.LabelsAreLive` | src/components/clients-table.tsx:311-329 | each numbered label asks for its own number |
| `Pager.DimmedMeansInert` | src/components/clients-table.tsx:299-345 | within range, Previous and Next look disabled exactly when clicking them does nothing |
| `Pager.ExactlyOneActive` | src/components/clients-table.tsx:324 | exactly one label is marked active, the current page's |
| `Pager.ActionOf` | src/components/clients-table.tsx:295-338 | no handler runs for a row click, or for a pager click while the pager is hidden or the click is a no-op |
| `Pager.React` | src/components/clients-table.tsx:204 | a row click only selects the row; events with no handler change nothing |
| `Pager.ReactIsSettle` | src/hooks/use-clients-table.ts:36-69 | the event cycle's state is what the address bar round trip yields, whatever it held before |
| `Pager.OptionsParse` | src/components/clients-table.tsx:286-289 | every offered page size parses to a positive number |
| `Pager.InitialConsistent` | src/hooks/use-clients-table.ts:25-33 | the initial state has a positive page size, survives the round trip, and its page is in range |
| `Pager.ReactKeepsConsistent` | src/components/clients-table.tsx:110-338 | over fixed data, every event keeps a positive page size, a stable address bar and a page in range |
| `PdfUpload.HandleFiles` | src/hooks/use-pdf-upload.ts:60-70 | queued files stay first and unchanged; the added tail holds exactly the offered PDFs, in order |
| `PdfUpload.HandleFilesCount` | src/hooks/use-pdf-upload.ts:60-70 | each PDF is queued as often as offered, anything else never |
| `PdfUpload.HandleFilesEmpty` | src/hooks/use-pdf-upload.ts:60-70 | offering nothing queues nothing |
| `PdfUpload.HandleDrag` | src/hooks/use-pdf-upload.ts:33-41 | dragenter and dragover raise the flag, dragleave lowers it, anything else keeps it; the list is untouched |
| `PdfUpload.HandleDrop` | src/hooks/use-pdf-upload.ts:43-51 | a drop always lowers the flag and queues the dropped files; an absent or empty list changes nothing |
| `PdfUpload.HandleChange` | src/hooks/use-pdf-upload.ts:53-58 | a file pick queues the picked files; an absent or empty list changes nothing |
| `PdfUpload.Without` | src/hooks/use-pdf-upload.ts:73 | filtering by index removes exactly position `index`, or nothing when it is out of range |
| `PdfUpload.RemoveFile` | src/hooks/use-pdf-upload.ts:72-74 | exactly the file at the index goes, the others keep their order, and an out-of-range index changes nothing |
| `PdfUpload.RemoveUndoesAdd` | src/hooks/use-pdf-upload.ts:60-74 | removing the file just queued gives back the earlier list |
| `PdfUpload.HandleSubmit` | src/hooks/use-pdf-upload.ts:80-95 | one `file` entry per queued file, in order; afterwards the list is empty and the dialog closed |
| `PdfUpload.FormFiles` | src/hooks/use-pdf-upload.ts:84-86 | the files a form carries, position by position |
| `PdfUpload.SubmitCarriesQueue` | src/components/pdf-upload-dialog.tsx:127 | the form carries exactly the queue, and afterwards submit is disabled |
| `PdfUpload.ApplyKeepsAllPdf` | src/hooks/use-pdf-upload.ts:33-74 | every event keeps the queue free of anything but PDFs |
| `PdfUpload.EventsKeepAllPdf` | src/hooks/use-pdf-upload.ts:33-74 | any sequence of events keeps the queue free of anything but PDFs |
| `PdfUpload.UploadsOnlyPdfs` | src/hooks/use-pdf-upload.ts:28-74 | from the hook's initial state (no files, no drag, dialog closed), every sequence of events leaves only PDFs queued |
| `FileSize.Tenths` | src/hooks/use-pdf-upload.ts:99-100 | `toFixed(1)` picks the tenths count nearest to the value, the larger one on a tie |
| `FileSize.NearUnique` | src/hooks/use-pdf-upload.ts:99-100 | only one count of tenths is nearest |
| `FileSize.FixedOneDigits` | src/hooks/use-pdf-upload.ts:99-100 | `toFixed(1)` writes the whole part, a point, and one digit |
| `FileSize.FormatFileSize` | src/hooks/use-pdf-upload.ts:97-101 | below 1024 the exact count plus " bytes"; below 1048576 the nearest tenth of a KB plus " KB"; otherwise the nearest tenth of a MB plus " MB" |
| `FileSize.KiloReading` | src/hooks/use-pdf-upload.ts:99 | between 1024 and 1048575 bytes, the text is the reading of the one count of tenths of a KB nearest the size |
| `FileSize.MegaReading` | src/hooks/use-pdf-upload.ts:100 | from 1048576 bytes on, the text is the reading of the one count of tenths of a MB nearest the size |
| `FileSize.UnitNamesRange` | src/hooks/use-pdf-upload.ts:97-101 | each unit suffix appears exactly for its size range |
| `FileSize.MegaBoundary` | src/hooks/use-pdf-upload.ts:99-100 | the unit is chosen before rounding: 1048575 bytes read "1024.0 KB" |
| `FileSize.KiloExamples` | src/hooks/use-pdf-upload.ts:99 | 1024 and 1536 bytes read "1.0 KB" and "1.5 KB" |

## Left out

- Network I/O is not modelled. This covers `useQuery`/`useMutation`, the axios upload request, query invalidation and `src/lib/handlers/invoices.ts`. The fetched data is an input that may be absent (`Option<seq<Invoice>>`), and the upload request is the form that `HandleSubmit` returns.
- Side effects are not modelled: the router push, `window.location`, `alert` in `handleDownload`, the download button, `inputRef.click` (`onButtonClick`), and the raw `setOpen` setter.
- Rendering is not modelled beyond the rules above. `formatCurrency` (it wraps `Intl.NumberFormat`) and `cn` are not part of this model.
- Invoice amounts are modelled as integers, not floating-point numbers. The record keeps only the fields the table uses.
- Strings are compared by character, which stands for a UTF-16 code unit; surrogate pairs are not modelled.
- `parseInt` is modelled without leading whitespace, hexadecimal prefixes or digit runs too long to be exact in a double.
- A `perPage` text that `parseInt` reads as NaN is reported as `None` by `Handlers.HandleItemsPerPageChange`. The model does not carry NaN into the state.
- `UrlState.FromQuery`: a `page` or `perPage` parameter that `parseInt` reads as NaN makes the whole read `None`. The source still sets the client, the year and the sort in that case, and stores NaN as the page or page size; the model promises nothing about that state.
- `Text.IntText`: models `Number.prototype.toString` only for integers below 10^21 in magnitude. From 10^21 up, JavaScript writes exponent notation ("1e+21"), which `parseInt` reads back as 1. So `UrlState.RoundTrip`, `UrlState.RoundTripExact`, `Handlers.SettleNormalizes` and `Handlers.SettledIsFixedPoint` hold in the source only for pages and page sizes below 10^21.
- `Handlers.Settle`: always reads the address bar back. The mount effect in the source depends on `searchParams` and so re-runs only when the query changes. When a handler writes exactly the query already there, the source keeps the handler's state as set. For example, typing "all" as the client filter on a query that already omits `client` keeps "all" as a literal filter, where the model reads back "". The same assumption underlies `Pager.React`, `Pager.ReactIsSettle` and the "address bar reproduces the state" part of `Pager.ReactKeepsConsistent`.
- `TableView.ComputeView` requires a positive page size. The page-size select only offers 5, 10, 20 and 50. A zero or negative size read from the address bar is not modelled.
- `UrlState.FromQuery` treats a `sortKey` that names none of the six columns, or a `sortDir` other than "asc"/"desc", as absent. The source stores such values verbatim.
- `URLSearchParams` is modelled as a map. The order of keys and repeated keys are not modelled.
- `FileSize.FormatFileSize`: requires a size below 2^53, the range of `File.size`. The exponent notation `toFixed` uses from 10^21 up therefore never arises.
- Concurrency and rendering timing are not modelled. Each handler is treated as one step followed by its navigation.
