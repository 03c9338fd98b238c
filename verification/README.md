# Cytometry app: a verified model of its logic

The cytometry app is a small web application for cell-count data.

- **Browser side.** A React client shows the samples, each sample's cell-population frequencies, a responder/non-responder analysis and a filter-and-summarize view. It also lets the user upload a CSV file, add a sample and delete one.
- **Server side.** A FastAPI server answers the client's requests from SQLite.

This project models, in Dafny, the parts of both sides that hold logic rather than layout or SQL, and proves what that logic promises.

- **Pagination (`Pagination`).** The same code appears in the sample overview, the population-frequency table and the filtered-sample table:
  - the page count `max(1, ceil(n / pageSize))`;
  - the slice shown for a page, with JavaScript's `slice` index clamping;
  - the Previous, Next and typed-page controls.

  The pages partition the list, and every control keeps the page in range.
- **Population-frequency table (`PopulationFrequencies`).** It marks every fifth row by its absolute index. The rule depends on the position in the whole table, never on the page.
- **Filter form (`FilterSummarize`) and analysis selects (`ResponseAnalysisView`).**
  - Each select replaces one field of the parameter record and keeps the others.
  - In the filter form "Any" clears its field.
  - In the analysis form the "none" treatment stores the empty text.
- **Box-plot traces and significance table (`ResponseAnalysisView`).**
  - The traces flatten the per-population value lists into aligned x/y sequences.
  - The table labels a p-value "Significant" only when it is strictly below 0.05.
- **Add-sample dialog (`AddSampleModal`).**
  - It collects every missing required field, in a fixed order, into one error notification.
  - It applies the edits the inputs make to the draft sample.
- **Application container (`App`) and sidebar (`Sidebar`).**
  - The container is a class holding the application state. Server responses are arbitrary values.
  - A ghost trace records every request and alert in order.
  - Upload, delete and add reload the samples first, then at most one view loader.
  - The container checks its own required fields one at a time, stopping at the first failure. The dialog's check and the container's check differ, and the model proves exactly how.
- **Delete confirmation (`SampleOverview`).** A class whose three fields the click, confirm and cancel handlers replace.
- **Server helpers (`WhereClause`, `CellData`, `ResponseGrouping`, `SummaryKeys`).**
  - *WHERE clause:* the clause builders of the three filtered endpoints and the `"1=1"` fallback.
  - *Cell counts:* the parser of the `cell_type:count,...` text the database hands back, with its round trip against the database's `GROUP_CONCAT` encoding.
  - *Response analysis:* the grouping of its rows by population and response, and the `p = 1.0` fallback for small groups.
  - *Summaries:* the `"unknown"` key of the summary dictionaries.
- **Support modules.**
  - `Text`: Python's `split` and `join`, trimming, ASCII lower-casing and decimal numerals.
  - `NumberParsing`: JavaScript's `Number.parseInt(text, 10)` and Python's `int(text)`.
  - `Domain`: the exchanged records.

The alert that `handleAdd` shows when `addSample` fails is modelled as written. Its expression is `"Failed to add sample: " + detail || err.message`. The `+` binds tighter than `||`, so the left operand is never empty and the server error's own message is never shown. `App.FailureAlertIgnoresMessage` states this.

## Model

| member | source | states |
|---|---|---|
| Pagination.CeilDiv | frontend/src/components/FilterSummarize.tsx:28 | `Math.ceil(a / b)`: the least `q` with `a <= q * b` |
| Pagination.TotalPagesBounds | frontend/src/components/SampleOverview.tsx:117 | the page count is at least 1, is 1 for an empty list, and is the least number of full pages that hold every row |
| Pagination.SliceIndex | frontend/src/components/SampleOverview.tsx:119 | `slice` clamps an index into `[0, length]` and keeps an index already inside it |
| Pagination.PageStart | frontend/src/components/SampleOverview.tsx:118 | a page from 1 on starts at a non-negative index |
| Pagination.PageData | frontend/src/components/SampleOverview.tsx:118-119 | a page from 1 on holds at most `pageSize` rows: the rows from its start up to `pageSize` further, clipped to the list, and row `i` of the page is row `start + i` of the list |
| Pagination.PageBeyondLastIsEmpty | frontend/src/components/FilterSummarize.tsx:28-30 | a page past the page count shows nothing |
| Pagination.PageInRangeLength | frontend/src/components/PopulationFrequencies.tsx:20-22 | a page in range shows `min(pageSize, length - start)` rows, and is empty only when the list is |
| Pagination.PagesUpToIsPrefix | frontend/src/components/FilterSummarize.tsx:29-30 | pages 1 to `k` concatenated are the first `min(k * pageSize, length)` rows |
| Pagination.PagesPartition | frontend/src/components/FilterSummarize.tsx:28-30 | pages 1 to the page count, concatenated in order, give back the whole list |
| Pagination.NavigationStaysInRange | frontend/src/components/SampleOverview.tsx:235-264 | from a page in range, Previous and Next stay in range; each leaves the page unchanged exactly when it is disabled, and otherwise the other button undoes it |
| Pagination.TypedPageClamps | frontend/src/components/FilterSummarize.tsx:228-232 | any typed text gives a page in `[1, totalPages]`: unreadable text or 0 gives 1, a number below 1 gives 1, a number past the end gives the last page, and a number in range is kept |
| Pagination.TypedPageOfNumeral | frontend/src/components/PopulationFrequencies.tsx:105-109 | typing the numeral of a page in range selects that page |
| PopulationFrequencies.BorderRule | frontend/src/components/PopulationFrequencies.tsx:51-62 | a row has the group border iff its absolute index + 1 is a multiple of 5; otherwise it has the thin border iff it is not the last row of the page, and no border iff it is |
| PopulationFrequencies.FrequencyRows | frontend/src/components/PopulationFrequencies.tsx:48-63 | one row per row of the page; row `i` shows the frequency at absolute index `start + i` and carries the border of that position |
| PopulationFrequencies.RowOnPage | frontend/src/components/PopulationFrequencies.tsx:48-51 | on any page, the row at position `r` shows the frequency at absolute index `start + r`, and has the group border iff that index ends a group |
| PopulationFrequencies.RowOfAbsoluteIndex | frontend/src/components/PopulationFrequencies.tsx:20-51 | every frequency `k` appears on page `k / pageSize + 1`, which is in range, at position `k % pageSize`, and has the group border there iff `k` ends a group of five, whatever the page size |
| FilterSummarize.SelectText | frontend/src/components/FilterSummarize.tsx:42-83 | a text select stores its option, or clears the field when "Any" is chosen; the select then shows the option, and every other field is kept |
| FilterSummarize.ReselectShownText | frontend/src/components/FilterSummarize.tsx:42-47 | choosing the option a select already shows changes nothing |
| FilterSummarize.SelectTime | frontend/src/components/FilterSummarize.tsx:95-100 | the time select clears the time on "" and otherwise stores the parsed number; the text fields are kept |
| FilterSummarize.TimeSelectRoundTrip | frontend/src/components/FilterSummarize.tsx:95-106 | the shown time option always parses; choosing it again changes nothing; choosing a numeral stores that number, and the select then shows that numeral |
| SampleOverview.Find | frontend/src/components/SampleOverview.tsx:122 | `find` gives the first sample with the id, and nothing exactly when no sample has it |
| SampleOverview.DisplayNameIsId | frontend/src/components/SampleOverview.tsx:122-127 | the dialog names the sample by the clicked id, whether or not the sample is in the list |
| SampleOverview.DeleteConfirmation.constructor | frontend/src/components/SampleOverview.tsx:107-115 | the dialog starts closed with empty id and name, having requested no deletion |
| SampleOverview.DeleteConfirmation.HandleDeleteClick | frontend/src/components/SampleOverview.tsx:121-128 | clicking Delete opens the dialog with the row's id as both id and name |
| SampleOverview.DeleteConfirmation.ConfirmDelete | frontend/src/components/SampleOverview.tsx:130-133 | confirming requests deletion of the pending id once, then closes the dialog with empty fields |
| SampleOverview.DeleteConfirmation.Close | frontend/src/components/SampleOverview.tsx:275-277 | cancel and close leave the dialog closed and empty |
| SampleOverview.DeleteConfirmation.HandleConfirm | frontend/src/components/SampleOverview.tsx:56-59 | the confirm button deletes the pending id once and leaves the dialog closed |
| SampleOverview.ClickThenConfirm | frontend/src/components/SampleOverview.tsx:121-133 | click then confirm deletes exactly that row's sample, once; click then cancel deletes nothing |
| AddSampleModal.MissingAmongFacts | frontend/src/components/AddSampleModal.tsx:105-118 | the pushed list holds exactly the listed fields that are missing, in list order |
| AddSampleModal.MissingFieldsExact | frontend/src/components/AddSampleModal.tsx:105-118 | the missing list holds exactly the failing fields, each once, in the order Sample ID, Project, Subject, Sex, and is empty exactly when no field fails |
| AddSampleModal.NamesOfMissing | frontend/src/components/AddSampleModal.tsx:105-118 | the pushed names are the names of the missing fields, in the same order |
| AddSampleModal.CollectMissingFields | frontend/src/components/AddSampleModal.tsx:104-118 | the four tests push exactly the names of the missing fields, in order |
| AddSampleModal.MissingNamesInOrder | frontend/src/components/AddSampleModal.tsx:105-118 | the missing names are the four fields' pushes, one after the other |
| AddSampleModal.MissingMessageShape | frontend/src/components/AddSampleModal.tsx:120-125 | the message is the fixed prefix and then the names with one comma between each two, and a single missing field is named alone |
| AddSampleModal.Modal.constructor | frontend/src/components/AddSampleModal.tsx:84-94 | the notification starts closed, of kind info, with empty title and message |
| AddSampleModal.Modal.HandleAdd | frontend/src/components/AddSampleModal.tsx:104-130 | the draft is handed on, once, iff nothing is missing, and then the notification is untouched; otherwise an error notification titled "Missing Required Fields" carries the message, and nothing is handed on |
| AddSampleModal.Modal.CloseNotification | frontend/src/components/AddSampleModal.tsx:388 | closing hides the notification and keeps its kind, title and message |
| AddSampleModal.NumericInput | frontend/src/components/AddSampleModal.tsx:202-211 | "" gives 0, and the result is either 0 or the number the text reads as |
| AddSampleModal.OptionalChoice | frontend/src/components/AddSampleModal.tsx:221-226 | an optional select shows what it stores, and stores nothing exactly for "" |
| AddSampleModal.ApplyEdit | frontend/src/components/AddSampleModal.tsx:156-361 | an input changes only its own field of the draft: sample id, project, subject and sample type take the text, sex takes the text as its option, age and a cell count take the coerced number, a cell-count edit changes only its own key, optional selects clear on "", and the time stores the parsed option |
| AddSampleModal.NumericInputCoercion | frontend/src/components/AddSampleModal.tsx:206-209 | unreadable text gives 0, and readable text gives the number it reads as |
| AddSampleModal.NumericInputOfShown | frontend/src/components/AddSampleModal.tsx:202-209 | retyping what a number input shows gives back the number it holds |
| AddSampleModal.EditIdempotent | frontend/src/components/AddSampleModal.tsx:156-361 | making the same edit twice is the same as making it once |
| AddSampleModal.ReselectOptional | frontend/src/components/AddSampleModal.tsx:221-226 | reselecting the shown condition keeps the draft, except that a condition holding "" is cleared |
| App.RefreshRunsOneLoader | frontend/src/App.tsx:111-114 | a refresh fetches the samples first and only once, then runs exactly one loader for the frequencies, analysis and filter views, and none for samples and baseline |
| App.FailureAlertIgnoresMessage | frontend/src/App.tsx:144-146 | the failure alert is always "Failed to add sample: " followed by the detail, or "undefined" when there is none; the error message never shows |
| App.ContainerAcceptsOnlyWhatDialogAccepts | frontend/src/App.tsx:126-139 | a draft the container accepts lacks, by the dialog's check, at most the sex |
| App.DialogPassesSpacesInProject | frontend/src/App.tsx:131-134 | of the drafts the dialog passes on, the container rejects exactly those whose project is blank after trimming |
| App.Container.constructor | frontend/src/App.tsx:22-72 | the initial state: samples view, page 1, empty caches, no filter, the melanoma/miraclib/PBMC analysis parameters, not loading, dialog closed, the default draft, and no requests |
| App.Container.LoadSamples | frontend/src/App.tsx:91-93 | one samples request, and only the samples cache changes |
| App.Container.LoadFrequencies | frontend/src/App.tsx:95-97 | one frequencies request, and only the frequencies cache changes |
| App.Container.LoadAnalysis | frontend/src/App.tsx:78-83 | one analysis request with the current analysis parameters; loading ends false |
| App.Container.ApplyFilters | frontend/src/App.tsx:99-104 | the summary request and then the samples request, both with the same filter parameters; the summary cache is filled and loading ends false |
| App.Container.LoadViewData | frontend/src/App.tsx:112-114 | the view's loader requests, if any, in order; loading is cleared exactly by the analysis and filter loaders; every cache but the view's own is kept |
| App.Container.Refresh | frontend/src/App.tsx:111-114 | the samples request, then the view loader's requests; of the frequency, analysis and filter caches, only the view's own may change |
| App.Container.HandleFileUpload | frontend/src/App.tsx:106-116 | with no file nothing is requested and nothing changes; otherwise the upload, then a refresh, loading ends false, and the caches of the views not on screen are kept |
| App.Container.HandleDelete | frontend/src/App.tsx:118-124 | the delete request, then a refresh, with the loading rule of the view's loader and the caches of the views not on screen kept |
| App.Container.PostSample | frontend/src/App.tsx:141 | one add request with the draft |
| App.Container.SubmitDraft | frontend/src/App.tsx:140-174 | after a failed add: only the failure alert, with dialog, draft, caches and loading kept; after success: dialog closed, a refresh that keeps the caches of the views not on screen, and the draft reset to the initial one |
| App.Container.HandleAdd | frontend/src/App.tsx:126-175 | rejected exactly when sample id, project or subject is blank, with the first such field's alert, no request, and dialog, draft, every cache and loading kept; otherwise as `SubmitDraft` |
| App.Container.SubmitAddDialog | frontend/src/App.tsx:241-246 | the dialog hands a draft to the container exactly when nothing is missing by its check; a refused draft leaves the container as it was and shows the "Missing Required Fields" notification listing the missing fields; a passed draft leaves the notification alone, counts one hand-off and is handled as by `HandleAdd`, and if its project is not blank it is never rejected by the container |
| Sidebar.NavItemsOfferFourViews | frontend/src/components/Sidebar.tsx:38-63 | four navigation items, all different, covering every view except baseline |
| Sidebar.Navigate | frontend/src/components/Sidebar.tsx:117-122 | a click sets the view and then runs only that view's loader, none for the samples view, and keeps every other view's cache |
| Sidebar.ChooseFile | frontend/src/components/Sidebar.tsx:87-93 | while loading, or when no file is chosen, nothing changes; otherwise the file is uploaded, everything is refreshed, loading ends false, and the caches of the views not on screen are kept |
| Sidebar.OpenAddDialog | frontend/src/components/Sidebar.tsx:96-97 | the button opens the add dialog and does nothing else |
| ResponseAnalysisView.Fill | frontend/src/components/ResponseAnalysis.tsx:15 | `Array(n).fill(x)` holds `n` copies of `x` |
| ResponseAnalysisView.PlotData | frontend/src/components/ResponseAnalysis.tsx:14-37 | two traces, responders then non-responders, each with x and y as long as the group's values summed over all entries |
| ResponseAnalysisView.AlignedLengths | frontend/src/components/ResponseAnalysis.tsx:15-18 | the x and y sequences of a trace have one element per value, over all entries |
| ResponseAnalysisView.CoordinateOfValue | frontend/src/components/ResponseAnalysis.tsx:15-18 | value `j` of entry `i` sits at position `offset(i) + j` of y, in analysis order, with the entry's population at the same position of x |
| ResponseAnalysisView.EntryOf | frontend/src/components/ResponseAnalysis.tsx:15-18 | every position of a trace lies within exactly the span of one entry |
| ResponseAnalysisView.XNamesContributor | frontend/src/components/ResponseAnalysis.tsx:15-18 | `x[k]` is the population of the entry whose value is `y[k]` |
| ResponseAnalysisView.SignificanceTable | frontend/src/components/ResponseAnalysis.tsx:119-132 | one row per entry, in input order, with its population and its p-value, labelled "Significant" iff the p-value is below 0.05 and "Not Significant" otherwise, so exactly 0.05 is not significant |
| ResponseAnalysisView.SelectAnalysisParam | frontend/src/components/ResponseAnalysis.tsx:49-88 | an analysis select stores its option as given and keeps every other field |
| ResponseAnalysisView.NoneTreatmentKeepsEmptyText | frontend/src/components/ResponseAnalysis.tsx:66-76 | the "none" treatment stores "" rather than clearing the field; choosing again what a field holds changes nothing |
| NumberParsing.ParseIntOr | frontend/src/components/FilterSummarize.tsx:229 | `parseInt(text, 10) \|\| fallback` is the fallback for NaN and 0, and otherwise the parsed number |
| NumberParsing.ParseIntRoundTrip | frontend/src/components/FilterSummarize.tsx:95-99 | `parseInt` reads every integer's decimal numeral back as that integer |
| NumberParsing.PyIntRoundTrip | backend/app.py:104 | Python's `int` reads every integer's decimal numeral back as that integer |
| Text.BlankIff | frontend/src/App.tsx:127 | a text is blank after `trim()` iff all its characters are whitespace |
| Text.SplitJoin | backend/app.py:102 | `split` undoes `join` when no piece holds the separator |
| Text.SplitCount | backend/app.py:103 | a text splits into one more piece than it has separators |
| WhereClause.ConstrainedExact | backend/app.py:265-278 | the constrained columns are exactly the endpoint's columns whose parameter is set, each once, in the order condition, treatment, sample type, time; the response analysis never constrains the time |
| WhereClause.ConstrainedInOrder | backend/app.py:308-321 | the constrained columns are the four tests' contributions one after the other, and the response analysis has no time test |
| WhereClause.ResponseAnalysisIgnoresTime | backend/app.py:164-174 | the time parameter has no effect on the response analysis's clauses |
| WhereClause.Push | backend/app.py:265-267 | one test keeps clauses and arguments aligned with the constrained columns |
| WhereClause.BuildClauses | backend/app.py:308-320 | clause `k` tests constrained column `k`, and argument `k` is that column's parameter value |
| WhereClause.OnePlaceholderPerClause | backend/app.py:266-277 | every clause holds exactly one `?` |
| WhereClause.WhereTextPlaceholders | backend/app.py:278 | the WHERE text is "1=1" exactly when no tested parameter is set, and it holds one `?` per argument |
| WhereClause.Where | backend/app.py:164-174 | the WHERE text is the `" AND "` join of the clause texts of the set parameters' columns, in order, or "1=1" when there are none; it is "1=1" exactly when no parameter is set, its placeholders match the arguments, and argument `k` is the value of the `k`-th set parameter |
| CellData.ParseItemShape | backend/app.py:103-104 | an item parses iff it is a cell type without ":", then ":", then a Python integer; an item without exactly one ":" raises |
| CellData.DecodedFails | backend/app.py:102-104 | decoding fails exactly when some item fails to parse |
| CellData.DecodedKeys | backend/app.py:100-105 | a successful decoding maps the cell type of every item, and nothing else |
| CellData.LastItemWins | backend/app.py:104 | the count of a cell type is that of the last item naming it |
| CellData.ParseCellCounts | backend/app.py:335-340 | the parser loop computes the decoding: no text or "" gives the empty map, otherwise the items in order, a failing item failing the whole |
| CellData.ParseRenderedEntry | backend/app.py:325-339 | the server reads a rendered `cell_type:count` item back as the entry |
| CellData.CellDataRoundTrip | backend/app.py:325-340 | decoding the `GROUP_CONCAT` of any entries whose cell types hold no "," or ":" gives back their counts |
| ResponseGrouping.GroupRows | backend/app.py:194-199 | the grouping loop computes the grouped dictionary |
| ResponseGrouping.AddRowFacts | backend/app.py:199 | `setdefault(...).append` keeps each population and key once, and appends the percentage to exactly one list |
| ResponseGrouping.GroupedValues | backend/app.py:194-199 | each population and key appear once, and each list holds that population's percentages with that lower-cased response, a missing one counting as "no", in row order |
| ResponseGrouping.GroupedPopulations | backend/app.py:194-199 | the grouped populations are exactly those of the rows |
| ResponseGrouping.GroupedFirstSeen | backend/app.py:194-202 | the grouped populations come in the order they first appear in the rows |
| ResponseGrouping.GroupedTotal | backend/app.py:194-199 | the grouped lists together hold one value per row |
| ResponseGrouping.PValue | backend/app.py:205-208 | the p-value is 1.0 when either group has fewer than two values, and otherwise the test's value |
| ResponseGrouping.BuildResults | backend/app.py:201-216 | one result per group, in order, with its "yes" and "no" lists, [] when missing, and their p-value |
| ResponseGrouping.GroupsHoldFiltered | backend/app.py:202-204 | every group's list under a key is that population's percentages with that key |
| ResponseGrouping.ResultPopulations | backend/app.py:201-216 | one result per population of the rows, each population once, in first-seen order |
| ResponseGrouping.ResultValues | backend/app.py:201-216 | each result's responders are its "yes" percentages and its non-responders its "no" percentages, and its p-value follows the fallback rule |
| ResponseGrouping.AnalyzeRows | backend/app.py:194-216 | after the query, the response analysis: one result per population in first-seen order, its "yes" and "no" percentages in row order, and p = 1.0 unless both have two values |
| SummaryKeys.SummaryKeyCollisions | backend/app.py:245 | two different values share a key iff both are missing, empty or "unknown"; any other value is its own key |
| SummaryKeys.ComprehensionKeys | backend/app.py:285 | a dictionary comprehension's keys are exactly its rows' keys |
| SummaryKeys.LastPairWins | backend/app.py:285 | the count under a key is that of the last row with that key |
| SummaryKeys.SummaryCounts | backend/app.py:291 | every row is counted under its summary key, the last of rows sharing a key winning |
| SummaryKeys.SummaryUnknownKey | backend/app.py:291-297 | a summary holds "unknown" iff some row's value is missing, empty or "unknown" |
| SummaryKeys.SummaryOtherKeys | backend/app.py:254 | any other key is a non-empty value some row holds as it is |
| SummaryKeys.FilterSummaryKeys | backend/app.py:281-303 | the filter summary's projects are exactly those of its rows, and its response and sex dictionaries hold "unknown" iff some row's value is missing, empty or "unknown" |

## Left out

- The pagination code is shared word for word by `frontend/src/components/SampleOverview.tsx:117-119`, `frontend/src/components/PopulationFrequencies.tsx:20-22` and `frontend/src/components/FilterSummarize.tsx:28-30`. It is modelled once, and each row above cites one of the three copies.
- JavaScript numbers are modelled as unbounded integers. Page arithmetic never reaches 2^53, and NaN only arises from `parseInt`, which is modelled by `None`.
- FilterSummarize.SelectTime: requires the chosen option to be "" or a readable number, because the select offers only "", "0", "7" and "14". The NaN that other text would store is not modelled.
- AddSampleModal.ApplyEdit: requires the time option to read as a number, for the same reason; the dialog's time options are "0", "7" and "14".
- Text.Trim: the whitespace of JavaScript's `trim()` is modelled as the ASCII whitespace plus no-break space, the line and paragraph separators and the byte-order mark; the other Unicode space separators are not.
- Text.Lower: lower-cases ASCII letters only, where Python's `str.lower()` covers all of Unicode.
- NumberParsing.PyInt: does not accept Python's digit-group underscores or non-ASCII digits, and trims with the whitespace set of `Text.Trim`, which differs from that of Python's `str.strip()`: Python does not strip U+FEFF, and does strip U+001C to U+001F and U+0085.
- NumberParsing.ParseInt: reads decimal digits only, as with radix 10, and does not model values beyond 2^53.
- AddSampleModal.NumericInput: the source calls `Number.parseInt(text)` without a radix, which would read a "0x" prefix as hexadecimal; it is modelled with the decimal `ParseInt`. The input has `type="number"`, which does not produce such text.
- ResponseGrouping.PValue: the Mann-Whitney U test is a function parameter, and `round(p, 4)` is not modelled. `round(1.0, 4)` is 1.0, so the fallback value is exact.
- Percentages are exact reals. `float(...)`, SQL `ROUND` and every `toFixed` are floating-point formatting and are not modelled.
- App.Container.LoadSamples, LoadFrequencies, LoadAnalysis and ApplyFilters: the server's answers are arbitrary values, and the contracts state the requests and flags rather than the data.
- A failing request other than `addSample` is not modelled, because the source does not catch it.
- The server's `detail` is modelled as an optional text. A detail that is not a string, shown by JavaScript's string conversion, is not modelled.
- React effects and async interleaving are not modelled; every handler is one atomic step. This includes the effect that reloads the analysis when its parameters or the view change (`frontend/src/App.tsx:85-89`), and the second analysis load this causes after navigation.
- SQL is not modelled: the queries, joins, `COUNT`, SQLite itself, the database module `backend/database.py` and the temporary file of the upload. The model starts from the rows a query returns.
- `GROUP_CONCAT` has no defined order. The round trip holds for the entries in whatever order the database concatenates them.
- SummaryKeys.Summary: a project row's key is modelled as a text; a missing project, which Python would key as `None`, is not modelled.
- Plotly rendering, CSS classes, icons, layout, the top bar, the CORS and server setup, and `frontend/src/api.ts` beyond its record types.
