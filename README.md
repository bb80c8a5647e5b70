# Medical professional finder — a Dafny model of its search core

The application looks up doctors near an address. A server action geocodes the
address, asks a places service for nearby doctors of a specialty, looks up each
place's details and its road distance, assembles one record per place, drops the
places whose details failed and sorts the rest by distance. The page then splits
the records into *included* and *excluded* ones with a configurable filter (an
empty-field rule and a list of excluded keywords), can narrow the included ones
further with a quick-filter term, and lets the user select, save and export rows.

This project models that core in Dafny and proves what each part promises:

- `FilterUtils` — the filter engine (`filterResults`): an imperative pass with the
  early-exit keyword loop, proved equal to a partition function, plus the laws of
  that partition (a split of the input, order kept, the empty-field rule, the
  keyword rule, case and keyword-order independence).
- `DistanceMatrix` — `findSmallestDistance`: the nested loops, proved to return the
  first row-major minimum among the elements with status `OK`, or `Infinity` with
  indices −1, −1.
- `Actions` — the decision logic of `searchMedicalProfessionals` once the service
  responses are known: the fatal errors, per-place assembly with its fallbacks, the
  `filter(Boolean)` drop and the stable sort by distance.
- `ExportUtils` — `convertToCSV` and `escapeCsvValue`: the header, one line per
  record, the escape/unescape round trip and "eight fields per line" stated on a
  scanner that counts separators outside quoted regions.
- `FilterSettings` — the configuration editor: toggle, add and remove keyword, and
  the invariant that the keyword list stays lowercase and duplicate-free.
- `ResultsList` — the results table's record keys and its selected / saved / saving
  sets, as a class whose methods update them.
- `SearchForm` — the search form's fields, the custom-specialty switch, the submit
  guard and the submit button condition, as a class.
- `SearchPage` — the page session (`handleSearch`, `updateFilterConfig`,
  `handleQuickSearch`) as a class with an invariant tying the displayed partition
  to the raw results, the configuration and the quick-filter term.
- `Types`, `Text`, `Seqs`, `Wrappers` — the records of `lib/types.ts`, lowercase /
  substring / whitespace removal on strings, `Array.prototype.filter` on sequences,
  and `Option` / `Result`.

Modelling choices:

- Distances are whole metres (`Finite(m)`), as the distance-matrix service reports
  them, and `Infinite` stands for JavaScript's `Infinity`. The record's kilometre
  value `m / 1000` appears only as text, in the CSV distance column, where
  `KilometresText` writes it in the shortest decimal form.
- Coordinates are integers; a zero coordinate still falls back as the source's `||`
  does.
- The network responses are inputs: the geocode and places responses are values,
  and the details and distance-matrix lookups are functions from a place id and
  from an (origin, destination) pair.
- A database insert is a boolean input (success or failure), as is the presence of
  a database client.
- The page's search handler takes the outcome of the search action as a `Result`.

Two points of the code that the model keeps as written:

- The record type documents its distance as miles, but the search stores
  kilometres (`distance / 1000`). The model fixes the unit as stated above.
- `handleQuickSearch` recomputes `filterResults(results, filterConfig)` from the raw
  results on every keystroke and then narrows it by the term. A configuration change
  or a new search shows the plain partition while the term stays in the search box.
  `SearchPage.Session.Valid` states exactly these two possible displays.

## Model

| member | source | states |
|---|---|---|
| `Text.Lower` | lib/filter-utils.ts:19-24 | lowercasing keeps the length and lowercases every character (ASCII letters only) |
| `Text.ContainsAt` | lib/filter-utils.ts:26-28 | `includes(t)` holds exactly when `t` occurs at some position of the string |
| `Text.RemoveWhitespace` | components/results-list.tsx:91 | `replace(/\s+/g, "")` leaves no whitespace and keeps exactly the non-whitespace characters |
| `Text.RemoveWhitespaceIsFilter` | components/results-list.tsx:91 | removing whitespace keeps exactly the non-whitespace characters, in order and with their repetitions |
| `Text.RemoveWhitespaceConcat` | components/results-list.tsx:91 | removing whitespace distributes over concatenation |
| `FilterUtils.DecideExclusion` | lib/filter-utils.ts:8-34 | the empty-field check followed by the keyword loop that breaks at the first match decides exactly the rule: exclude iff the empty-field rule is on and a required field is empty, or some keyword occurs, ignoring case, in the name, address or workplace |
| `FilterUtils.FilterResults` | lib/filter-utils.ts:3-45 | the loop with the empty-field flag and the keyword loop that breaks at the first match returns the partition: kept records and excluded records, each in input order |
| `FilterUtils.PartitionIsSplit` | lib/filter-utils.ts:7-42 | every record lands in exactly one list: lengths add up and the multisets' union is the input |
| `FilterUtils.PartitionKeepsOrder` | lib/filter-utils.ts:37-41 | both lists are subsequences of the input |
| `FilterUtils.PartitionMembership` | lib/filter-utils.ts:36-41 | a record is excluded iff it is in the input and the rules exclude it, included iff it is in the input and they do not |
| `FilterUtils.PartitionIdentity` | lib/filter-utils.ts:11-18 | with the empty-field rule off and no keywords, everything is included and nothing excluded |
| `FilterUtils.EmptyFieldRule` | lib/filter-utils.ts:11-15 | with the rule on, an empty name, address, workplace or phone excludes; the specialty never matters |
| `FilterUtils.KeywordRule` | lib/filter-utils.ts:18-33 | a record passing the empty-field rule is excluded iff some lowercased keyword is a substring of its lowercased name, address or workplace; the phone is not searched |
| `FilterUtils.KeywordsUpToCaseAndOrder` | lib/filter-utils.ts:23-33 | keyword lists with the same lowercased words, in any order, case or repetition, give the same partition, so the `break` does not matter |
| `FilterUtils.RecordCaseInsensitive` | lib/filter-utils.ts:19-21 | records whose searched fields differ only in letter case get the same decision |
| `FilterUtils.ApolloExample` | lib/filter-utils.ts:11-41 | with the rule on and keyword "apollo", a complete record is kept while one without a phone and one working at "Apollo Health" are excluded, in order |
| `DistanceMatrix.FindSmallestDistance` | app/actions.ts:113-137 | the nested loops compute the row-major scan with the strict `<` comparison |
| `DistanceMatrix.SmallestDistanceIsFirstMinimum` | app/actions.ts:114-136 | no OK element gives (`Infinity`, −1, −1); otherwise the indices address an OK element whose value is the result, no OK value is smaller, and every OK element before it in row-major order is strictly larger |
| `Actions.AssemblePlace` | app/actions.ts:53-83 | a place is dropped iff its details status is not OK; otherwise name, address and phone fall back on the place's name, vicinity and "Not available", the workplace is the place's name, the specialty the searched one, each coordinate falls back on the place geometry when missing or zero, and the distance is the smallest matrix distance from the origin |
| `Actions.AssembleAll` | app/actions.ts:52-85 | one assembly per place, in place order |
| `Actions.Present` | app/actions.ts:90 | `filter(Boolean)` keeps the assembled records in order: one per successful lookup, the `i`-th record being the `i`-th successful lookup's, and nothing else |
| `Actions.SortByDistance` | app/actions.ts:91 | the result is sorted by distance, a missing distance counting as 0, and is a permutation of the input |
| `Actions.InsertSorted` | app/actions.ts:91 | inserting into a sorted list keeps it sorted |
| `Actions.SortIsStable` | app/actions.ts:91 | records sharing a sort key keep their input order |
| `Actions.SortedMembers` | app/actions.ts:91 | sorting keeps the length and the members |
| `Actions.Search` | app/actions.ts:21-96 | the search fails with the missing-key error exactly when no key is configured; a successful search is sorted by distance and holds at most one record per place |
| `Actions.SearchFailsOnlyFatally` | app/actions.ts:23-49 | the search fails iff the API key is missing, the geocode status is not OK or has no result, or the places status is not OK; the geocode error is raised exactly on the geocode conditions |
| `Actions.SearchResult` | app/actions.ts:21-91 | a search with a key, an OK geocode with a result and an OK nearby search succeeds; the result is sorted, has one record per place whose details are OK, holds exactly the records assembled from those places, is a permutation of them, and keeps their place order among records of equal distance |
| `Actions.PresentCount` | app/actions.ts:59-90 | the number of records kept equals the number of places whose details are OK |
| `Actions.SearchAllDetailsFailed` | app/actions.ts:59-91 | when every details lookup fails the search succeeds with no records |
| `ExportUtils.DoubleQuotes` | lib/export-utils.ts:44 | doubling adds exactly one character per double quote of the value |
| `ExportUtils.EscapeCsvValue` | lib/export-utils.ts:40-49 | a value without comma, quote or newline is unchanged (the empty value included); any other is wrapped in quotes |
| `ExportUtils.CollapseDoubled` | lib/export-utils.ts:44 | collapsing `""` back to `"` undoes the quote doubling |
| `ExportUtils.EscapeRoundTrip` | lib/export-utils.ts:42-48 | stripping the quotes and collapsing doubled quotes recovers every value |
| `ExportUtils.EscapedIsBalanced` | lib/export-utils.ts:40-49 | an escaped value adds no separator or line end outside quotes and ends outside quotes |
| `ExportUtils.NatText` | lib/export-utils.ts:25-27 | a number's text is a non-empty digit string with no leading zero |
| `ExportUtils.NatTextValue` | lib/export-utils.ts:25-27 | the digits read back as the number they were written from |
| `ExportUtils.MilliDigitsValue` | app/actions.ts:82 | the fraction digits of `f / 1000` are one to three digits, the last non-zero, denoting `f` thousandths |
| `ExportUtils.FractionDigitsValue` | app/actions.ts:82 | tenths, hundredths and thousandths digits, not all zero, written without trailing zeros read back as the thousandths they spell |
| `ExportUtils.KilometresTextValue` | lib/export-utils.ts:25 | the kilometre text of `m` metres reads back as exactly `m / 1000`: an integer when it is whole, otherwise a whole part, a point and the shortest fraction |
| `ExportUtils.DistanceText` | lib/export-utils.ts:25 | the distance column is empty exactly when the record has no distance |
| `ExportUtils.ScanJoin` | lib/export-utils.ts:15 | `join(",")` of fields that add no separator of their own puts exactly one separator between neighbours |
| `ExportUtils.NumbersArePlain` | lib/export-utils.ts:25-27 | distance and coordinate texts need no quoting |
| `ExportUtils.RowFields` | lib/export-utils.ts:19-28 | one field per header; the distance column is empty exactly when the record has no distance |
| `ExportUtils.ScanRowShape` | lib/export-utils.ts:19-29 | each data line holds exactly 7 separators and 1 line end outside quotes, i.e. 8 fields |
| `ExportUtils.ScanRowsShape` | lib/export-utils.ts:18-30 | the data lines hold 7 separators and 1 line end per record |
| `ExportUtils.HeaderShape` | lib/export-utils.ts:12-15 | the header line holds 8 fields and one line end |
| `ExportUtils.AppendRows` | lib/export-utils.ts:18-30 | the `forEach` loop appends the records' lines, in order, to the header |
| `ExportUtils.ConvertToCsv` | lib/export-utils.ts:8-33 | the empty list gives the empty text, any other the header line followed by the data lines |
| `ExportUtils.CsvShape` | lib/export-utils.ts:8-33 | the empty list gives ""; otherwise the text starts with the header line and holds 8 fields on each of its `n + 1` lines |
| `FilterSettings.ToggleEmptyFields` | components/filter-settings.tsx:19-24 | the flag flips and the keywords are untouched |
| `FilterSettings.ToggleTwice` | components/filter-settings.tsx:19-24 | toggling twice restores the configuration |
| `FilterSettings.AddKeyword` | components/filter-settings.tsx:26-31 | an accepted keyword (non-empty, lowercase form absent) is appended lowercased; otherwise the configuration is unchanged |
| `FilterSettings.RemoveKeyword` | components/filter-settings.tsx:36-41 | every occurrence of the keyword goes, and every other keyword stays, in order and with its copies: the multiset loses exactly the removed keyword |
| `FilterSettings.DefaultIsWellFormed` | app/page.tsx:32-35 | the default keywords are lowercase and duplicate-free |
| `FilterSettings.AddKeepsWellFormed` | components/filter-settings.tsx:27-30 | adding keeps the keywords lowercase and duplicate-free |
| `FilterSettings.RemoveKeepsWellFormed` | components/filter-settings.tsx:36-41 | removing keeps the keywords lowercase and duplicate-free |
| `FilterSettings.AddThenRemove` | components/filter-settings.tsx:26-41 | adding a fresh keyword then removing it restores the configuration |
| `FilterSettings.KeywordInput.constructor` | components/filter-settings.tsx:17 | the input starts empty |
| `FilterSettings.KeywordInput.SetNewKeyword` | components/filter-settings.tsx:17 | the input holds the typed text |
| `FilterSettings.KeywordInput.HandleAddKeyword` | components/filter-settings.tsx:26-34 | an accepted keyword yields the added configuration and clears the input; otherwise nothing changes |
| `ResultsList.RecordKey` | components/results-list.tsx:91 | a key never contains whitespace |
| `ResultsList.SameKeyUpToWhitespace` | components/results-list.tsx:91 | records whose name and address differ only in whitespace share a key |
| `ResultsList.KeysOfCard` | components/results-list.tsx:140 | there are never more keys than rows |
| `ResultsList.RepeatedKeyShrinks` | components/results-list.tsx:135-141 | two rows with one key leave fewer keys than rows |
| `ResultsList.SelectAllNeverClearsWithDuplicates` | components/results-list.tsx:134-141 | with duplicate keys a selection of shown keys never has the row count, so select-all never clears |
| `ResultsList.Toggled` | components/results-list.tsx:122-132 | only the toggled id changes membership |
| `ResultsList.ToggleTwice` | components/results-list.tsx:122-132 | toggling an id twice restores the set |
| `ResultsList.UnsavedSelectionSpec` | components/results-list.tsx:151-154 | a batch save takes exactly the selected rows not yet saved, in row order and each as often as it is shown: the selection filtered by not-saved, a subsequence of the rows |
| `ResultsList.SaveSelectedTwiceSavesNothing` | components/results-list.tsx:151-177 | after a successful batch save, saving the same selection again takes nothing |
| `ResultsList.Selection.constructor` | components/results-list.tsx:35-38 | all three sets start empty and no batch save runs |
| `ResultsList.Selection.ToggleSelect` | components/results-list.tsx:122-132 | the selection is toggled at the id and nothing else changes |
| `ResultsList.Selection.SelectAll` | components/results-list.tsx:134-143 | a selection of the row count's size is cleared; otherwise it becomes all row keys |
| `ResultsList.Selection.BeginSave` | components/results-list.tsx:81-92 | without a client nothing happens; otherwise the key joins the saving set |
| `ResultsList.Selection.FinishSave` | components/results-list.tsx:94-119 | the key joins the saved set only on success and leaves the saving set either way |
| `ResultsList.Selection.BeginSaveSelected` | components/results-list.tsx:145-166 | no client or no selection returns nothing and leaves the flag; otherwise the batch is the selected unsaved rows and the flag is raised exactly when it is non-empty |
| `ResultsList.Selection.FinishSaveSelectedAsWritten` | components/results-list.tsx:168-193 | on success the saved set becomes the snapshot the handler began with plus the batch's keys; on failure it is unchanged; the flag drops |
| `ResultsList.Selection.FinishSaveSelected` | components/results-list.tsx:168-193 | on success the batch's keys join the current saved set, which never loses a key; the flag drops |
| `ResultsList.LostSaveScenario` | components/results-list.tsx:105-177 | a single save completing during a batch insert is lost from the saved set |
| `ResultsList.Selection.SaveSelected` | components/results-list.tsx:145-193 | no client or no selection does nothing; otherwise the batch is the selected unsaved rows, their keys join the saved set only on success, and the saving flag ends cleared |
| `ResultsList.Selection.ExportSelected` | components/results-list.tsx:217-230 | an empty selection exports nothing; otherwise the selected rows in row order |
| `SearchForm.Form.constructor` | components/search-form.tsx:33-37 | empty fields, radius "10", not custom; the form invariant holds |
| `SearchForm.Form.SetAddress` | components/search-form.tsx:71 | only the address changes |
| `SearchForm.Form.SetRadius` | components/search-form.tsx:84 | only the radius changes |
| `SearchForm.Form.SetCustomSpecialty` | components/search-form.tsx:115 | only the custom specialty changes |
| `SearchForm.Form.HandleSpecialtyChange` | components/search-form.tsx:53-61 | "custom" enters custom mode and clears the specialty, any other value leaves it and becomes the specialty; the custom text is kept and the invariant holds |
| `SearchForm.Form.HandleSubmit` | components/search-form.tsx:39-51 | nothing is submitted iff the address, the radius or both specialty texts are empty; the submission carries the custom text in custom mode, the specialty otherwise |
| `SearchForm.Form.EnabledSpecialtyPassesGuard` | components/search-form.tsx:121 | an enabled button implies the guard's specialty condition |
| `SearchForm.Form.SubmitEnabledSpec` | components/search-form.tsx:121 | in a valid state the button is enabled exactly when no search runs and the form would submit a non-empty specialty |
| `SearchForm.GuardPassesWithEmptySpecialty` | components/search-form.tsx:42-59 | out of custom mode with only custom text, the guard passes and an empty specialty is submitted, while the button is disabled |
| `SearchPage.MatchesTermSpec` | app/page.tsx:98-104 | a record matches exactly when the term occurs in its lowercased name, specialty, workplace or address; a term with an upper-case letter matches nothing |
| `SearchPage.QuickFilter` | app/page.tsx:97-106 | the excluded list passes through and the included list can only shrink |
| `SearchPage.QuickFilterEmptyTerm` | app/page.tsx:90-92 | the empty term changes nothing |
| `SearchPage.QuickFilterSpec` | app/page.tsx:95-106 | the quick-filtered included list is exactly the raw results the configuration keeps and the term matches (in name, specialty, workplace or address), in order and each as often as it occurs, a subsequence of the kept list; excluded is the configuration's |
| `SearchPage.NewCenter` | app/page.tsx:53-63 | the centre moves only onto the coordinates of one of the results |
| `SearchPage.NewCenterSpec` | app/page.tsx:53-63 | the map centres on the first kept record, else on the first record, and stays put when there are none |
| `SearchPage.Session.constructor` | app/page.tsx:24-37 | empty results and display, no centre, the default configuration, empty term |
| `SearchPage.Session.BeginSearch` | app/page.tsx:40-45 | loading starts, the error clears, the current configuration is captured, nothing else changes |
| `SearchPage.Session.FinishSearchAsWritten` | app/page.tsx:45-74 | success stores the results, their partition under the captured configuration and the new centre; failure stores the message and empties results and display; loading ends |
| `SearchPage.Session.FinishSearch` | app/page.tsx:45-74 | as above with the configuration in force when the response arrives; the invariant is kept |
| `SearchPage.Session.HandleSearch` | app/page.tsx:40-75 | with nothing intervening: success stores the results, their partition and the new centre; failure stores the message and empties results and display; loading ends; the invariant is kept |
| `SearchPage.StaleConfigScenario` | app/page.tsx:40-83 | a configuration change during a search leaves the new results partitioned under the old configuration, breaking the invariant |
| `SearchPage.Session.UpdateFilterConfig` | app/page.tsx:77-83 | the configuration is replaced and, with results, the display is their new partition; without results it is untouched; the invariant is kept |
| `SearchPage.Session.HandleQuickSearch` | app/page.tsx:85-111 | the term is the lowercased input; with results the display is recomputed from them, plain for an empty term and quick-filtered otherwise; without results it is untouched |
| `SearchPage.DisplayedPartition` | app/page.tsx:77-106 | in every valid session state (no configuration change while a search is pending; see Findings) the excluded list shown is the config's and the included list is drawn in order from the config's kept records |

## Left out

- The service calls of the search action (geocode, nearby search, details, distance matrix) are not modelled as I/O. Their responses are inputs: values for geocode and places, functions for details and the distance matrix.
- The concurrent `Promise.all` fan-out over places is modelled as a sequential map in place order. Its result is the same.
- The radius conversion to metres (`* 1609.34`) is floating point and only feeds the places request URL. The radius stays the text the user typed, and `Number(radius)` is not modelled.
- The division `distance / 1000` is not performed on records. Records hold metres, and the kilometre value exists only as CSV text.
- The haversine helper in lib/distance-utils.ts is trigonometric floating point and is never called; it is not part of this model.
- Database I/O is not modelled: `saveProfessional`, the server client, the saved-results fetch and the inserts of the results table. An insert is a success/failure input, and the client's presence is a boolean.
- Browser effects are not modelled: `exportToCSV` and `exportToExcel` (Blob and download link), `handleExportAll`, clipboard copying, toasts, timers, console logging and all rendering. The excluded-results and map components are not part of this model.
- Page state that only drives the layout (`isOptionsExpanded`, `showMap`) is not modelled.
- Text.Lower: lowercases ASCII letters only, not the full Unicode case mapping of `toLowerCase`.
- ExportUtils.NumbersArePlain: coordinates are integers, so their text is an integer's decimal form rather than JavaScript's rendering of a floating-point number.
- SearchForm.Form.HandleSubmit: the browser's own validation of `required`, `min` and `max` input attributes is not modelled, only the handler's guard.
- ResultsList.Selection: the table's `results` are fixed for one object, while in the source the selection state outlives a change of the results list.
- SearchPage.Session.HandleSearch: modelled as one step with nothing happening during the search request. The source awaits the request, and the filter panel stays usable meanwhile; `BeginSearch`, `FinishSearchAsWritten` and `StaleConfigScenario` model that interleaving (see Findings). Quick-filter keystrokes during the request, which act on the old results, are not modelled.
- ResultsList.Selection.SaveSelected: modelled as one step with nothing happening during the batch insert. The source awaits the insert, and single saves can complete meanwhile; `BeginSaveSelected`, `FinishSaveSelectedAsWritten` and `LostSaveScenario` model that interleaving (see Findings). Interleavings of two batch saves are not modelled.
- Actions.AssemblePlace: a text field missing from a details or places response is taken as the empty string, so `details.formatted_address || place.vicinity` with both missing gives "" rather than `undefined`. The TypeError the source then raises when the filter lowercases the address (lib/filter-utils.ts:20, with the empty-field rule off and a keyword set) or when the quick search does (app/page.tsx:103) is not modelled; in the source that search is reported as failed with no results.
- SearchPage.DisplayedPartition: holds for the valid states only; after the as-written interleaving of `StaleConfigScenario` the excluded list on screen is not the configuration's.
- SearchPage.Session.HandleSearch: the loading flag is only observable after the search ends, and the error message is the fixed text; the search action's own error kinds are not shown to the user.

## Findings

| source | as written | input that shows it | evidently intended | confidence | as-written member | corrected member |
|---|---|---|---|---|---|---|
| app/page.tsx:45-49 | `handleSearch` partitions the response with the `filterConfig` its closure captured when the search began | start a search, switch the empty-field rule off while it runs, receive one record without a phone: it is listed as excluded although the rule in force keeps it (`SearchPage.StaleConfigScenario`) | partition under the configuration in force when the response arrives, as `updateFilterConfig` does | medium, not executed | `SearchPage.Session.FinishSearchAsWritten` | `SearchPage.Session.FinishSearch` |
| components/results-list.tsx:171-177 | `handleSaveSelected` builds the new saved set from the `savedIds` its closure captured when it began | select row B, start the batch save, save row A on its own while the insert runs: after the batch completes A's key is no longer saved (`ResultsList.LostSaveScenario`) | add the batch's keys to the current saved set, as the single save's functional update at line 105 does | medium, not executed | `ResultsList.Selection.FinishSaveSelectedAsWritten` | `ResultsList.Selection.FinishSaveSelected` |
