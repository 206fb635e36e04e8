# Admin dashboard view model

A Dafny model of the logic inside the `AdminDashboard` React component of a
personnel-records dashboard. The component shows a fixed dataset of records
(name, phone number, email, experience level, profession) in a paginated
table. The user can search by name, filter by level, move between pages,
change the rows per page, and download the filtered records as CSV.

The model has four modules:

- `Text` (text.dfy): ASCII lower-casing and substring containment, the two
  string operations the search uses (`toLowerCase`, `includes`).
- `Records` (filter.dfy): the record type, the match test and the stable
  filter behind `filteredData`. The lemmas cover soundness and completeness,
  multiplicities, order preservation, identity on the initial criteria,
  idempotence and case-insensitivity.
- `CsvExport` (csv.dfy): the projection of filtered records to export rows
  behind `csvData`. As in the code, the `'Serial Number'` key holds the
  record's `first_name`.
- `Dashboard` (dashboard.dfy): a class holding the view state. The fields are
  the search text, the level selector, the unfiltered table's page index,
  and the filtered table's page index and page size. There is one method per
  event handler. Each method states the new value of every field.

Two behaviours of the code are worth stating plainly:

- `handleFilterChange` calls `gotoPage(0)` on the table over the
  *unfiltered* data, which this component never renders and whose page index
  no other handler moves, so that index is 0 in every state (`Valid`).
  `handleFilterChange` itself does not reset the filtered table
  (`HandleFilterChange`).
- The export's `'Serial Number'` column repeats the name
  (`SerialNumberRepeatsName`). It is not an ordinal.

## Model

| member | source | states |
|---|---|---|
| Text.LowerChar | src/Components/AdminDashboard.js:89 | The result is never an upper-case ASCII letter. Non-letters are kept. 'A'..'Z' map to 'a'..'z' by the fixed ASCII offset. |
| Text.ToLowerCase | src/Components/AdminDashboard.js:89 | Keeps the length. Lower-cases each character in place. No upper-case ASCII letter is left. |
| Text.ToLowerCaseIdempotent | src/Components/AdminDashboard.js:89 | Lower-casing twice gives the same result as once. |
| Text.Includes | src/Components/AdminDashboard.js:89 | The empty needle is always included. A needle longer than the text is never included. |
| Text.IncludesIff | src/Components/AdminDashboard.js:89 | `includes` holds exactly when the needle occurs at some position of the text (both directions). |
| Records.Filter | src/Components/AdminDashboard.js:86-93 | The result is no longer than the data. Every record it keeps is in the data and matches the search text and level. |
| Records.FilterMembership | src/Components/AdminDashboard.js:87-91 | For every record: it is in the filtered data exactly when it is in the data, its lower-cased name contains the lower-cased search, and the level is "All" or equal (soundness and completeness). |
| Records.FilterCount | src/Components/AdminDashboard.js:86-93 | Each matching record occurs as often in the result as in the data. Each non-matching record does not occur at all. Nothing is duplicated or lost. |
| Records.FilterIsOrderedSubsequence | src/Components/AdminDashboard.js:86-93 | The result is the data read at a strictly increasing list of positions. Those positions are exactly the ones whose records match. The filter is stable: no reordering, no duplication. |
| Records.FilterInitialIsIdentity | src/Components/AdminDashboard.js:86-93 | With the initial criteria (search `''`, level `''`) the filter returns the data unchanged. |
| Records.FilterIdempotent | src/Components/AdminDashboard.js:86-93 | Filtering the filtered data again with the same criteria returns it unchanged. |
| Records.FilterIgnoresSearchCase | src/Components/AdminDashboard.js:89 | Replacing the search text by its lower-cased form does not change the result. |
| Records.FilterAbsentLevel | src/Components/AdminDashboard.js:90 | When no record has the selected level (other than All), the filtered data is empty. |
| Records.SearchScenario | src/Components/AdminDashboard.js:86-93 | With records "Ana" (mid-level) and "Ben" (senior-level), search "an" and level All, the result is exactly [Ana]. |
| CsvExport.ExportRows | src/Components/AdminDashboard.js:116-123 | One row per record, in the same order. Serial Number and Name are `first_name`. Phone Number, Email, Level and Profession are copied from the matching fields. |
| CsvExport.CsvData | src/Components/AdminDashboard.js:116-123 | The export has exactly as many rows as the filtered data. Its inputs are the data, the search text and the level, so no page index or page size can affect it. |
| CsvExport.ExportSound | src/Components/AdminDashboard.js:116-123 | Every exported row is the row of some record in the data that matches the criteria. |
| CsvExport.ExportComplete | src/Components/AdminDashboard.js:116-123 | Every matching record of the data has its row in the export. |
| CsvExport.SerialNumberRepeatsName | src/Components/AdminDashboard.js:117-118 | In every exported row the Serial Number column equals the Name column. |
| CsvExport.ExportAbsentLevel | src/Components/AdminDashboard.js:116-123 | When no record has the selected level, no data row is exported. |
| CsvExport.ExportInitial | src/Components/AdminDashboard.js:116-123 | In the initial state every record is exported, in data order. |
| Dashboard.AdminDashboard.FilteredData | src/Components/AdminDashboard.js:86-93 | The shown records are at most the data. A record is shown exactly when it is in the data and matches the current search text and level. |
| Dashboard.AdminDashboard.CsvRows | src/Components/AdminDashboard.js:116-123 | The download is the export projection of exactly the current filtered data: one row per filtered record, in order. |
| Dashboard.AdminDashboard.constructor | src/Components/AdminDashboard.js:70-113 | Initial state: empty search, level All, both page indexes 0, filtered page size 25, and the state invariant holds. Every record is shown and exported. |
| Dashboard.AdminDashboard.HandleFilterChange | src/Components/AdminDashboard.js:80-83 | Sets the level to the chosen value and the unfiltered table's page index to 0. The search text and the filtered table's page index and size are unchanged. |
| Dashboard.AdminDashboard.HandleChangePage | src/Components/AdminDashboard.js:126-128 | Sets only the filtered page index. The filtered data and the export are unchanged. |
| Dashboard.AdminDashboard.HandleChangeRowsPerPage | src/Components/AdminDashboard.js:130-133 | Sets the filtered page size to the chosen option (10, 25 or 50) and the filtered page index to 0. Nothing else changes, including the export. |
| Dashboard.AdminDashboard.HandleSearchChange | src/Components/AdminDashboard.js:154 | Sets only the search text. No page index is reset. |

## Left out

- Rendering (the JSX, the MUI components and the theme, lines 136-230) is UI only.
- Page slicing, `pageCount` and the page-index bounds check inside `react-table`'s `useTable`/`usePagination` are not part of this model: that library's code is not available. `HandleChangePage`, `HandleChangeRowsPerPage` and `HandleFilterChange` take every `gotoPage` call to set the index, even when the library would refuse an out-of-range index.
- The unfiltered table's rows and page size are never rendered or changed by this component. Only the page index that `handleFilterChange` resets is modelled.
- CSV text serialisation and quoting, the header line and the file download are done by `react-csv`'s `CSVLink`, which is not part of this model. Only the rows handed to it are modelled.
- The contents of `mockData.json` are not modelled: the dataset is an arbitrary sequence of records.
- Records are assumed to carry all five fields as strings. A record without `first_name` would make `toLowerCase` (line 89) throw, and a missing field would be exported as `undefined` (lines 117-122); neither case is modelled.
- Dashboard.AdminDashboard.HandleFilterChange / HandleSearchChange: `react-table`'s automatic page reset when a table's `data` changes (`autoResetPage` of `usePagination`, on by default) is not modelled. `filteredData` is a new array after every search or level change, so in the running program the filtered table returns to page 0; these methods keep `filteredPageIndex` as the handlers' own code does.
- Text.LowerChar: lower-cases ASCII letters only, not the full Unicode case mapping of `toLowerCase`.
- Dashboard.AdminDashboard.HandleChangeRowsPerPage: takes the chosen size as a number from the paginator's options. The `parseInt` of the event's string value is not modelled.
- The "Serial Number" column of the on-screen table (`index + 1`, line 30) is computed by `react-table` at render time and is not modelled.
