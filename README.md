# Generic table data pipeline (gumbaroo), modelled in Dafny

This project models the client-side data pipeline behind gumbaroo's generic table and its
CSV export:

- the **query builder** of a page fetch: offset, limit, one parameter per filter, optional
  start and end dates;
- the **response normaliser**, which turns a body `{data, count}` into columns, rows and a
  count, and the failure paths that leave the table as it was;
- the **sort engine** behind `onSort`: the type-dispatched comparator (numeric difference, or
  `localeCompare`) and the sort it drives over the current rows;
- the **page, page-size and expansion state** of the table component (`onSetPage`,
  `onPerPageSelect`, `setCellExpanded`, `compoundExpandParams`);
- the **CSV converter** `convertToCSV`, which flattens the `latest_commit` / `latest_deploy`
  columns, and the export file name `changelog-M-D-YYYY.csv`.

Files and modules:

- `js_values.dfy`, module `JsValues`: table cells (`Num | Str | Null | Undefined | Obj(id,
  timestamp)`), decimal text of integers and its inverse, and the JavaScript coercions
  the comparator uses (`ToNumber`, `ToString`, truthiness).
- `text.dfy`, module `Text`: splitting and joining on a separator, with the round trip.
- `generic_table.dfy`, module `GenericTable`: the query, the normaliser, the comparator and
  `SortRows`, the expansion map, and the class `Table` holding the component's state
  (`columns`, `rows`, `count`, `expandedCells`, `activeSortIndex`, `activeSortDirection`,
  `page`, `perPage`) with one method per handler.
- `export.dfy`, module `Export`: `ConvertToCsv` (two nested loops over a copied row, as in
  the source) and `Filename` with `ParseFilename`.

Behaviour the code has that is easy to miss, and that the model keeps:

- The ascending string comparison falls through to the descending expression when the left
  cell is falsy. The model keeps this. `AscendingFallthroughInconsistent` shows that the
  comparator then claims both `null > "z"` and `"z" > null`, while the descending
  comparator is consistent on the same rows.
- Only the left operand selects the branch: a number there selects the numeric difference,
  anything else the `localeCompare` branch. Only a string receiver has `localeCompare`, so a
  string-branch call whose receiver is a non-zero (truthy) number or an object throws a
  `TypeError`. The model carries that as the verdict `Thrown`. The argument of
  `localeCompare` is converted with `ToString`, so a null cell compares as the text `"null"`.
- A throwing comparator abandons `rows.sort`, and the rows stay as they were. The sort
  column and direction have already been recorded by then.
- `convertToCSV` throws when a `latest_*` column reads an undefined cell, for example past the
  end of a row, because it reads `undefined.id`. A number or a string in those columns writes
  `undefined` (the cell's `.timestamp`).
- Paging uses the count held at the time of the call. A fetch that fails leaves the
  previous rows and count in place.

## Model

| member | source | states |
|---|---|---|
| `GenericTable.BuildQuery` | src/components/tables/GenericTable.js:52-67 | the query is the API URL, the data path, `?`, and the parameters of `QueryParams` joined by `&` |
| `GenericTable.FilterSuffixJoins` | src/components/tables/GenericTable.js:57-59 | folding the filters onto the query appends exactly one `&field=value` per filter, in list order |
| `GenericTable.QueryRoundTrip` | src/components/tables/GenericTable.js:53-67 | the query starts with URL, path and `?`; reading the rest back gives offset, limit, every filter in order, then `start_date` and `end_date` only when present |
| `GenericTable.QueryParamsLayout` | src/components/tables/GenericTable.js:54-67 | offset reads back as `(page-1)*perPage` and limit as `perPage`; filter `i` is parameter `2+i`; the start date follows the filters and the end date is last; the count of parameters is `2 + filters + dates present` |
| `GenericTable.Normalize` | src/components/tables/GenericTable.js:79-90 | empty `data` gives no columns, no rows and count 0; otherwise one row per record, each as long as its record, with as many columns as the first record has keys, and the body's count |
| `GenericTable.NormalizeRoundTrip` | src/components/tables/GenericTable.js:86-89 | when the records share their key order, pairing each row's values with the columns by position gives back exactly the records |
| `GenericTable.Table.ApplyResponse` | src/components/tables/GenericTable.js:69-93 | a rejection, a non-OK status or a missing `data` is reported, and columns, rows and count are left as they were; a null body changes nothing and reports nothing; a body sets the data to `Normalize(data, count)`; paging, expansion and sort state are untouched |
| `GenericTable.LocaleCompare` | src/components/tables/GenericTable.js:116-122 | `localeCompare` throws exactly when the receiver is not a string; two strings compare by the collation, and a null argument compares as the text `"null"` |
| `GenericTable.CompareRows` | src/components/tables/GenericTable.js:105-124 | the `onSort` comparator: a number in the left cell never throws and gives the difference with the right cell's `ToNumber` in the direction's order (0 when that is NaN; null and `""` read as 0), so two numbers give their difference; it throws exactly when the string branch calls `localeCompare` on a truthy non-string (the left cell when ascending and truthy, otherwise the right cell when truthy); an ascending call with a truthy left cell returns `a.localeCompare(b)`, every other string-branch call with a truthy right cell returns `b.localeCompare(a)`, and a string-branch call that returns nothing counts as 0: two falsy cells, or a descending call (or an ascending one with a falsy left cell) whose right cell is falsy |
| `GenericTable.SortRows` | src/components/tables/GenericTable.js:105-125 | the result is a permutation of the rows; a throwing comparison leaves the rows unchanged and involves two distinct input rows; with a consistent comparator, every neighbouring pair is in comparator order |
| `GenericTable.Table.Sort` | src/components/tables/GenericTable.js:100-127 | records the index and direction; the rows become a permutation of the old rows (unchanged if a comparison throws); a column of numbers never throws and ends up non-decreasing (ascending) or non-increasing (descending); a column of non-empty strings under a sign-symmetric collation never throws and ends up in collation order between neighbours; nothing else changes |
| `GenericTable.NumericSortOutcome` | src/components/tables/GenericTable.js:105-112 | whatever the sort does within its promises, on a column of numbers nothing throws, the column stays numeric and ends up in the direction's order |
| `GenericTable.SortedStringColumn` | src/components/tables/GenericTable.js:114-123 | a sorted column of non-empty strings has `a.localeCompare(b) <= 0` between neighbours ascending, and `b.localeCompare(a) <= 0` descending |
| `GenericTable.StringSortOutcome` | src/components/tables/GenericTable.js:105-123 | on a column of non-empty strings under a sign-symmetric collation, nothing throws, the column stays one of strings, and it ends up in collation order between neighbours |
| `GenericTable.NumericColumnConsistent` | src/components/tables/GenericTable.js:106-112 | on a column of numbers the comparator never throws and never orders two rows both ways |
| `GenericTable.SortedNumericColumn` | src/components/tables/GenericTable.js:106-112 | a sorted numeric column is ordered between any two positions, ascending for ASC and descending for DESC |
| `GenericTable.DescendingStringsConsistent` | src/components/tables/GenericTable.js:114-123 | on a column of strings and nulls the descending comparator is consistent for any collation with `localeCompare`'s sign symmetry |
| `GenericTable.AscendingStringsConsistent` | src/components/tables/GenericTable.js:116-120 | on a column of non-empty strings the ascending comparator is consistent, for any collation with `localeCompare`'s sign symmetry |
| `GenericTable.DirectionsMirror` | src/components/tables/GenericTable.js:106-123 | when both cells are numbers or neither is, an ascending call equals the descending call with the rows swapped, except when the left string cell is falsy and the right one truthy, where ascending equals descending unswapped |
| `GenericTable.AscendingFallthroughInconsistent` | src/components/tables/GenericTable.js:116-123 | with a null and a `"z"` cell the ascending comparator orders the pair both ways, while the descending comparator is consistent on those rows |
| `GenericTable.Table.SetPage` | src/components/tables/GenericTable.js:129-134 | sets the page and empties the expansion map; page size, data and sort state unchanged; the next fetch's query is built from the new page and the old page size |
| `GenericTable.Table.PerPageSelect` | src/components/tables/GenericTable.js:136-146 | always sets the page size; above the count it also resets the page to 1 and empties the expansion map, otherwise page and expansions are kept; the next fetch's query is built from the resulting page and the new size |
| `GenericTable.Table.SetCellExpanded` | src/components/tables/GenericTable.js:148-161 | not expanded: the row maps to the column; expanded: the row's entry is removed; nothing else changes |
| `GenericTable.Toggled` | src/components/tables/GenericTable.js:148-165 | after a toggle the cell is expanded exactly when it was not before, no other column of that row is expanded, and every other row keeps its entry |
| `GenericTable.ToggleTwice` | src/components/tables/GenericTable.js:163-165 | toggling a cell twice restores the map when the row was collapsed or had that cell open, and collapses the row when another column was open |
| `GenericTable.Table.Toggle` | src/components/tables/GenericTable.js:163-166 | `onToggle` calls `setCellExpanded` with `isExpanded`, so the map becomes `Toggled` of the old one and `isExpanded` flips |
| `GenericTable.Table.constructor` | src/components/tables/GenericTable.js:43-50 | a mounted table starts with no data, no expansions, sort index -1 descending, page 1 of size 10 |
| `Export.ConvertToCsv` | src/components/Export.js:47-73 | throws exactly when a latest column reads an undefined cell; otherwise `|rows|+1` lines, the header is the columns verbatim, and data lines follow input order with each row's length; latest cells that are null or have id 0 become `""`, other records become their timestamp, and every cell of the other columns is copied unchanged |
| `Export.Flatten` | src/components/Export.js:59-65 | a latest cell that is null or a record becomes a string, anything else `undefined`; a record with a non-zero id becomes its timestamp, and a non-empty result comes only from such a record |
| `Export.Filename` | src/components/Export.js:75-82 | `getFilename`: the name starts with `changelog-`, ends with `.csv`, and between them holds the one-based month, the day and the year separated by `-` |
| `Export.FilenameRoundTrip` | src/components/Export.js:75-82 | the name is `changelog-` + one-based month + `-` + day + `-` + year + `.csv`, unpadded, and month, day and year read back exactly |
| `Export.DateRoundTrip` | src/components/Export.js:78-81 | month, day and year written as dash-separated decimal text read back as the same three numbers |
| `JsValues.NatToDecimal` | src/components/Export.js:78-81 | an integer's text is a non-empty run of digits with no leading zero (so months and days are not zero-padded) |
| `JsValues.DecimalRoundTrip` | src/components/Export.js:78-81 | the decimal text of a natural number reads back as that number |
| `JsValues.IntRoundTrip` | src/components/tables/GenericTable.js:54-56 | the text of an integer offset or limit, sign included, reads back as that integer and contains no `&` or `=` |

## Left out

- HTTP, JSON parsing and the promise chain are not modelled. `fetch` and `res.json()` are I/O, so their outcome is an input value (`FetchOutcome`): a rejection with its message, a non-OK status, or an OK parsed body.
- The notification sink is not called. `notifications.sendError` is a foreign call, so `ApplyResponse` returns the `(title, detail)` it would send.
- React scheduling is not modelled. This covers `useState`, `useEffect` and `useContext`, the re-fetch whenever page, page size, filters or dates change, and the export recomputing when rows or columns change. It also covers the race between overlapping fetches, where the last response to arrive wins. Each response is applied by one `ApplyResponse` call, in whatever order the caller chooses.
- The export matrix is not recomputed after a sort. React wiring decides this: `onSort` sorts the rows array in place and passes the same array back.
- JSX rendering is not modelled. This covers the toolbar, the table markup, the `Expandable`, `CommitExpandable` and `DeployExpandable` panels, the `cellFunction` and `columnFunction` hooks, the export dropdown and `Pagination.js`, which only forwards its props to a widget.
- The `react-csv` library is not modelled. Its CSV text encoding and quoting are out of scope. The model stops at the matrix handed to it.
- `localeCompare` collation is the parameter `collate`, because it is locale-dependent. The lemmas about string columns assume only its sign symmetry.
- `GenericTable.SortRows`: the model does not reproduce the engine's algorithm or the order an inconsistent comparator produces. `Array.prototype.sort` chooses which pairs it compares, and that order is engine-defined. The model sorts by insertion and promises a permutation, plus comparator order when the comparator is consistent. A throw is promised to come from a comparison of two input rows, but not every such pair is guaranteed to cause one.
- `GenericTable.SortRows`: the sorted-order promise holds for this insertion order. `Consistent` does not rule out a pair that throws in one order only, such as a string and a number when descending. The model's insertion order throws on such a pair. An engine that compares the pair the other way round gets 0, completes, and can leave that pair out of comparator order.
- `GenericTable.Table.Sort`: the same limits as `SortRows` apply to which throws and orders it promises.
- `GenericTable.Table.ApplyResponse`: records in `data` are assumed to be objects. A `null` record after the first makes `Object.values` throw after `setColumns` has already run. The source then reports the error with the columns replaced but the rows and count as before. The model has no such record and does not promise that partial update.
- `GenericTable.Table.ApplyResponse`: the detail reported for a body without `data` is the `TypeError` text of one engine (`MissingDataMessage`). Other engines word that message differently.
- JavaScript numbers are modelled as integers, because IEEE floating point is out of scope. The `-` operator's `ToNumber` reads a string as 0 when it is empty, as its value when it is all decimal digits, and as NaN otherwise. Signs, whitespace, decimals and exponents are not parsed.
- Nested commit and deploy records are modelled as `Obj(id, timestamp)`, the only two fields the core reads.
- `Object.keys` and `Object.values` are not modelled as enumeration. A record is an ordered list of fields. `NormalizeRoundTrip` takes a shared key order as its precondition.
- Filter values and the dates' `format()` text are modelled as strings. The round trip of the query needs values without `&` and field names without `&` or `=`, because URL encoding is not applied by the source.
- `new Date()` is not read. `Filename` takes the zero-based month, the day and the year as parameters. `FilenameRoundTrip` covers non-negative years.
- A response body's `count` is modelled as an integer. A body without `count` would store `undefined`.
