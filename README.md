# ITB calculator: submission evaluator and patient record table

This project models the core of a small clinical data-entry web application. The application records ankle-brachial index (ITB) measurements, classifies them and keeps them in a single SQLite table called `pacientes`. The model has two parts.

- **The submission evaluator** (`Evaluator`, with `Text` for Python's `str.strip()`). The patient name is stripped and must not be empty. Then both pressure fields must parse as numbers. Then the arm pressure must not be zero. An accepted form gives `itb = ankle / arm`, which is classified into five bands by a first-match-wins chain. The model states each band as an interval and proves that the chain picks the one band whose interval contains the value. The bands do not overlap and cover every real number.
- **The record table** (`Store.PatientTable`, with the queries in `Queries` and the `ORDER BY` in `Sorting`). The table is append-only: rows are never updated or deleted. An accepted form appends one row with the next AUTOINCREMENT id. Other forms leave the table unchanged. The history listing returns every row's `(name, record, date, itb, phase)`, newest first. The export query does one of two things:
  - with a non-empty filter, it returns the rows whose name equals the filter exactly, oldest first;
  - with an empty filter, it returns every row in no promised order.

  An empty selection gives a "no data" result, which is distinct from a file.

The Excel export (app.py:165-174) and the PDF export (app.py:195-204) run the same query and the same empty check. Both are modelled by `Store.PatientTable.ExportRows`.

Where SQL leaves the order open, the model states only what SQL promises. This covers rows with equal dates under `ORDER BY data DESC`, and every row when the export has no `ORDER BY`. The promise is "a permutation of the selected rows, sorted by date where the query has `ORDER BY`" (`Queries.IsHistoryOf`, `Queries.IsExportOf`). The insertion sort in `Sorting` is one order that meets it.

External inputs are parameters:
- The clock (`datetime.now()`, app.py:141) is the integer `now`. The fixed-width `%Y-%m-%d %H:%M:%S` text sorts in the same order as the integer.
- Python's `float()` is the function parameter `parse: string -> Option<real>`. It returns `None` where `float()` raises `ValueError`.

Orders and clocks the program leaves open:
- The unfiltered export has no `ORDER BY`, so no order is promised.
- Two history listings are proved to agree on their entries and on the order of their dates. They are not proved identical, because only `ORDER BY data DESC` applies.
- Row ids are not claimed to follow timestamp order, because the clock is outside the program's control.

## Model

| member | source | states |
|---|---|---|
| Text.Strip | app.py:115-116 | `strip()` gives the empty text exactly when the input is all white space (Python's `isspace` set). The result has no white space at either end. The input is blank text, then the result, then blank text (`Padded`), so only white space is removed, and only at the ends. |
| Text.StripIdempotent | app.py:115-116 | Stripping an already-stripped text changes nothing. |
| Evaluator.Classify | app.py:131-140 | The band the `if/elif` chain picks is one whose interval contains the ITB: (1.3, inf) stiffness, [0.9, 1.3] normal, [0.5, 0.9) mild/moderate PAD, [0.4, 0.5) severe PAD, (-inf, 0.4) critical. Classification is total. |
| Evaluator.ClassifyUnique | app.py:131-140 | Any band whose interval contains the value is the band the chain returns. So the intervals are disjoint, and first-match-wins decides nothing beyond the table. |
| Evaluator.ClassifyMonotone | app.py:131-140 | A larger ITB never lands in a lower band. |
| Evaluator.BoundaryPoints | app.py:133-138 | 1.3 and 0.9 are normal, 0.5 is mild/moderate, and exactly 0.4 is severe, not critical. |
| Evaluator.Evaluate | app.py:121-140 | Three results are mutually exclusive and checked in order. MissingName exactly when the name is blank. InvalidNumber exactly when the name is not blank and either pressure fails to parse. ArmZero exactly when both parse and the arm value is 0. Otherwise Ok, holding the parsed arm and ankle values, a non-zero arm, itb = ankle / arm, and the band containing itb. |
| Evaluator.Accepted | app.py:121-140 | A non-blank name, two parsed pressures and a non-zero arm pressure give Ok with exactly those pressures, itb = ankle / arm and the band the chain picks for it. |
| Evaluator.BlankNameIgnoresPressures | app.py:121-122 | With a blank name, the result is MissingName whatever the pressure fields hold and however they parse. |
| Evaluator.NormalExample | app.py:130-134 | Arm 80 and ankle 100 give ITB 1.25, which is normal. |
| Evaluator.SevereBoundaryExample | app.py:130-138 | Arm 100 and ankle 40 give ITB 0.4, which is severe PAD. |
| Sorting.Sort | app.py:149 | The result is a permutation of the input, ordered by the key in the requested direction. |
| Sorting.SortedPermutationsAgreeOnKeys | app.py:149 | Two sorted permutations of the same elements have the same key sequence. They can differ only in the order of ties. |
| Queries.HistoryQuery | app.py:149-150 | One valid history result: every row's projection exactly once, newest date first. |
| Queries.HistoryDeterminedUpToTies | app.py:149-150 | Two history listings of the same table hold the same multiset of entries and list the same dates in the same order. |
| Queries.NewestRowListedFirst | app.py:142-150 | A row whose date is strictly later than every other row's date heads the history. |
| Queries.WithName | app.py:166 | `WHERE nome = ?` keeps each row with exactly that name, case-sensitively and with its multiplicity. It keeps no other row. |
| Queries.ExportQuery | app.py:165-174 | One valid export result. With a non-empty filter, the rows with that name, oldest first. With an empty filter, every row. "No data" exactly when the selection is empty. A file is never empty. |
| Queries.FilteredExportMatches | app.py:166 | Every row of a filtered export is a table row with exactly the requested name. |
| Queries.FilteredExportComplete | app.py:166 | Every table row with the requested name appears in the filtered export. |
| Store.NewRowWellFormed | app.py:115-143 | An accepted form's row has a non-empty stripped name, a stripped record, a non-zero arm pressure and itb = ankle / arm. |
| Store.AppendKeepsValid | app.py:87-93 | Appending a well-formed row under the next id keeps the table invariant: ids positive, strictly increasing, below the counter, and every row well formed. |
| Store.UnstrippedFilterExportsNothing | app.py:159-174 | Stored names are stripped but the export's `nome` argument is not. A filter with white space at either end therefore matches nothing and gives "no data". |
| Store.PatientTable.constructor | app.py:85-96 | A new table is empty, its counter starts at 1, and the invariant holds. |
| Store.PatientTable.Submit | app.py:114-147 | The result is `Evaluate` of the form. On Ok, exactly one row is appended. It holds the stripped name and record, the timestamp, both pressures, the itb and the phase (pre-treatment by default), and its id is above every existing id. Existing rows are untouched. On any error, rows and counter are unchanged. |
| Store.PatientTable.AppendRow | app.py:142-144 | The INSERT appends the row last and advances the counter, keeping the invariant. |
| Store.PatientTable.History | app.py:149-150 | The listing is a permutation of every row's projection, sorted by date descending. |
| Store.PatientTable.ExportRows | app.py:165-174 | The export meets `IsExportOf` for the current rows and filter. |
| Store.PatientTable.HandleIndex | app.py:114-150 | A GET changes nothing. A POST submits the form first, then the history is listed from the new state. An accepted row dated after every earlier row heads that history. |

## Left out

- HTTP routing, `request` access, `render_template` and `send_file` (app.py:103-105, 153, 183, 228). This is web plumbing. A missing form field is modelled as the empty text, which is what `request.form.get(..., '')` returns.
- The bilingual text tables (app.py:16-73), the result message and the `:.2f` rounding (app.py:145). These are presentation only. Bands and errors are tags.
- SQLite connection handling, `init_db`, commit and close (app.py:76-101, 151, 171). A storage failure is not modelled. The table is an in-memory sequence that starts empty.
- The table's `momento` column holds the posted text, or the localized "pre-treatment" label when the field is missing. The model stores the tag `PreTreatment` or `PostTreatment`. Arbitrary phase text is not modelled.
- `datetime.now()` (app.py:141). The timestamp is a parameter.
- Spreadsheet and PDF generation through pandas and reportlab (app.py:176-183, 206-228). These are foreign libraries. Only the selected rows and the "no data" decision are modelled.
- Python's `float()` grammar, its acceptance of `nan` and `inf` (a NaN ITB falls through to "critical"), and IEEE rounding of the division. The parser is abstract and arithmetic is exact `real`.
- The `KeyError` for an unknown `lingua` (app.py:106) and for the missing `relatorio_titulo` key in the PDF export (app.py:210). Both are in presentation code.
- Concurrent requests and SQLite's writer serialization. Each operation is modelled as atomic.
- The particular order SQLite uses for rows with equal dates, and for the unfiltered export. SQL leaves both open. The model's sort picks one order, and the contracts state only what SQL promises.
