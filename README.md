# pln-app: role gates and spreadsheet export, in Dafny

This project models the two pieces of pln-app that have logic of their own:

- the role-gate decorators of `app/utils.py`. They let a view run only for an authenticated user whose role is on a list, and abort with 403 otherwise;
- the spreadsheet export helpers, which exist in two slightly different copies, `app/utils.py` and `app/utils/exports.py`.

Each export copy projects a heterogeneous sequence of query-result rows onto a header list:

1. Lookup: an attribute named by the header wins. Otherwise a list or tuple row is read at `headers.index(header)` when that position is in bounds. Anything else gives None.
2. Formatting: dates and datetimes become `YYYY-MM-DD HH:MM:SS` text. In `app/utils.py` a `Decimal` also becomes a float.
3. Output: the sheet has the headers as its first row, and the file is named `{prefix}_{YYYYMMDD_HHMMSS}.xlsx`.

Modules:

- `PyValues` (`pyvalues.dfy`):
  - the Python values that flow through the export: `date` and `datetime` (with Python's valid ranges), `Decimal`, the float made from a `Decimal`, strings, integers, `None` and opaque objects;
  - the two `strftime` formats, with parsers that read them back.
- `Models` (`models.dfy`): the role, payment-type and status enumerations and the `Transaction` → `Officer` → `User` chain from `app/models.py`.
- `Tabular` (`tabular.dfy`): what both export copies share.
  - The row shapes. A row is its attribute map plus its `isinstance` shape: list/tuple, dict or other.
  - The attribute-then-position lookup: `Resolve` as the specification, `LookUp` as the statements.
  - The insertion-ordered dict `row_dict`.
  - The inner loop as a fold, `ProjectPrefix`.
  - The table that `pd.DataFrame(data, columns=headers)` holds, and the file name.
- `Utils` (`utils.dfy`): `app/utils.py`. It holds the four gates as functions and `export_to_excel` and `export_transactions_to_excel` as methods with loops, proved against `ProjectRow` and `ToTable`.
- `Exports` (`exports.dfy`): `app/utils/exports.py`. Its formatting has no `Decimal` branch, `total` is passed on unconverted, and it adds `export_report_to_excel`.

### Row shapes

The lookup tries `hasattr` first on every row, whatever its shape. So a row is modelled as its attributes plus its shape (`Row(attrs, kind)`), not as one of three exclusive cases:

- A tuple row carries the tuple's methods (`TupleRow`) and a list row the list's methods (`ListRow`). A header such as `count` or `index` therefore reads the bound method, not the element.
- A dict row carries only the dict's methods (`DictRow`). Its keys are not attributes.
- An ORM instance is an `ObjectRow` whose attributes are its columns, relationships and methods.
- A labelled row of `db.session.query(...).all()`, as the report exports in `app/routes/reports.py` pass, is a `ResultRow`. Its labels are attributes. It is not a list or tuple. A label named `count` or `index` is read before the row's `Sequence` method of that name, as app/routes/dashboard.py:28 relies on when it reads `row.count`. So the reports' `[..., 'count', 'total']` sheets hold their labelled values (`Utils.ReportColumnsReadLabels`).

### Dict rows and Decimal

`export_to_excel` never reads a row by key. Its lookup (app/utils.py:53-62, app/utils/exports.py:16-25) tries an attribute, then a list-or-tuple position, then gives None. A dict's keys are not attributes, and a dict is neither a list nor a tuple. So every header that is not a dict method's name gives None for a dict row.

Both copies of `export_transactions_to_excel` pass exactly such dicts, so their sheets hold the header row and rows of None cells:

- `Tabular.DictRowGivesNone` proves the general fact;
- `Utils.ExportTransactionsToExcel` and `Exports.ExportTransactionsToExcel` state that every cell is None;
- `TransactionDictIsNotRead` shows the values that were in the dict and are lost.

Only app/utils.py (lines 69-70) turns a `Decimal` into a float; `Exports.FormatAgreesWithUtilsExceptDecimal` states the difference.

## Model

| member | source | states |
|---|---|---|
| Utils.AdminRequired | app/utils.py:10-16 | the view runs, with its own result, exactly when the user is authenticated and is an admin; otherwise the answer is 403 |
| Utils.CoordinatorRequired | app/utils.py:18-24 | the view runs exactly for authenticated admins and coordinators; otherwise 403 |
| Utils.FieldOfficerRequired | app/utils.py:26-32 | the list names every role, so the view runs exactly for authenticated users; otherwise 403 |
| Utils.RoleRequired | app/utils.py:34-43 | the view runs exactly when the user is authenticated and the role's name is on the allowed list; otherwise 403 |
| Utils.FixedGatesAreRoleRequired | app/utils.py:10-43 | each fixed gate answers exactly as `role_required` with its list |
| Utils.GatesAreRankThresholds | app/utils.py:10-32 | the three fixed gates are the rank thresholds 2, 1 and 0 (admin 2, coordinator 1, field officer 0) on an authenticated user |
| Utils.GatesNest | app/utils.py:10-32 | admission nests (admin gate ⇒ coordinator gate ⇒ field-officer gate), strictly: a coordinator and a field officer each separate two gates |
| Utils.RoleRequiredOnMembers | app/utils.py:34-43 | given the names of a list of roles, `role_required` admits exactly the authenticated users whose role is on that list (names stand for roles because distinct roles have distinct names) |
| Utils.UnauthenticatedAlwaysAborts | app/utils.py:13-15 | an unauthenticated user gets 403 from every gate, whatever role field it carries |
| Utils.Format | app/utils.py:64-70 | a value with `strftime` becomes 19 characters of text, a `Decimal` becomes its float, and every other value, None included, is kept |
| Utils.FormatStampReadsBack | app/utils.py:65-68 | the text of a datetime reads back as that datetime to the second; the text of a date reads back as its midnight and ends in ` 00:00:00` |
| Utils.FormatDateExample | app/utils.py:67-68 | the date 2024-03-05 is written `2024-03-05 00:00:00` |
| Utils.FormatIdempotent | app/utils.py:64-70 | formatting a formatted value changes nothing; a result is never a date, datetime or `Decimal` |
| Utils.FormatValue | app/utils.py:64-70 | the branch chain on `value` computes `Format` of the looked-up value |
| Utils.BuildRowDict | app/utils.py:50-72 | the inner loop builds exactly `ProjectRow(Format, row, headers)` |
| Utils.ExportToExcel | app/utils.py:45-89 | the sheet's header is the header list; there is one row per input row, in order (none for empty input); the cell under header j is the formatted lookup of header j in that row; the name is `SpreadsheetName(prefix, now)` |
| Utils.ReportColumnsReadLabels | app/utils.py:53-54 | for a labelled query row under the headers `[key, 'count', 'total']`, every cell is its label, formatted; the `count` cell is the labelled count, not the row's `count` method |
| Utils.TransactionHeadersAreNotDictMethods | app/utils.py:93 | none of the eight headers is the name of a dict method |
| Utils.TransactionRecordShape | app/utils.py:98-107 | the dict for a transaction has the eight headers as its keys, in the written order |
| Utils.TransactionRecordFields | app/utils.py:98-107 | `total` is the float of the amount when the amount is non-zero and 0 otherwise; `officer_name` is the user's username when officer and user exist and 'N/A' otherwise; `id`, `idpel`, `periode`, `payment_type`, `status` and `created_at` are copied |
| Utils.TransactionDictIsNotRead | app/utils.py:98-110 | under `id`, `idpel`, `periode`, `total` and `officer_name` the dict holds a value, yet the cell built from that dict is None |
| Utils.ExportTransactionsToExcel | app/utils.py:91-110 | the sheet has the eight headers and one row per transaction; every cell is None; the name is `SpreadsheetName("transactions", now)` |
| Exports.Format | app/utils/exports.py:27-31 | a value with `strftime` becomes 19 characters of text; every other value, `Decimal` and None included, is kept |
| Exports.FormatStampReadsBack | app/utils/exports.py:28-31 | the text of a datetime reads back as that datetime to the second; the text of a date reads back as its midnight |
| Exports.FormatIdempotent | app/utils/exports.py:27-31 | formatting is idempotent and leaves a `Decimal` as it is |
| Exports.FormatAgreesWithUtilsExceptDecimal | app/utils/exports.py:27-31 | the two copies format every value alike except a `Decimal`, which only app/utils.py turns into a float |
| Exports.FormatValue | app/utils/exports.py:27-31 | the branch chain on `value` computes `Format` of the looked-up value |
| Exports.BuildRowDict | app/utils/exports.py:13-33 | the inner loop builds exactly `ProjectRow(Format, row, headers)` |
| Exports.ExportToExcel | app/utils/exports.py:8-50 | header row, one row per input row in order, each cell the formatted lookup of its header, name `SpreadsheetName(prefix, now)` |
| Exports.TransactionHeadersAreNotDictMethods | app/utils/exports.py:54 | none of the eight headers is the name of a dict method |
| Exports.TransactionRecordShape | app/utils/exports.py:59-68 | the dict for a transaction has the eight headers as its keys, in the written order |
| Exports.TransactionRecordFields | app/utils/exports.py:59-68 | `total` is the `Decimal` amount itself; `officer_name` is the username or 'N/A'; the other fields are copied |
| Exports.TransactionDictIsNotRead | app/utils/exports.py:59-71 | the dict holds values under five of the headers, yet the cells built from it are None |
| Exports.ExportTransactionsToExcel | app/utils/exports.py:52-71 | eight headers, one row per transaction, every cell None, name `SpreadsheetName("transactions", now)` |
| Exports.ExportReportToExcel | app/utils/exports.py:73-75 | the same table and name as `ExportToExcel` on the same data, headers and report name |
| Tabular.LookUp | app/utils.py:53-62 | the lookup statements compute `Resolve`: attribute, else in-bounds first-occurrence position of a list or tuple, else None |
| Tabular.IndexOf | app/utils.py:57-58 | `headers.index(header)` is a position inside the list holding that header |
| Tabular.IndexOfFirst | app/utils.py:57-58 | no earlier position holds the header: it is the first occurrence |
| Tabular.AttributeWins | app/utils.py:53-54 | an attribute named by the header is the value, whatever the row's shape |
| Tabular.PositionalByFirstOccurrence | app/utils.py:55-60 | without the attribute, a list or tuple row gives the element at the header's first occurrence when in bounds, else None, even for a repeated header |
| Tabular.PositionalWhenDistinct | app/utils.py:55-60 | with distinct headers, a list or tuple row lines up column by column |
| Tabular.NonSequenceGivesNone | app/utils.py:61-62 | a row that is not a list or tuple gives None for a header it has no attribute for |
| Tabular.DictRowGivesNone | app/utils/exports.py:16-25 | a dict row gives None under every header that is not a dict method's name, whatever the dict holds |
| Tabular.ResultRowLookup | app/utils.py:53-62 | in a labelled query row a header reads its label; without one, `count` and `index` read the bound method and any other header gives None |
| Tabular.EmptyRecord | app/utils.py:50 | `row_dict = {}` is a well-formed dict without keys |
| Tabular.PutSpec | app/utils.py:72 | `row_dict[header] = value` keeps the dict well formed, stores the value and leaves every other key alone |
| Tabular.DedupSpec | app/utils.py:51-72 | the key order a sequence of assignments leaves has no repeats and holds exactly the assigned keys |
| Tabular.DedupOfDistinct | app/utils.py:51-72 | with distinct headers that key order is the header order itself |
| Tabular.ProjectPrefixKeys | app/utils.py:51-72 | after the first n headers, the dict's keys are their first occurrences, in order |
| Tabular.ProjectPrefixDomain | app/utils.py:51-72 | at every step of the inner loop, the key order and the dict hold the same keys |
| Tabular.ProjectPrefixWellFormed | app/utils.py:51-72 | the dict stays well formed through the inner loop |
| Tabular.ProjectPrefixValues | app/utils.py:51-72 | after the first n headers, each of them holds its formatted lookup |
| Tabular.ProjectPrefixStep | app/utils.py:51-72 | one turn of the inner loop assigns the formatted lookup of the next header |
| Tabular.ProjectRowShape | app/utils.py:49-73 | a row's dict has exactly the headers as keys, in header order when they are distinct, each holding its formatted lookup |
| Tabular.ToTable | app/utils.py:76 | the columns are the headers in order; one row per record; each cell is the record's value under its header, or None when the record lacks it |
| Tabular.SpreadsheetNamePattern | app/utils.py:86-87 | a generated name is the prefix, `_`, eight digits, `_`, six digits and `.xlsx` |
| Tabular.SpreadsheetNameRoundTrip | app/utils.py:86-87 | a generated name gives back its prefix and the render time to the second |
| Tabular.SpreadsheetNameInjective | app/utils.py:86-87 | two generated names are equal exactly when the prefixes and the render seconds are |
| PyValues.Midnight | app/utils.py:67-68 | a date used as a datetime keeps its date and has hour, minute and second 0 |
| PyValues.Pad | app/utils.py:66 | a zero-padded field has exactly its width, all digits |
| PyValues.ParsePad | app/utils.py:66 | reading a zero-padded field gives the number back |
| PyValues.StampFull | app/utils.py:66 | `%Y-%m-%d %H:%M:%S` is 19 characters long |
| PyValues.StampCompact | app/utils.py:86 | `%Y%m%d_%H%M%S` is 15 characters long |
| PyValues.StampFullFields | app/utils.py:66 | where each field and separator of `%Y-%m-%d %H:%M:%S` lies |
| PyValues.StampCompactFields | app/utils.py:86 | where each field and the `_` of `%Y%m%d_%H%M%S` lie |
| PyValues.StampFullRoundTrip | app/utils.py:66 | the full stamp parses back to the datetime without its microseconds |
| PyValues.StampCompactRoundTrip | app/utils.py:86 | the compact stamp parses back to the datetime without its microseconds |
| PyValues.StampFullInjective | app/utils.py:66 | two datetimes get the same text exactly when they agree to the second |
| PyValues.StampCompactShape | app/utils.py:86 | the compact stamp is eight digits, `_` and six digits |
| PyValues.DateStampAtMidnight | app/utils.py:67-68 | a date's text ends in ` 00:00:00` and parses back to its midnight |
| PyValues.MidnightStampSuffix | app/utils.py:67-68 | the stamp of a date's midnight ends in ` 00:00:00` |
| PyValues.StampFullDateExample | app/utils.py:67-68 | 2024-03-05 at midnight is stamped `2024-03-05 00:00:00` |
| Models.EnumNamesDistinct | app/models.py:13 | the role names (and likewise the payment-type names at line 67 and the status names at line 69) are distinct, so comparing names compares members; `Utils.RoleRequiredOnMembers` relies on it |

## Left out

- Writing the spreadsheet bytes through pandas, openpyxl and `BytesIO` (app/utils.py:78-83, app/utils/exports.py:39-44). These are foreign libraries, so the model stops at the header-plus-rows `Table`. A None cell is what pandas writes as an empty cell.
- The clock. `datetime.now()` becomes the parameter `now`.
- Float semantics. `float(Decimal)` is the tag `FloatV` around the `Decimal`, with no rounding.
- Microseconds. Both `strftime` formats drop them, so the round trips hold up to `Truncate`.
- Python's `strftime` on some platforms writes years below 1000 with fewer than four digits. The model always pads `%Y` to four.
- Value types with `strftime` other than `date` and `datetime` (such as `time`), and time zones. Only `date` and `datetime` are modelled.
- The library class of a labelled query row. SQLAlchemy's `Row` is not part of this model. `ResultRow` gives it the one behaviour the lookup depends on: a label is read before a method of the same name, as app/routes/dashboard.py:28 expects. It is modelled as not a list or tuple. Where a version builds it as a tuple, the lookup still reads labels first, so every labelled header gives the same cell.
- The attributes every object has (`__class__`, `__doc__` and the other dunder names). A header spelled like one would read that attribute. Only the public methods of tuples, lists and dicts are modelled.
- `@wraps`, positional and keyword arguments, and the exception `abort` raises. The wrapped view is a function of one argument, and the abort is `Aborted(403)`.
- Utils.RoleRequired: `allowed_roles` is modelled as a list of strings. A plain string passed in its place would make `in` a substring test; that case is not modelled.
- The route handlers, the aggregate SQL queries, template rendering, `send_file`, the non-Excel branch of each export route (which only flashes 'PDF export not yet implemented' and redirects, app/routes/reports.py:134-137), and app setup (app/routes/, app/__init__.py, run.py). These are Flask, SQLAlchemy and MySQL plumbing, not logic of this core.
- Password hashing in `app/models.py` (a werkzeug call) and every model field that the export does not read.
