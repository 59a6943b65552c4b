# django-export-csv in Dafny

A model of `ExportCSV`, the generic Django view of the `django-export-csv` package. It
turns a queryset into a CSV attachment. Its behaviour is mostly precedence rules:

- Four resolvers decide what is exported:
  - the record source (`get_queryset`);
  - the fields (`get_field_names`, `_get_field_verbose_names`);
  - the header (`get_col_names`);
  - the file name (`get_filename`).
- Each resolver has an explicit-value-wins rule, a model-derived fallback and its own
  error. `get_field_names` and `get_filename` store a derived value into the view's
  attribute; `get_col_names` does not, but `_create_csv` stores its result into
  `col_names` (export_csv/views.py:198).
- `_create_csv` runs the resolvers in a fixed order. It then writes an optional header
  row and one row per record.
- Each cell is `clean_<f>(get_field_<f>(obj))`. Either hook may be missing: the
  attribute itself is read, or `force_text` applied. Either hook may raise, and its
  error ends the export.

The model also covers the demo application that ships with the package:

- the older copy of the view vendored into `example/export_csv`;
- the three demo exports `CustomerCSV`, `AccountCSV` and `TransactionCSV`;
- the little bank behind them: the `save()` rules, the balance check, the
  `update_account` post-save hook and the sample-data loader.

| file | module | what it holds |
|---|---|---|
| `basics.dfy` | `Basics` | `Option`, and `Result` with `:-` propagation |
| `text.dfy` | `Text` | ASCII `str.lower()`, decimal rendering |
| `tabular.dfy` | `Tabular` | the shared data model and the cell/row loop of `_create_csv`, functional and as a nested loop |
| `export_csv.dfy` | `ExportCsv` | the current view (`export_csv/views.py`) |
| `legacy_export_csv.dfy` | `LegacyExportCsv` | the older copy (`example/export_csv/views.py`) and how it differs |
| `demo_views.dfy` | `DemoViews` | the demo exports and the test suite's `Customer` fixture as checked scenarios |
| `ledger.dfy` | `Ledger` | `Customer`/`Account`/`Transaction.save`, `is_deposit`, `deposit_or_withdrawal`, `update_account` |
| `populate.dfy` | `Populate` | `populate_models` and `_get_random_boolean` |

Modelling choices:

- **Model descriptor.** A model class is a `ModelDesc`: its `__name__` and its fields in
  declaration order. Each field has a name, a verbose name and an `auto_created` flag.
- **Records.** A model instance is a `map<string, V>` of its attributes, generic in
  the value type `V`. `force_text` is a function `V -> string` carried by the view.
- **The view.** It is split in two:
  - An immutable `ExportView`: `model`, `add_col_names` and the subclass overrides
    (`Hooks`). The `get_field_<f>` / `clean_<f>` naming convention becomes two explicit
    maps from field name to a function returning a `Result`, so an override may raise.
    The lookup `get_field_names` for a field called `names` finds the view's own
    resolver; the model gives that field the `TypeError` the call raises.
  - The attributes an export overwrites (`Attrs`: `field_names`, `filename`,
    `col_names`). A resolver that memoises returns the updated `Attrs` next to its value.
- **Errors.**
  - `NoModelFoundException` is `NoModelFound`, a kind of `ImproperlyConfigured`.
  - `TypeError` and `AttributeError` are constructors of one `ExportError`.
  - Every resolver returns a `Result`.
- **Money.** It is held in whole hundredths.
- **Outside inputs.** The clock, the random hexadecimal draws and the id the database
  assigns are inputs (`Env`, `Draws`).

How the code behaves, in the points where a reader is most easily misled:

- `_create_csv` resolves in the order filename, writer options, column names (only when
  `add_col_names` is set), queryset, field names (export_csv/views.py:183-203). The
  first resolver that raises ends the export.
- Without an override, `get_queryset` returns all records of the model
  (`model.objects.all()`); there is no separate record-source setting.
- The current copy writes a header row whenever `add_col_names` is set, even an empty
  one. The older copy writes it only when `col_names` is non-empty.
- The verbose-name fallback follows the model's declaration order, not the order of
  the field list.
- `get_field_names` and `get_filename` store what they derive; `_create_csv` stores the
  resolved column names into `col_names`.

The demo app imports `export_csv.views`. Run from `example/`, that is the older vendored
copy. `CustomerCSV` is therefore stated under both pipelines: under the older one it
also exports the auto-created `id`.

## Model

| member | source | states |
|---|---|---|
| `Text.Lower` | export_csv/views.py:151 | the model's ASCII folding keeps the length, folds each character on its own and leaves no ASCII capital |
| `Text.LowerIdempotent` | export_csv/views.py:151 | lower-casing twice is lower-casing once |
| `Text.LowerAppend` | export_csv/views.py:151 | lower-casing distributes over concatenation |
| `Tabular.ListFilename` | export_csv/views.py:151-152 | the derived name is the lower-cased class name followed by `_list.csv`, with no capital anywhere |
| `Tabular.WriterKwargs` | export_csv/views.py:167-174 | without an override the writer gets no keyword arguments; an override's options are passed unchanged |
| `Tabular.Cell` | export_csv/views.py:212-225 | a cell needs an extractor or the attribute; without either, `AttributeError` naming the field, and for the field `names` the resolver's `TypeError`; when the overrides do not raise, that is the only way a cell fails |
| `Tabular.RowOf` | export_csv/views.py:207-226 | a row succeeds exactly when every field's cell does, and then has one cell per field |
| `Tabular.Rows` | export_csv/views.py:205-227 | rows succeed exactly when every record's row does, one row per record |
| `Tabular.RowOfCells` | export_csv/views.py:207-226 | cell `j` of a successful row is the cell of field `j` of that record |
| `Tabular.RowOfError` | export_csv/views.py:207-226 | a failed row reports the error of the first field, in field order, whose cell fails |
| `Tabular.RowsContents` | export_csv/views.py:205-227 | row `i` of a successful export is the row of record `i`, in source order |
| `Tabular.RowsError` | export_csv/views.py:205-227 | a failed export reports the error of the first record whose row fails; all earlier rows succeed |
| `Tabular.DataRows` | export_csv/views.py:204-227 | a `None` queryset gives no rows; otherwise one row per record, succeeding exactly when every record is readable |
| `Tabular.AssembleRow` | export_csv/views.py:207-226 | the inner loop that appends cells to a row, stopping at the first error, computes exactly `RowOf` |
| `Tabular.AssembleRows` | export_csv/views.py:204-227 | the outer loop that appends rows to the output, stopping at the first error, computes exactly `DataRows` |
| `Tabular.RowOfErrPersists` | export_csv/views.py:207-226 | once a prefix of the fields fails, the whole row fails with that error |
| `Tabular.RowsErrPersists` | export_csv/views.py:205-227 | once a prefix of the records fails, the whole export fails with that error |
| `Tabular.CleanerOnlyReshapes` | export_csv/views.py:221-225 | adding a cleaner leaves extraction and its errors as they were; the cleaner is applied to the extracted value |
| `Tabular.ExtractorShadowsAttribute` | export_csv/views.py:212-216 | with an extractor for `f`, the record's own `f` is never consulted |
| `Tabular.HookErrorsPropagate` | export_csv/views.py:212-223 | an extractor that raises ends the cell with its error; after a successful extraction, so does a cleaner |
| `Tabular.ResolverFieldNeverExported` | export_csv/views.py:212-214 | a field named `names` reaches `get_field_names`, which takes no record: every row listing it fails with `TypeError` |
| `Tabular.RowsAttributeError` | export_csv/views.py:212-216 | without the field `names` and with overrides that do not raise, a failed export is an `AttributeError` |
| `ExportCsv.NonAutoFieldNames` | export_csv/views.py:98-99 | a name is derived exactly when some field carries it and is not auto-created |
| `ExportCsv.NonAutoFieldNamesAppend` | export_csv/views.py:98-99 | derivation keeps declaration order: it distributes over concatenated field lists |
| `ExportCsv.GetQueryset` | export_csv/views.py:76-82 | an override wins; otherwise all records of the model; with neither, `NoModelFoundException` with its message |
| `ExportCsv.GetFieldNames` | export_csv/views.py:95-104 | a non-empty explicit list is returned as is; else the model's non-auto-created names, stored into `field_names`; else `NoModelFoundException` |
| `ExportCsv.GetFieldNamesMemoised` | export_csv/views.py:97-100 | a repeat call on the attributes the first call left returns the same names and changes nothing |
| `ExportCsv.ExplicitFieldNamesWin` | export_csv/views.py:95-96 | a non-empty explicit list wins even when a model is present |
| `ExportCsv.VerboseNamesIn` | export_csv/views.py:113-114 | a verbose name is included exactly when its field's name was requested; never more names than fields |
| `ExportCsv.VerboseNamesIgnoreRequestOrder` | export_csv/views.py:113-114 | the order of the requested names and duplicates among them do not change the result: model order decides |
| `ExportCsv.VerboseNamesSkipUnknown` | export_csv/views.py:113-114 | a requested name that is not a model field contributes nothing |
| `ExportCsv.GetFieldVerboseNames` | export_csv/views.py:111-118 | the field-name error comes first; then a model is needed (`NoModelFoundException` without one); then the verbose names of the resolved fields |
| `ExportCsv.GetColNames` | export_csv/views.py:130-135 | a non-empty list is returned unchanged; a non-empty string raises `TypeError`; an unset or empty value falls back to the verbose names |
| `ExportCsv.ColNamesTypeErrorExactly` | export_csv/views.py:130-134 | `TypeError` arises exactly when `col_names` is a non-empty non-list |
| `ExportCsv.GetFilename` | export_csv/views.py:148-158 | any explicit filename wins, even the empty one; else the derived name, stored into `filename`; else `NoModelFoundException` |
| `ExportCsv.GetFilenameMemoised` | export_csv/views.py:150-152 | a repeat call returns the filename the first call resolved |
| `ExportCsv.DerivedFilenameShape` | export_csv/views.py:151-152 | a derived filename has no capitals, starts with the lower-cased class name and ends with `_list.csv` |
| `ExportCsv.HeaderRows` | export_csv/views.py:197-200 | no header row unless `add_col_names`; with it, exactly one row holding the resolved column names, or their error |
| `ExportCsv.CreateCsv` | export_csv/views.py:183-204 | a response is `text/csv` with the `excel` dialect and the view's writer options; the filename error comes first; the disposition is `attachment; filename="<name>"` |
| `ExportCsv.FieldNamesAfterHeader` | export_csv/views.py:198-203 | storing the column names leaves the field names to export as they were |
| `ExportCsv.CreateCsvLayout` | export_csv/views.py:197-227 | rows = records + 1 with a header, else records; the header is the resolved column names; data row `i` is record `i`'s row |
| `ExportCsv.CreateCsvRowsDecide` | export_csv/views.py:202-227 | once every resolver succeeds, the export fails exactly when a row fails, with that row's error |
| `ExportCsv.CreateCsvHeaderless` | export_csv/views.py:197-204 | without a header, the rows are exactly the data rows |
| `ExportCsv.HeaderlessRows` | export_csv/views.py:202-227 | without a header or a queryset override, one row per given record, in order, over the resolved fields |
| `ExportCsv.EmptyExportIsHeaderOnly` | export_csv/views.py:197-205 | with a header and no records the output is exactly the header row |
| `ExportCsv.CreateCsvErrorOrder` | export_csv/views.py:183-203 | the first failing step in the order filename, column names (if a header is wanted), queryset, field names decides the error |
| `ExportCsv.NoModelNoFilenameFails` | export_csv/views.py:183-185 | without a model or a filename the export fails with the filename error before anything else |
| `ExportCsv.RowsHaveFieldWidth` | export_csv/views.py:205-227 | every data row has one cell per resolved field |
| `LegacyExportCsv.AllFieldNames` | example/export_csv/views.py:78-79 | the older copy derives the name of every field, position by position |
| `LegacyExportCsv.GetQueryset` | example/export_csv/views.py:59-66 | same rule as the current copy, but without a model it raises plain `ImproperlyConfigured` |
| `LegacyExportCsv.GetFieldNames` | example/export_csv/views.py:75-85 | a non-empty list wins; else every model field name, recomputed and never stored; else `ImproperlyConfigured` |
| `LegacyExportCsv.GetFieldVerboseNames` | example/export_csv/views.py:87-92 | `None` without a model; with one, every verbose name, unfiltered |
| `LegacyExportCsv.GetColNames` | example/export_csv/views.py:94-98 | `col_names` when non-empty, `None` otherwise; never derived, never type-checked |
| `LegacyExportCsv.GetFilename` | example/export_csv/views.py:100-112 | explicit wins; else the derived name, stored; else `ImproperlyConfigured` |
| `LegacyExportCsv.HeaderCells` | example/export_csv/views.py:146-148 | the header row is the list itself, or one cell per character of a string |
| `LegacyExportCsv.CreateCsv` | example/export_csv/views.py:130-176 | succeeds exactly when filename, queryset, field names and every row succeed; rows = records + 1 only when `add_col_names` and `col_names` are both truthy |
| `LegacyExportCsv.CreateCsvLayout` | example/export_csv/views.py:146-175 | the header is exactly `col_names`; data row `i` is record `i`'s row |
| `LegacyExportCsv.QuerysetAgrees` | example/export_csv/views.py:59-66 | both copies pick the same queryset, and both errors are `ImproperlyConfigured` |
| `LegacyExportCsv.FilenameAgrees` | example/export_csv/views.py:100-112 | both copies resolve and store the same filename; without model or filename both raise `ImproperlyConfigured` with the same message |
| `LegacyExportCsv.VerboseNamesDiffer` | example/export_csv/views.py:87-92 | the older copy's unfiltered verbose names equal the current copy's exactly when every field is requested; otherwise the current copy gives fewer |
| `LegacyExportCsv.DerivedFieldNamesDiffer` | example/export_csv/views.py:77-80 | both copies derive the same names exactly when no field is auto-created; otherwise the older copy derives strictly more |
| `LegacyExportCsv.HeaderFallbackDiffers` | example/export_csv/views.py:146-148 | asked for a header without column names, the older copy writes none; the current copy writes the verbose names in one extra row |
| `LegacyExportCsv.HeaderlessCopiesAgree` | example/export_csv/views.py:130-176 | without a header, with explicit field names and a resolvable queryset and filename, both copies give the same response |
| `DemoViews.CustomerCsvResolves` | example/app/views.py:26-28 | `CustomerCSV` resolves its filename to `customer_list.csv` and its fields to `name`, `address`, `is_active`, `last_updated` |
| `DemoViews.CustomerCsvSucceedsIff` | example/app/views.py:26-28 | `CustomerCSV` fails exactly when a customer lacks one of the four attributes |
| `DemoViews.CustomerCsvServedAs` | example/app/views.py:26-28 | a successful `CustomerCSV` export is served as `customer_list.csv` |
| `DemoViews.CustomerCsvRows` | example/app/views.py:26-28 | one row per customer, each the text of the four attributes, without a header |
| `DemoViews.LegacyCustomerCsvRows` | example/app/views.py:26-28 | under the older copy `CustomerCSV` exports `id` first, then the same four; it fails exactly when one of the five is missing |
| `DemoViews.RichAccounts` | example/app/views.py:38-41 | an account is exported exactly when its balance exceeds 600000; no account is added |
| `DemoViews.AccountCsvSucceedsIff` | example/app/views.py:31-45 | `AccountCSV` needs no model; it fails only when a rich account lacks `account_no` or `owner`, with `AttributeError` |
| `DemoViews.AccountCsvRows` | example/app/views.py:31-45 | a successful `AccountCSV` export is served as `rich_account_list.csv`, one row per rich account: account number, then owner |
| `DemoViews.TransactionCsvPrecedence` | example/app/views.py:48-54 | the explicit field names and filename win over what the model would give; writer options are quote-all, `' '`, `'\|'` |
| `DemoViews.CleanTransactionId` | example/app/views.py:56-57 | the cleaned id has no capitals and keeps the length of the id's text |
| `DemoViews.TransactionRow` | example/app/views.py:48-57 | a `TransactionCSV` row is the account as text, the cleaned id, and the date as text |
| `DemoViews.TransactionCsvRows` | example/app/views.py:48-57 | one row per transaction; its second cell is the lower-cased id and the other two use the default conversion |
| `DemoViews.LegacyAccountCsvAgrees` | example/app/views.py:31-45 | under the older copy `AccountCSV` gives the same response, so it too succeeds exactly when every rich account has both attributes |
| `DemoViews.LegacyTransactionCsvAgrees` | example/app/views.py:48-57 | under the older copy `TransactionCSV` gives the same response: one row per transaction with the cleaned id |
| `DemoViews.FixtureVerboseNames` | tests/models.py:7-11 | the fixture's verbose names for the requested fields, `Is Active` keeping its capitals |
| `DemoViews.FixtureColNames` | tests/test_views.py:71-119 | with only the fixture model the columns are `name`, `address`, `Is Active`, `last updated`; three requested fields give three verbose names; a string `col_names` is a `TypeError` |
| `Ledger.RandomHex` | example/app/models.py:81 | one character per draw, each a hexadecimal digit |
| `Ledger.SaveCustomer` | example/app/models.py:21-23 | every save stamps `last_updated` and persists; a saved customer keeps its id |
| `Ledger.SaveAccount` | example/app/models.py:43-49 | an unsaved account draws a five-digit hexadecimal number and a creation date; a saved one is persisted unchanged |
| `Ledger.DepositOrWithdrawal` | example/app/models.py:65-73 | `deposit` exactly when the exchange is positive, `withdrawal` otherwise, including zero |
| `Ledger.SaveTransaction` | example/app/models.py:75-83 | `ValidationError` exactly when balance plus exchange is negative; otherwise a fresh date and ten-digit hexadecimal id |
| `Ledger.UpdateAccount` | example/app/signals.py:8-15 | the balance moves by the exchange; only `last_deposited` changes for a positive exchange, only `last_withdrawn` otherwise; a saved account keeps its number and creation date |
| `Ledger.Commit` | example/app/models.py:75-88 | the hook runs exactly when the save is accepted; an accepted save leaves a non-negative balance |
| `Ledger.StampMatchesLabel` | example/app/signals.py:11-14 | the timestamp the hook sets agrees with `deposit_or_withdrawal` |
| `Ledger.Run` | example/app/models.py:75-88 | over any sequence of save attempts a non-negative balance stays non-negative; a saved account keeps its number and creation date |
| `Ledger.RunStep` | example/app/models.py:76-79 | a refused attempt leaves the account unchanged; an accepted one moves the balance by its exchange |
| `Ledger.ResaveAppliesAgain` | example/app/models.py:75-88 | re-saving a saved transaction applies its exchange again, checked against the balance the first save left |
| `Populate.RandRange` | example/app/signals.py:39 | a draw lies in `[lo, hi)` |
| `Populate.RandRangeOnto` | example/app/signals.py:39 | every value of `[lo, hi)` can be drawn |
| `Populate.GeneratedBalance` | example/app/signals.py:38-39 | an opening balance is a whole amount in [100, 9999999] |
| `Populate.GeneratedExchange` | example/app/signals.py:78 | an exchange is a whole amount in [-499900, 499999] |
| `Populate.GeneratedExchangeOnto` | example/app/signals.py:78 | every whole amount of [-499900, 499999] can be generated |
| `Populate.GeneratedValuesFitColumns` | example/app/models.py:33-61 | generated balances fit ten digits and exchanges nine, two after the point |
| `Populate.RandomBoolean` | example/app/signals.py:18-22 | the answer is `True` exactly when the draw is at least the threshold |
| `Populate.SeedCustomers` | example/app/signals.py:34-65 | five customers, saved, stamped, with the sample names in order |
| `Populate.OpenAccounts` | example/app/signals.py:38-67 | one saved account per customer, owned by it, with a non-negative balance |
| `Populate.SeedTransactions` | example/app/signals.py:73-81 | twenty-five transactions, earlier ones kept; balances stay non-negative |
| `Populate.PopulateModels` | example/app/signals.py:25-84 | nothing happens when a customer exists; otherwise five customers, five accounts and twenty-five transactions are appended, and the new accounts' balances are non-negative |
| `Populate.PopulateIdempotent` | example/app/signals.py:27-28 | running the loader again after it succeeded changes nothing, whatever it draws |

## Left out

- HTTP plumbing: the `get` dispatch, `http_method_names`, the `HttpResponse` object itself, `IndexView`, URL routing and app wiring. The response is a record of content type, disposition, dialect, writer options and rows.
- The bytes Python's `csv.writer` produces: quoting, escaping and line endings of the `excel` dialect. Output stops at rows of strings plus an opaque writer-options record.
- The `TypeError` re-raise around writer construction (export_csv/views.py:187-195): writer construction never fails in the model.
- Whether the CSV library accepts `TransactionCSV`'s byte-string delimiter and quote character (`b' '`, `b'|'`) is not decided. The writer options hold them as text.
- Partial output: when a row fails, the source has already written the header and earlier rows into the response. The model returns only the error.
- The ORM: laziness, `objects.all()`, `filter`, `_meta` and Django's verbose-name derivation. Descriptors and record sequences are inputs, and `AccountCSV`'s filter is applied to a given account list.
- `force_text`, `force_str` and `ugettext_lazy` are plain functions and plain message strings. Translation is not modelled.
- Overrides of `get_filename`, `get_col_names` and `get_csv_writer_dialect`: no demo view uses them, so only the default resolvers are modelled. The dialect is always `excel`.
- Tabular.Cell: an override named for a field whose name clashes with another view method is not modelled, apart from `names` (which reaches `get_field_names`). A subclass that redefines `get_field_names` to accept a record is not modelled either: the field `names` always fails.
- Tabular.Cell: the `TypeError` message for the field `names` is Python 3's wording; the exact text depends on the interpreter.
- Tabular.Cell: `force_text` never raises in the model; a value whose text conversion fails is not modelled.
- Text.Lower: folds only ASCII capitals; Python's `str.lower()` also folds other scripts.
- The clock, `random.seed(1729)`, `random.choice` and `random.random`: these are inputs (`Env`, `Draws`), not Python's generator.
- `populate_models`' `print` calls.
- Populate.PopulateModels: on a refused transaction the source has already committed the earlier customers, accounts and transactions; the model returns the error and drops them.
- Populate.OpenAccounts: ids are assigned in insertion order after the existing rows; the database's own id allocation is not modelled.
- Ledger.Run: the model holds one in-memory account. Two stale copies of the same account row can each pass the balance check, with the later save overwriting the earlier (a lost update); that is not modelled.
- Database-side column limits: `max_digits` and `max_length` are not enforced on save. GeneratedValuesFitColumns only shows that generated values fit.
- `Account.transaction_count` and the `__str__` methods, except where an export renders a related object as text.
