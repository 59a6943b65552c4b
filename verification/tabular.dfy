/** What both copies of the ExportCSV view share: the model descriptor the ORM
    supplies, the view's configuration and its mutable attributes, the response,
    and the row/cell assembly loop of `_create_csv`.

    A record is the attribute dictionary of one model instance; `getattr(obj, f)`
    is a lookup in it.  The naming-convention hooks `get_field_<f>` and
    `clean_<f>` become explicit maps from field name to function. */
module Tabular {
  import opened Basics
  import opened Text

  type Record<V> = map<string, V>

  /** One entry of `model._meta.fields`. */
  datatype FieldDesc = FieldDesc(name: string, verboseName: string, autoCreated: bool)

  /** A model class as the ORM describes it: `__name__` and its fields in declaration order. */
  datatype ModelDesc = ModelDesc(className: string, fields: seq<FieldDesc>)

  /** What `get_queryset` hands to `_create_csv`; `NullQuerySet` is Python's `None`. */
  datatype QuerySet<V> = NullQuerySet | QuerySet(records: seq<Record<V>>)

  /** The `col_names` attribute: unset, a list, or a string (which is not a list). */
  datatype ColNames = NoColNames | ColList(names: seq<string>) | ColText(text: string)

  datatype Quoting = QuoteMinimal | QuoteAll | QuoteNonNumeric | QuoteNone

  /** The keyword arguments recognised by the CSV writer; `None` leaves the dialect's default. */
  datatype WriterOptions = WriterOptions(quoting: Option<Quoting>, delimiter: Option<string>, quotechar: Option<string>)

  const NoWriterOptions: WriterOptions := WriterOptions(None, None, None)

  /** Methods a subclass may override or add.  `None` means "not overridden".
      An extractor (`get_field_<f>`) or cleaner (`clean_<f>`) may raise, so it returns a
      `Result`.  `toText` is `force_text`, the default conversion of a value to a cell. */
  datatype Hooks<!V> = Hooks(
    queryset: Option<QuerySet<V>>,
    fieldNames: Option<seq<string>>,
    writerKwargs: Option<WriterOptions>,
    extractors: map<string, Record<V> -> Result<V, ExportError>>,
    cleaners: map<string, V -> Result<string, ExportError>>,
    toText: V -> string)

  /** The class-level configuration of a view, never mutated by an export. */
  datatype ExportView<!V> = ExportView(model: Option<ModelDesc>, addColNames: bool, hooks: Hooks<V>)

  /** The attributes an export overwrites as it resolves them. */
  datatype Attrs = Attrs(fieldNames: Option<seq<string>>, filename: Option<string>, colNames: ColNames)

  /** `NoModelFound` is `NoModelFoundException`, a subclass of `ImproperlyConfigured`. */
  datatype ExportError =
    | NoModelFound(message: string)
    | ImproperlyConfigured(message: string)
    | TypeError(message: string)
    | AttributeError(name: string)
  {
    predicate IsImproperlyConfigured() {
      NoModelFound? || ImproperlyConfigured?
    }
  }

  datatype Response = Response(
    contentType: string,
    contentDisposition: string,
    dialect: string,
    writerOptions: WriterOptions,
    rows: seq<seq<string>>)

  const ContentType: string := "text/csv"
  const Dialect: string := "excel"
  const ListSuffix: string := "_list.csv"

  function ContentDisposition(filename: string): string {
    "attachment; filename=\"" + filename + "\""
  }

  /** Python truthiness of a list attribute that may be `None`. */
  predicate Truthy(names: Option<seq<string>>) {
    names.Some? && |names.value| > 0
  }

  /** Python truthiness of `col_names`. */
  predicate ColTruthy(c: ColNames) {
    match c
    case NoColNames => false
    case ColList(ns) => |ns| > 0
    case ColText(s) => |s| > 0
  }

  function RecordCount<V>(qs: QuerySet<V>): nat {
    if qs.QuerySet? then |qs.records| else 0
  }

  lemma SuffixHasNoUpper()
    ensures NoUpper(ListSuffix)
  {
  }

  /** `str(model.__name__).lower() + '_list.csv'`. */
  function ListFilename(className: string): (r: string)
    ensures |r| == |className| + |ListSuffix|
    ensures r[..|className|] == Lower(className) && r[|className|..] == ListSuffix
    ensures NoUpper(r)
  {
    SuffixHasNoUpper();
    NoUpperAppend(Lower(className), ListSuffix);
    Lower(className) + ListSuffix
  }

  /** The default `get_csv_writer_kwargs()`, called without arguments, returns the empty
      keyword set; an override returns its own. */
  function WriterKwargs<V>(v: ExportView<V>): (r: WriterOptions)
    ensures v.hooks.writerKwargs.None? ==> r == NoWriterOptions
    ensures v.hooks.writerKwargs.Some? ==> r == v.hooks.writerKwargs.value
  {
    if v.hooks.writerKwargs.Some? then v.hooks.writerKwargs.value else NoWriterOptions
  }

  // ---------------------------------------------------------------------------
  // Cell and row assembly

  /** The one field whose `get_field_<f>` lookup finds a method of the view itself:
      `get_field_names` is the field-name resolver, which takes no record, so calling
      it with one raises `TypeError`. */
  const ResolverField: string := "names"
  const ResolverCallMessage: string := "get_field_names() takes 1 positional argument but 2 were given"

  /** The raw value of `field`: the extractor override if one is defined, otherwise the attribute. */
  function Extract<V>(h: Hooks<V>, rec: Record<V>, field: string): Result<V, ExportError> {
    if field == ResolverField then Err(TypeError(ResolverCallMessage))
    else if field in h.extractors then h.extractors[field](rec)
    else if field in rec then Ok(rec[field])
    else Err(AttributeError(field))
  }

  /** Something can be extracted for `field`: an extractor is defined or the record has
      the attribute, and the field does not clash with the resolver. */
  predicate CanExtract<V>(h: Hooks<V>, rec: Record<V>, field: string) {
    field != ResolverField && (field in h.extractors || field in rec)
  }

  /** The overrides consulted for `field` on `rec` do not raise. */
  predicate HooksSucceed<V>(h: Hooks<V>, rec: Record<V>, field: string) {
    && (field in h.extractors ==> h.extractors[field](rec).Ok?)
    && (field in h.cleaners && Extract(h, rec, field).Ok? ==> h.cleaners[field](Extract(h, rec, field).value).Ok?)
  }

  /** One cell: the extractor override or the attribute, then the cleaner override or
      `force_text`.  A missing attribute raises `AttributeError`; an override that raises
      ends the cell with its own error. */
  function Cell<V>(h: Hooks<V>, rec: Record<V>, field: string): (r: Result<string, ExportError>)
    ensures r.Ok? ==> CanExtract(h, rec, field)
    ensures HooksSucceed(h, rec, field) ==> (r.Ok? <==> CanExtract(h, rec, field))
    ensures !CanExtract(h, rec, field) ==>
              r == Err(if field == ResolverField then TypeError(ResolverCallMessage) else AttributeError(field))
  {
    var value :- Extract(h, rec, field);
    if field in h.cleaners then h.cleaners[field](value) else Ok(h.toText(value))
  }

  /** Every field of `fields` yields a cell for `rec`. */
  predicate RowReadable<V>(h: Hooks<V>, rec: Record<V>, fields: seq<string>) {
    forall j :: 0 <= j < |fields| ==> Cell(h, rec, fields[j]).Ok?
  }

  /** `fields[k]` is the first field whose cell fails for `rec`. */
  predicate FirstFailing<V>(h: Hooks<V>, rec: Record<V>, fields: seq<string>, k: int) {
    && 0 <= k < |fields|
    && Cell(h, rec, fields[k]).Err?
    && forall j :: 0 <= j < k ==> Cell(h, rec, fields[j]).Ok?
  }

  /** The row for one record: cells in field order; the first failing cell ends the export. */
  function RowOf<V>(h: Hooks<V>, rec: Record<V>, fields: seq<string>): (r: Result<seq<string>, ExportError>)
    ensures r.Ok? <==> RowReadable(h, rec, fields)
    ensures r.Ok? ==> |r.value| == |fields|
    decreases |fields|
  {
    if |fields| == 0 then Ok([])
    else
      var n := |fields| - 1;
      assert forall j :: 0 <= j < n ==> fields[..n][j] == fields[j];
      var init :- RowOf(h, rec, fields[..n]);
      var cell :- Cell(h, rec, fields[n]);
      Ok(init + [cell])
  }

  /** Every record of `records` yields a row. */
  predicate AllRowsReadable<V>(h: Hooks<V>, records: seq<Record<V>>, fields: seq<string>) {
    forall i :: 0 <= i < |records| ==> RowOf(h, records[i], fields).Ok?
  }

  /** One row per record in source order; the first record whose row fails decides the error. */
  function Rows<V>(h: Hooks<V>, records: seq<Record<V>>, fields: seq<string>): (r: Result<seq<seq<string>>, ExportError>)
    ensures r.Ok? <==> AllRowsReadable(h, records, fields)
    ensures r.Ok? ==> |r.value| == |records|
    decreases |records|
  {
    if |records| == 0 then Ok([])
    else
      var n := |records| - 1;
      assert forall i :: 0 <= i < n ==> records[..n][i] == records[i];
      var init :- Rows(h, records[..n], fields);
      var row :- RowOf(h, records[n], fields);
      Ok(init + [row])
  }

  /** A successful row holds, at position `j`, exactly the cell of `fields[j]`. */
  lemma {:induction false} RowOfCells<V>(h: Hooks<V>, rec: Record<V>, fields: seq<string>)
    requires RowOf(h, rec, fields).Ok?
    ensures forall j :: 0 <= j < |fields| ==> Cell(h, rec, fields[j]) == Ok(RowOf(h, rec, fields).value[j])
    decreases |fields|
  {
    if |fields| > 0 {
      var n := |fields| - 1;
      RowOfCells(h, rec, fields[..n]);
      assert forall j :: 0 <= j < n ==> fields[..n][j] == fields[j];
    }
  }

  /** A failed row reports the error of its first failing cell. */
  lemma {:induction false} RowOfError<V>(h: Hooks<V>, rec: Record<V>, fields: seq<string>)
    requires RowOf(h, rec, fields).Err?
    ensures exists k :: FirstFailing(h, rec, fields, k) && RowOf(h, rec, fields).error == Cell(h, rec, fields[k]).error
    decreases |fields|
  {
    var n := |fields| - 1;
    assert forall j :: 0 <= j < n ==> fields[..n][j] == fields[j];
    if RowOf(h, rec, fields[..n]).Err? {
      RowOfError(h, rec, fields[..n]);
      var k :| FirstFailing(h, rec, fields[..n], k) && RowOf(h, rec, fields[..n]).error == Cell(h, rec, fields[..n][k]).error;
      assert FirstFailing(h, rec, fields, k);
    } else {
      assert FirstFailing(h, rec, fields, n);
    }
  }

  /** A successful export holds, at position `i`, exactly the row of `records[i]`. */
  lemma {:induction false} RowsContents<V>(h: Hooks<V>, records: seq<Record<V>>, fields: seq<string>)
    requires Rows(h, records, fields).Ok?
    ensures forall i :: 0 <= i < |records| ==> RowOf(h, records[i], fields) == Ok(Rows(h, records, fields).value[i])
    decreases |records|
  {
    if |records| > 0 {
      var n := |records| - 1;
      RowsContents(h, records[..n], fields);
      assert forall i :: 0 <= i < n ==> records[..n][i] == records[i];
    }
  }

  /** A failed export reports the error of the first record whose row fails. */
  lemma {:induction false} RowsError<V>(h: Hooks<V>, records: seq<Record<V>>, fields: seq<string>)
    requires Rows(h, records, fields).Err?
    ensures exists k :: && 0 <= k < |records| && RowOf(h, records[k], fields).Err?
                        && (forall i :: 0 <= i < k ==> RowOf(h, records[i], fields).Ok?)
                        && Rows(h, records, fields).error == RowOf(h, records[k], fields).error
    decreases |records|
  {
    var n := |records| - 1;
    assert forall i :: 0 <= i < n ==> records[..n][i] == records[i];
    if Rows(h, records[..n], fields).Err? {
      RowsError(h, records[..n], fields);
      var k :| && 0 <= k < n && RowOf(h, records[..n][k], fields).Err?
               && (forall i :: 0 <= i < k ==> RowOf(h, records[..n][i], fields).Ok?)
               && Rows(h, records[..n], fields).error == RowOf(h, records[..n][k], fields).error;
      assert records[..n][k] == records[k];
    } else {
      assert forall i :: 0 <= i < n ==> RowOf(h, records[i], fields).Ok?;
    }
  }

  /** The body of the CSV: no rows for a `None` queryset. */
  function DataRows<V>(h: Hooks<V>, qs: QuerySet<V>, fields: seq<string>): (r: Result<seq<seq<string>>, ExportError>)
    ensures qs.NullQuerySet? ==> r == Ok([])
    ensures r.Ok? ==> |r.value| == RecordCount(qs)
    ensures r.Ok? <==> (qs.QuerySet? ==> forall i :: 0 <= i < |qs.records| ==> RowReadable(h, qs.records[i], fields))
  {
    if qs.NullQuerySet? then Ok([]) else Rows(h, qs.records, fields)
  }

  /** The inner loop of `_create_csv` as written: walk the fields, appending cells to
      the row, stopping at the first error.  It computes exactly the functional `RowOf`. */
  method AssembleRow<V>(h: Hooks<V>, rec: Record<V>, fields: seq<string>)
    returns (res: Result<seq<string>, ExportError>)
    ensures res == RowOf(h, rec, fields)
  {
    var row: seq<string> := [];
    var j := 0;
    while j < |fields|
      invariant 0 <= j <= |fields|
      invariant RowOf(h, rec, fields[..j]) == Ok(row)
    {
      var cell := Cell(h, rec, fields[j]);
      assert fields[..j + 1][..j] == fields[..j];
      if cell.Err? {
        RowOfErrPersists(h, rec, fields, j + 1);
        return Err(cell.error);
      }
      row := row + [cell.value];
      j := j + 1;
    }
    assert fields[..j] == fields;
    res := Ok(row);
  }

  /** The outer loop of `_create_csv` as written: walk the records, appending each row
      to the output, stopping at the first error.  It computes exactly `DataRows`. */
  method AssembleRows<V>(h: Hooks<V>, qs: QuerySet<V>, fields: seq<string>)
    returns (res: Result<seq<seq<string>>, ExportError>)
    ensures res == DataRows(h, qs, fields)
  {
    if qs.NullQuerySet? {
      return Ok([]);
    }
    var records := qs.records;
    var rows: seq<seq<string>> := [];
    var i := 0;
    while i < |records|
      invariant 0 <= i <= |records|
      invariant Rows(h, records[..i], fields) == Ok(rows)
    {
      var row := AssembleRow(h, records[i], fields);
      assert records[..i + 1][..i] == records[..i];
      if row.Err? {
        RowsErrPersists(h, records, fields, i + 1);
        return Err(row.error);
      }
      rows := rows + [row.value];
      i := i + 1;
    }
    assert records[..i] == records;
    res := Ok(rows);
  }

  /** Once a prefix of the fields fails, the whole row fails with the same error. */
  lemma {:induction false} RowOfErrPersists<V>(h: Hooks<V>, rec: Record<V>, fields: seq<string>, m: nat)
    requires m <= |fields|
    requires RowOf(h, rec, fields[..m]).Err?
    ensures RowOf(h, rec, fields) == RowOf(h, rec, fields[..m])
    decreases |fields| - m
  {
    if m < |fields| {
      var n := |fields| - 1;
      if m == |fields| - 1 {
        assert fields[..m] == fields[..n];
      } else {
        assert fields[..n][..m] == fields[..m];
        RowOfErrPersists(h, rec, fields[..n], m);
        assert RowOf(h, rec, fields[..n]) == RowOf(h, rec, fields[..m]);
      }
    } else {
      assert fields[..m] == fields;
    }
  }

  /** A failure among all records but the last is the failure of all of them. */
  lemma RowsErrStep<V>(h: Hooks<V>, records: seq<Record<V>>, fields: seq<string>)
    requires |records| > 0 && Rows(h, records[..|records| - 1], fields).Err?
    ensures Rows(h, records, fields) == Rows(h, records[..|records| - 1], fields)
  {
  }

  /** Once a prefix of the records fails, the whole export fails with the same error. */
  lemma {:induction false} RowsErrPersists<V>(h: Hooks<V>, records: seq<Record<V>>, fields: seq<string>, m: nat)
    requires m <= |records|
    requires Rows(h, records[..m], fields).Err?
    ensures Rows(h, records, fields) == Rows(h, records[..m], fields)
    decreases |records| - m
  {
    if m < |records| {
      var n := |records| - 1;
      if m < n {
        assert records[..n][..m] == records[..m];
        RowsErrPersists(h, records[..n], fields, m);
      }
      assert records[..m] == records[..n] || Rows(h, records[..n], fields) == Rows(h, records[..m], fields);
      RowsErrStep(h, records, fields);
    } else {
      assert records[..m] == records;
    }
  }

  /** A cleaner only reshapes the extracted value: adding one for `f` leaves extraction
      and its errors as they were and applies the cleaner to what was extracted. */
  lemma CleanerOnlyReshapes<V>(h: Hooks<V>, rec: Record<V>, f: string, clean: V -> Result<string, ExportError>)
    ensures var h' := h.(cleaners := h.cleaners[f := clean]);
            && (Extract(h, rec, f).Err? ==> Cell(h', rec, f) == Cell(h, rec, f))
            && (Extract(h, rec, f).Ok? ==> Cell(h', rec, f) == clean(Extract(h, rec, f).value))
  {
  }

  /** An extractor shadows the attribute: with one for `f`, the record's own `f` is never read. */
  lemma ExtractorShadowsAttribute<V>(h: Hooks<V>, rec: Record<V>, rec': Record<V>, f: string)
    requires f in h.extractors
    requires h.extractors[f](rec) == h.extractors[f](rec')
    ensures Cell(h, rec, f) == Cell(h, rec', f)
  {
  }

  /** An override that raises ends the cell with its own error: first the extractor,
      then, on a successful extraction, the cleaner. */
  lemma HookErrorsPropagate<V>(h: Hooks<V>, rec: Record<V>, f: string)
    requires f != ResolverField
    ensures f in h.extractors && h.extractors[f](rec).Err? ==> Cell(h, rec, f) == Err(h.extractors[f](rec).error)
    ensures f in h.extractors && h.extractors[f](rec).Ok? && f in h.cleaners
            ==> Cell(h, rec, f) == h.cleaners[f](h.extractors[f](rec).value)
  {
  }

  /** A field named `names` can never be exported: any row listing it fails with the
      resolver's `TypeError`, whatever the overrides and the record. */
  lemma ResolverFieldNeverExported<V>(h: Hooks<V>, rec: Record<V>, fields: seq<string>)
    requires ResolverField in fields
    ensures RowOf(h, rec, fields).Err?
    ensures Cell(h, rec, ResolverField) == Err(TypeError(ResolverCallMessage))
  {
    var j :| 0 <= j < |fields| && fields[j] == ResolverField;
    assert !CanExtract(h, rec, fields[j]);
  }

  /** Without the resolver field and with overrides that do not raise, a failed export
      can only be a missing attribute. */
  lemma {:induction false} RowsAttributeError<V>(h: Hooks<V>, records: seq<Record<V>>, fields: seq<string>)
    requires ResolverField !in fields
    requires forall i, j :: 0 <= i < |records| && 0 <= j < |fields| ==> HooksSucceed(h, records[i], fields[j])
    requires Rows(h, records, fields).Err?
    ensures Rows(h, records, fields).error.AttributeError?
  {
    RowsError(h, records, fields);
    var i :| && 0 <= i < |records| && RowOf(h, records[i], fields).Err?
             && Rows(h, records, fields).error == RowOf(h, records[i], fields).error;
    RowOfError(h, records[i], fields);
    var k :| FirstFailing(h, records[i], fields, k) && RowOf(h, records[i], fields).error == Cell(h, records[i], fields[k]).error;
    assert HooksSucceed(h, records[i], fields[k]);
    assert fields[k] != ResolverField;
  }
}
