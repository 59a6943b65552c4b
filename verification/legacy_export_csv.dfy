/** The older copy of the ExportCSV view vendored into the demo project.  It runs the
    same pipeline as `ExportCsv` over the same datatypes, with different fallbacks:
    missing configuration raises plain `ImproperlyConfigured`, derived field names keep
    auto-created fields and are never stored, column names are never derived from the
    model, and the header is written only when the column names are non-empty. */
module LegacyExportCsv {
  import opened Basics
  import opened Text
  import opened Tabular
  import ExportCsv

  const QuerysetMessage: string :=
    "No model to get queryset from. Either provide a model or override get_queryset method."
  const FieldNamesMessage: string :=
    "No model to get fields form. Either provide a model or override get_fields method."
  const FilenameMessage: string :=
    "No model to generate filename. Either provide model or filename or override get_filename method."

  /** The class-level defaults: `field_names = []`, `filename = None`, `col_names = []`. */
  const DefaultAttrs: Attrs := Attrs(Some([]), None, ColList([]))

  /** The names of all the model's fields, auto-created ones included, in declaration order. */
  function AllFieldNames(fields: seq<FieldDesc>): (r: seq<string>)
    ensures |r| == |fields|
    ensures forall i :: 0 <= i < |fields| ==> r[i] == fields[i].name
  {
    seq(|fields|, i requires 0 <= i < |fields| => fields[i].name)
  }

  /** The verbose names of all the model's fields, in declaration order. */
  function AllVerboseNames(fields: seq<FieldDesc>): (r: seq<string>)
    ensures |r| == |fields|
    ensures forall i :: 0 <= i < |fields| ==> r[i] == fields[i].verboseName
  {
    seq(|fields|, i requires 0 <= i < |fields| => fields[i].verboseName)
  }

  /** `get_queryset`: the same rule as the current copy, raising `ImproperlyConfigured`. */
  function GetQueryset<V(==)>(v: ExportView<V>, all: seq<Record<V>>): (r: Result<QuerySet<V>, ExportError>)
    ensures v.hooks.queryset.Some? ==> r == Ok(v.hooks.queryset.value)
    ensures v.hooks.queryset.None? ==> (r.Ok? <==> v.model.Some?)
    ensures v.hooks.queryset.None? && v.model.Some? ==> r == Ok(QuerySet(all))
    ensures r.Err? ==> r.error == ImproperlyConfigured(QuerysetMessage)
  {
    if v.hooks.queryset.Some? then Ok(v.hooks.queryset.value)
    else if v.model.Some? then Ok(QuerySet(all))
    else Err(ImproperlyConfigured(QuerysetMessage))
  }

  /** `get_field_names`: an override, then a non-empty `field_names`, then every model
      field name (recomputed on each call, never stored); otherwise `ImproperlyConfigured`. */
  function GetFieldNames<V>(v: ExportView<V>, a: Attrs): (r: Result<seq<string>, ExportError>)
    ensures r.Ok? <==> v.hooks.fieldNames.Some? || Truthy(a.fieldNames) || v.model.Some?
    ensures r.Err? ==> r.error == ImproperlyConfigured(FieldNamesMessage)
    ensures v.hooks.fieldNames.Some? ==> r == Ok(v.hooks.fieldNames.value)
    ensures v.hooks.fieldNames.None? && Truthy(a.fieldNames) ==> r == Ok(a.fieldNames.value)
    ensures v.hooks.fieldNames.None? && !Truthy(a.fieldNames) && v.model.Some? ==>
              r == Ok(AllFieldNames(v.model.value.fields))
  {
    if v.hooks.fieldNames.Some? then Ok(v.hooks.fieldNames.value)
    else if Truthy(a.fieldNames) then Ok(a.fieldNames.value)
    else if v.model.Some? then Ok(AllFieldNames(v.model.value.fields))
    else Err(ImproperlyConfigured(FieldNamesMessage))
  }

  /** `_get_field_verbose_names`: `None` without a model, otherwise every field's verbose
      name, unfiltered. */
  function GetFieldVerboseNames<V>(v: ExportView<V>): (r: Option<seq<string>>)
    ensures r.Some? <==> v.model.Some?
    ensures r.Some? ==> r.value == AllVerboseNames(v.model.value.fields)
  {
    if v.model.None? then None else Some(AllVerboseNames(v.model.value.fields))
  }

  /** `get_col_names`: `col_names` itself when it is non-empty (list or not, unchecked),
      otherwise `None`; never derived from the model. */
  function GetColNames(a: Attrs): (r: ColNames)
    ensures ColTruthy(a.colNames) ==> r == a.colNames
    ensures !ColTruthy(a.colNames) ==> r == NoColNames
  {
    if ColTruthy(a.colNames) then a.colNames else NoColNames
  }

  /** `get_filename`: the same rule as the current copy, raising `ImproperlyConfigured`. */
  function GetFilename<V>(v: ExportView<V>, a: Attrs): (r: Result<(string, Attrs), ExportError>)
    ensures r.Ok? <==> a.filename.Some? || v.model.Some?
    ensures r.Err? ==> r.error == ImproperlyConfigured(FilenameMessage)
    ensures a.filename.Some? ==> r == Ok((a.filename.value, a))
    ensures a.filename.None? && v.model.Some? ==>
              var name := ListFilename(v.model.value.className);
              r == Ok((name, a.(filename := Some(name))))
  {
    if a.filename.Some? then Ok((a.filename.value, a))
    else if v.model.Some? then
      var name := ListFilename(v.model.value.className);
      Ok((name, a.(filename := Some(name))))
    else Err(ImproperlyConfigured(FilenameMessage))
  }

  /** The cells `writerow` produces for a column-names value: a list gives its items; a
      string, being iterable, gives one cell per character. */
  function HeaderCells(c: ColNames): (r: seq<string>)
    ensures c.ColList? ==> r == c.names
    ensures c.ColText? ==> |r| == |c.text| && forall i :: 0 <= i < |r| ==> r[i] == [c.text[i]]
    ensures c.NoColNames? ==> r == []
  {
    match c
    case NoColNames => []
    case ColList(names) => names
    case ColText(text) => seq(|text|, i requires 0 <= i < |text| => [text[i]])
  }

  /** `_create_csv` of the older copy: filename, writer options, column names (always
      resolved and stored), a header row only when `add_col_names` is set and the column
      names are non-empty, then the queryset and field names, then one row per record. */
  function CreateCsv<V(==)>(v: ExportView<V>, a: Attrs, all: seq<Record<V>>): (r: Result<Response, ExportError>)
    ensures r.Ok? ==> r.value.contentType == ContentType && r.value.dialect == Dialect
    ensures r.Ok? ==> r.value.writerOptions == WriterKwargs(v)
    ensures r.Ok? <==> (a.filename.Some? || v.model.Some?)
                       && GetQueryset(v, all).Ok?
                       && GetFieldNames(v, a).Ok?
                       && DataRows(v.hooks, GetQueryset(v, all).value, GetFieldNames(v, a).value).Ok?
    ensures r.Ok? ==> r.value.contentDisposition == ContentDisposition(GetFilename(v, a).value.0)
    ensures r.Ok? ==> var header := if v.addColNames && ColTruthy(a.colNames) then 1 else 0;
                      |r.value.rows| == RecordCount(GetQueryset(v, all).value) + header
  {
    var named :- GetFilename(v, a);
    var options := WriterKwargs(v);
    var cols := GetColNames(named.1);
    var stored := named.1.(colNames := cols);
    var header := if v.addColNames && ColTruthy(cols) then [HeaderCells(cols)] else [];
    var qs :- GetQueryset(v, all);
    var fields :- GetFieldNames(v, stored);
    var body :- DataRows(v.hooks, qs, fields);
    Ok(Response(ContentType, ContentDisposition(named.0), Dialect, options, header + body))
  }

  /** The header of the older copy is exactly `col_names` when requested and non-empty;
      it is never derived from the model, and data rows follow it record by record. */
  lemma {:induction false} CreateCsvLayout<V>(v: ExportView<V>, a: Attrs, all: seq<Record<V>>)
    requires CreateCsv(v, a, all).Ok?
    ensures var rows := CreateCsv(v, a, all).value.rows;
            var qs := GetQueryset(v, all).value;
            var header := if v.addColNames && ColTruthy(a.colNames) then 1 else 0;
            && (header == 1 ==> rows[0] == HeaderCells(a.colNames))
            && forall i :: 0 <= i < RecordCount(qs) ==>
                 RowOf(v.hooks, qs.records[i], GetFieldNames(v, a).value) == Ok(rows[header + i])
  {
    var qs := GetQueryset(v, all).value;
    var fields := GetFieldNames(v, a).value;
    if qs.QuerySet? {
      RowsContents(v.hooks, qs.records, fields);
    }
  }

  // ---------------------------------------------------------------------------
  // How the two copies differ

  /** Both copies decide the queryset alike; they differ only in the error raised, and
      both errors are `ImproperlyConfigured` (the newer one through its subclass). */
  lemma QuerysetAgrees<V>(v: ExportView<V>, all: seq<Record<V>>)
    ensures GetQueryset(v, all).Ok? <==> ExportCsv.GetQueryset(v, all).Ok?
    ensures GetQueryset(v, all).Ok? ==> GetQueryset(v, all).value == ExportCsv.GetQueryset(v, all).value
    ensures GetQueryset(v, all).Err? ==> GetQueryset(v, all).error.IsImproperlyConfigured()
                                         && ExportCsv.GetQueryset(v, all).error.IsImproperlyConfigured()
  {
  }

  /** Both copies resolve the filename alike, and store a derived one alike; without a
      model or filename both raise an `ImproperlyConfigured` with the same message. */
  lemma FilenameAgrees<V>(v: ExportView<V>, a: Attrs)
    ensures GetFilename(v, a).Ok? <==> ExportCsv.GetFilename(v, a).Ok?
    ensures GetFilename(v, a).Ok? ==> GetFilename(v, a).value == ExportCsv.GetFilename(v, a).value
    ensures GetFilename(v, a).Err? ==> && GetFilename(v, a).error.IsImproperlyConfigured()
                                       && ExportCsv.GetFilename(v, a).error.IsImproperlyConfigured()
                                       && GetFilename(v, a).error.message == ExportCsv.GetFilename(v, a).error.message
  {
  }

  /** Derived field names: the older copy keeps auto-created fields, so both copies agree
      exactly when the model declares none. */
  lemma {:induction false} DerivedFieldNamesDiffer(fields: seq<FieldDesc>)
    ensures (forall f :: f in fields ==> !f.autoCreated) ==> AllFieldNames(fields) == ExportCsv.NonAutoFieldNames(fields)
    ensures (exists f :: f in fields && f.autoCreated) ==> |ExportCsv.NonAutoFieldNames(fields)| < |AllFieldNames(fields)|
    decreases |fields|
  {
    if |fields| > 0 {
      var n := |fields| - 1;
      var init := fields[..n];
      assert fields == init + [fields[n]];
      assert forall f :: f in init ==> f in fields;
      DerivedFieldNamesDiffer(init);
      assert AllFieldNames(fields) == AllFieldNames(init) + [fields[n].name];
      if exists f :: f in fields && f.autoCreated {
        if !fields[n].autoCreated {
          var f :| f in fields && f.autoCreated;
          assert f in init;
        }
      }
    }
  }

  /** Asked for a header without explicit column names, the older copy writes none, where
      the current copy writes one row of the model's verbose names before the same data. */
  lemma HeaderFallbackDiffers<V>(v: ExportView<V>, a: Attrs, all: seq<Record<V>>)
    requires v.addColNames && !ColTruthy(a.colNames)
    requires CreateCsv(v, a, all).Ok? && ExportCsv.CreateCsv(v, a, all).Ok?
    ensures |CreateCsv(v, a, all).value.rows| == RecordCount(GetQueryset(v, all).value)
    ensures |ExportCsv.CreateCsv(v, a, all).value.rows| == |CreateCsv(v, a, all).value.rows| + 1
    ensures v.model.Some? && ExportCsv.GetFieldNames(v, a).Ok?
    ensures ExportCsv.CreateCsv(v, a, all).value.rows[0]
            == ExportCsv.VerboseNamesIn(v.model.value.fields, ExportCsv.GetFieldNames(v, a).value.0)
  {
    ExportCsv.CreateCsvLayout(v, a, all);
    QuerysetAgrees(v, all);
  }

  /** Verbose names: the older copy lists every field's, the current copy only those of
      the resolved field names; they agree exactly when every field is among them. */
  lemma {:induction false} VerboseNamesDiffer(fields: seq<FieldDesc>, names: seq<string>)
    ensures (forall i :: 0 <= i < |fields| ==> fields[i].name in names)
            ==> ExportCsv.VerboseNamesIn(fields, names) == AllVerboseNames(fields)
    ensures (exists i :: 0 <= i < |fields| && fields[i].name !in names)
            ==> |ExportCsv.VerboseNamesIn(fields, names)| < |AllVerboseNames(fields)|
    decreases |fields|
  {
    if |fields| > 0 {
      var n := |fields| - 1;
      var init := fields[..n];
      assert fields == init + [fields[n]];
      ExportCsv.VerboseNamesInSnoc(init, fields[n], names);
      VerboseNamesDiffer(init, names);
      assert AllVerboseNames(fields) == AllVerboseNames(init) + [fields[n].verboseName];
      if exists i :: 0 <= i < |fields| && fields[i].name !in names {
        if fields[n].name in names {
          var i :| 0 <= i < |fields| && fields[i].name !in names;
          assert init[i].name !in names;
        }
      }
    }
  }

  /** Without a header and with the field names given explicitly, both copies produce
      the same response, provided the queryset and filename can be resolved. */
  lemma HeaderlessCopiesAgree<V>(v: ExportView<V>, a: Attrs, a': Attrs, all: seq<Record<V>>)
    requires !v.addColNames
    requires a'.filename == a.filename && (a.filename.Some? || v.model.Some?)
    requires v.hooks.queryset.Some? || v.model.Some?
    requires v.hooks.fieldNames.Some? || (Truthy(a.fieldNames) && a'.fieldNames == a.fieldNames)
    ensures CreateCsv(v, a', all) == ExportCsv.CreateCsv(v, a, all)
  {
    QuerysetAgrees(v, all);
  }
}
