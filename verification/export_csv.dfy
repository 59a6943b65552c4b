/** The ExportCSV view of the `export_csv` package: four resolvers with their
    precedence, fallback, memoisation and error rules, and `_create_csv`, which
    resolves them in a fixed order and assembles the response.

    A resolver that writes an attribute back (`self.field_names = ...`,
    `self.filename = ...`, `self.col_names = ...`) returns the updated `Attrs`
    beside its value. */
module ExportCsv {
  import opened Basics
  import opened Text
  import opened Tabular

  const QuerysetMessage: string :=
    "No model to get queryset from. Either provide a model or override get_queryset method."
  const FieldNamesMessage: string :=
    "No model to get field names from. Either provide a model or override get_fields method."
  const VerboseNamesMessage: string := "No model to get verbose field names from."
  const ColNamesTypeMessage: string := "col_names must be a list."
  const FilenameMessage: string :=
    "No model to generate filename. Either provide model or filename or override get_filename method."

  /** The attributes of a freshly configured view: nothing set. */
  const DefaultAttrs: Attrs := Attrs(None, None, NoColNames)

  /** Names of the model's fields that are not auto-created, in declaration order. */
  function NonAutoFieldNames(fields: seq<FieldDesc>): (r: seq<string>)
    ensures |r| <= |fields|
    ensures forall n :: n in r <==> exists f :: f in fields && !f.autoCreated && f.name == n
    decreases |fields|
  {
    if |fields| == 0 then []
    else
      var init := NonAutoFieldNames(fields[..|fields| - 1]);
      var last := fields[|fields| - 1];
      assert fields == fields[..|fields| - 1] + [last];
      if last.autoCreated then init else init + [last.name]
  }

  /** Appending one field appends its name unless it is auto-created. */
  lemma NonAutoFieldNamesSnoc(fields: seq<FieldDesc>, f: FieldDesc)
    ensures NonAutoFieldNames(fields + [f]) == NonAutoFieldNames(fields) + (if f.autoCreated then [] else [f.name])
  {
    assert (fields + [f])[..|fields|] == fields;
  }

  /** Declaration order is kept: the names of two field lists placed end to end
      are the names of the first followed by the names of the second. */
  lemma {:induction false} NonAutoFieldNamesAppend(a: seq<FieldDesc>, b: seq<FieldDesc>)
    ensures NonAutoFieldNames(a + b) == NonAutoFieldNames(a) + NonAutoFieldNames(b)
    decreases |b|
  {
    if |b| > 0 {
      var n := |b| - 1;
      assert (a + b)[..|a + b| - 1] == a + b[..n];
      NonAutoFieldNamesAppend(a, b[..n]);
    } else {
      assert a + b == a;
    }
  }

  /** `get_queryset`: an override wins; otherwise all records of `model`; with neither,
      `NoModelFoundException`.  `all` is what `model.objects.all()` yields. */
  function GetQueryset<V(==)>(v: ExportView<V>, all: seq<Record<V>>): (r: Result<QuerySet<V>, ExportError>)
    ensures v.hooks.queryset.Some? ==> r == Ok(v.hooks.queryset.value)
    ensures v.hooks.queryset.None? ==> (r.Ok? <==> v.model.Some?)
    ensures v.hooks.queryset.None? && v.model.Some? ==> r == Ok(QuerySet(all))
    ensures r.Err? ==> r.error == NoModelFound(QuerysetMessage)
  {
    if v.hooks.queryset.Some? then Ok(v.hooks.queryset.value)
    else if v.model.Some? then Ok(QuerySet(all))
    else Err(NoModelFound(QuerysetMessage))
  }

  /** `get_field_names`: an override wins; then a non-empty `field_names`, returned
      as is; then the model's non-auto-created names, stored into `field_names`;
      with none of these, `NoModelFoundException`. */
  function GetFieldNames<V>(v: ExportView<V>, a: Attrs): (r: Result<(seq<string>, Attrs), ExportError>)
    ensures r.Ok? <==> v.hooks.fieldNames.Some? || Truthy(a.fieldNames) || v.model.Some?
    ensures r.Err? ==> r.error == NoModelFound(FieldNamesMessage)
    ensures v.hooks.fieldNames.Some? ==> r == Ok((v.hooks.fieldNames.value, a))
    ensures v.hooks.fieldNames.None? && Truthy(a.fieldNames) ==> r == Ok((a.fieldNames.value, a))
    ensures v.hooks.fieldNames.None? && !Truthy(a.fieldNames) && v.model.Some? ==>
              var names := NonAutoFieldNames(v.model.value.fields);
              r == Ok((names, a.(fieldNames := Some(names))))
    ensures r.Ok? ==> r.value.1.filename == a.filename && r.value.1.colNames == a.colNames
  {
    if v.hooks.fieldNames.Some? then Ok((v.hooks.fieldNames.value, a))
    else if Truthy(a.fieldNames) then Ok((a.fieldNames.value, a))
    else if v.model.Some? then
      var names := NonAutoFieldNames(v.model.value.fields);
      Ok((names, a.(fieldNames := Some(names))))
    else Err(NoModelFound(FieldNamesMessage))
  }

  /** Memoisation: calling `get_field_names` again on the attributes it left behind
      returns the same names and changes nothing further. */
  lemma GetFieldNamesMemoised<V>(v: ExportView<V>, a: Attrs)
    requires GetFieldNames(v, a).Ok?
    ensures var (names, a') := GetFieldNames(v, a).value;
            GetFieldNames(v, a') == Ok((names, a'))
  {
  }

  /** Explicit names win over the model's, even when both are present. */
  lemma ExplicitFieldNamesWin<V>(v: ExportView<V>, a: Attrs)
    requires v.hooks.fieldNames.None? && Truthy(a.fieldNames) && v.model.Some?
    ensures GetFieldNames(v, a).Ok?
    ensures GetFieldNames(v, a).value.0 == a.fieldNames.value
  {
  }

  /** Verbose names of the model fields whose name is listed in `names`, in the order the
      model declares them. */
  function VerboseNamesIn(fields: seq<FieldDesc>, names: seq<string>): (r: seq<string>)
    ensures |r| <= |fields|
    ensures forall s :: s in r <==> exists f :: f in fields && f.name in names && f.verboseName == s
    decreases |fields|
  {
    if |fields| == 0 then []
    else
      var init := VerboseNamesIn(fields[..|fields| - 1], names);
      var last := fields[|fields| - 1];
      assert fields == fields[..|fields| - 1] + [last];
      if last.name in names then init + [last.verboseName] else init
  }

  /** Appending a field appends its verbose name exactly when it was requested. */
  lemma VerboseNamesInSnoc(fields: seq<FieldDesc>, f: FieldDesc, names: seq<string>)
    ensures VerboseNamesIn(fields + [f], names)
            == VerboseNamesIn(fields, names) + (if f.name in names then [f.verboseName] else [])
  {
    assert (fields + [f])[..|fields|] == fields;
  }

  /** The order of the requested names, and any duplicates among them, make no
      difference: the result follows the model's declaration order. */
  lemma {:induction false} VerboseNamesIgnoreRequestOrder(fields: seq<FieldDesc>, names: seq<string>, names': seq<string>)
    requires forall n :: n in names <==> n in names'
    ensures VerboseNamesIn(fields, names) == VerboseNamesIn(fields, names')
    decreases |fields|
  {
    if |fields| > 0 {
      VerboseNamesIgnoreRequestOrder(fields[..|fields| - 1], names, names');
    }
  }

  /** A requested name that no model field carries contributes nothing. */
  lemma {:induction false} VerboseNamesSkipUnknown(fields: seq<FieldDesc>, names: seq<string>, extra: string)
    requires forall f :: f in fields ==> f.name != extra
    ensures VerboseNamesIn(fields, names + [extra]) == VerboseNamesIn(fields, names)
    decreases |fields|
  {
    if |fields| > 0 {
      var init := fields[..|fields| - 1];
      assert forall f :: f in init ==> f in fields;
      VerboseNamesSkipUnknown(init, names, extra);
    }
  }

  /** `_get_field_verbose_names`: resolves the field names first (so their error comes
      first), then needs the model; with one, the verbose names of its fields that were
      resolved, in model order. */
  function GetFieldVerboseNames<V>(v: ExportView<V>, a: Attrs): (r: Result<(seq<string>, Attrs), ExportError>)
    ensures GetFieldNames(v, a).Err? ==> r == Err(GetFieldNames(v, a).error)
    ensures r.Ok? <==> GetFieldNames(v, a).Ok? && v.model.Some?
    ensures GetFieldNames(v, a).Ok? && v.model.None? ==> r == Err(NoModelFound(VerboseNamesMessage))
    ensures r.Ok? ==> r.value.0 == VerboseNamesIn(v.model.value.fields, GetFieldNames(v, a).value.0)
    ensures r.Ok? ==> r.value.1 == GetFieldNames(v, a).value.1
  {
    var p :- GetFieldNames(v, a);
    if v.model.Some? then Ok((VerboseNamesIn(v.model.value.fields, p.0), p.1))
    else Err(NoModelFound(VerboseNamesMessage))
  }

  /** `get_col_names`: a non-empty list is returned unchanged; a non-empty value that is
      not a list raises `TypeError`; `None` or empty falls back to the verbose names. */
  function GetColNames<V>(v: ExportView<V>, a: Attrs): (r: Result<(seq<string>, Attrs), ExportError>)
    ensures a.colNames.ColList? && |a.colNames.names| > 0 ==> r == Ok((a.colNames.names, a))
    ensures a.colNames.ColText? && |a.colNames.text| > 0 ==> r == Err(TypeError(ColNamesTypeMessage))
    ensures !ColTruthy(a.colNames) ==> r == GetFieldVerboseNames(v, a)
  {
    match a.colNames
    case ColList(names) =>
      if |names| > 0 then Ok((names, a)) else GetFieldVerboseNames(v, a)
    case ColText(text) =>
      if |text| > 0 then Err(TypeError(ColNamesTypeMessage)) else GetFieldVerboseNames(v, a)
    case NoColNames =>
      GetFieldVerboseNames(v, a)
  }

  /** `TypeError` comes from `get_col_names` exactly when `col_names` is a non-empty non-list. */
  lemma ColNamesTypeErrorExactly<V>(v: ExportView<V>, a: Attrs)
    ensures (GetColNames(v, a).Err? && GetColNames(v, a).error.TypeError?)
            <==> (a.colNames.ColText? && |a.colNames.text| > 0)
  {
  }

  /** `get_filename`: any explicit filename wins, even the empty one; otherwise
      `<lower-cased class name>_list.csv`, stored into `filename`; with neither,
      `NoModelFoundException`. */
  function GetFilename<V>(v: ExportView<V>, a: Attrs): (r: Result<(string, Attrs), ExportError>)
    ensures r.Ok? <==> a.filename.Some? || v.model.Some?
    ensures r.Err? ==> r.error == NoModelFound(FilenameMessage)
    ensures a.filename.Some? ==> r == Ok((a.filename.value, a))
    ensures a.filename.None? && v.model.Some? ==>
              var name := ListFilename(v.model.value.className);
              r == Ok((name, a.(filename := Some(name))))
    ensures r.Ok? ==> r.value.1.fieldNames == a.fieldNames && r.value.1.colNames == a.colNames
  {
    if a.filename.Some? then Ok((a.filename.value, a))
    else if v.model.Some? then
      var name := ListFilename(v.model.value.className);
      Ok((name, a.(filename := Some(name))))
    else Err(NoModelFound(FilenameMessage))
  }

  /** Memoisation: a repeat call returns the filename the first call resolved. */
  lemma GetFilenameMemoised<V>(v: ExportView<V>, a: Attrs)
    requires GetFilename(v, a).Ok?
    ensures var (name, a') := GetFilename(v, a).value;
            GetFilename(v, a') == Ok((name, a'))
  {
  }

  /** A derived filename is lower case throughout and ends with `_list.csv`. */
  lemma DerivedFilenameShape<V>(v: ExportView<V>, a: Attrs)
    requires a.filename.None? && v.model.Some?
    ensures var name := GetFilename(v, a).value.0;
            && NoUpper(name)
            && name[..|name| - |ListSuffix|] == Lower(v.model.value.className)
            && name[|name| - |ListSuffix|..] == ListSuffix
  {
  }

  /** The header step of `_create_csv`: when `add_col_names` is set, resolve the column
      names, store them into `col_names` and emit them as one row. */
  function HeaderRows<V>(v: ExportView<V>, a: Attrs): (r: Result<(seq<seq<string>>, Attrs), ExportError>)
    ensures !v.addColNames ==> r == Ok(([], a))
    ensures v.addColNames ==> (r.Ok? <==> GetColNames(v, a).Ok?)
    ensures v.addColNames && GetColNames(v, a).Err? ==> r == Err(GetColNames(v, a).error)
    ensures v.addColNames && r.Ok? ==> r.value.0 == [GetColNames(v, a).value.0]
  {
    if !v.addColNames then Ok(([], a))
    else
      var p :- GetColNames(v, a);
      Ok(([p.0], p.1.(colNames := ColList(p.0))))
  }

  /** `_create_csv`: filename, writer options, header, queryset, field names — in that
      order, the first failure ending the export — then the header row (if any) followed
      by one row per record. */
  function CreateCsv<V(==)>(v: ExportView<V>, a: Attrs, all: seq<Record<V>>): (r: Result<Response, ExportError>)
    ensures r.Ok? ==> r.value.contentType == ContentType && r.value.dialect == Dialect
    ensures r.Ok? ==> r.value.writerOptions == WriterKwargs(v)
    ensures GetFilename(v, a).Err? ==> r == Err(GetFilename(v, a).error)
    ensures r.Ok? ==> GetFilename(v, a).Ok?
                      && r.value.contentDisposition == ContentDisposition(GetFilename(v, a).value.0)
  {
    var named :- GetFilename(v, a);
    var options := WriterKwargs(v);
    var headed :- HeaderRows(v, named.1);
    var qs :- GetQueryset(v, all);
    var fielded :- GetFieldNames(v, headed.1);
    var body :- DataRows(v.hooks, qs, fielded.0);
    Ok(Response(ContentType, ContentDisposition(named.0), Dialect, options, headed.0 + body))
  }

  /** Column names do not depend on the filename attribute, so resolving the filename
      first does not change the header. */
  lemma ColNamesIgnoreFilename<V>(v: ExportView<V>, a: Attrs, name: Option<string>)
    ensures GetColNames(v, a.(filename := name)).Ok? <==> GetColNames(v, a).Ok?
    ensures GetColNames(v, a).Ok? ==> GetColNames(v, a.(filename := name)).value.0 == GetColNames(v, a).value.0
    ensures GetColNames(v, a).Err? ==> GetColNames(v, a.(filename := name)).error == GetColNames(v, a).error
  {
  }

  /** The header step leaves the field names to be exported as they were: either it did
      not touch `field_names`, or it stored exactly the names `get_field_names` returns. */
  lemma FieldNamesAfterHeader<V>(v: ExportView<V>, a: Attrs)
    requires HeaderRows(v, a).Ok?
    ensures GetFieldNames(v, HeaderRows(v, a).value.1).Ok? <==> GetFieldNames(v, a).Ok?
    ensures GetFieldNames(v, a).Ok? ==> GetFieldNames(v, HeaderRows(v, a).value.1).value.0 == GetFieldNames(v, a).value.0
  {
    if v.addColNames && !ColTruthy(a.colNames) {
      GetFieldNamesMemoised(v, a);
    }
  }

  /** The layout of a successful export: one header row exactly when `add_col_names` is
      set (holding the resolved column names, even when there are none), then one row per
      record of the queryset, in order, each being that record's row over the resolved
      field names. */
  lemma {:induction false} CreateCsvLayout<V>(v: ExportView<V>, a: Attrs, all: seq<Record<V>>)
    requires CreateCsv(v, a, all).Ok?
    ensures GetQueryset(v, all).Ok? && GetFieldNames(v, a).Ok?
    ensures var rows := CreateCsv(v, a, all).value.rows;
            var qs := GetQueryset(v, all).value;
            var header := if v.addColNames then 1 else 0;
            && |rows| == RecordCount(qs) + header
            && (v.addColNames ==> GetColNames(v, a).Ok? && rows[0] == GetColNames(v, a).value.0)
            && forall i :: 0 <= i < RecordCount(qs) ==>
                 RowOf(v.hooks, qs.records[i], GetFieldNames(v, a).value.0) == Ok(rows[header + i])
  {
    var named := GetFilename(v, a).value;
    ColNamesIgnoreFilename(v, a, named.1.filename);
    assert named.1 == a.(filename := named.1.filename);
    var headed := HeaderRows(v, named.1).value;
    FieldNamesAfterHeader(v, named.1);
    assert GetFieldNames(v, named.1).Ok? <==> GetFieldNames(v, a).Ok?;
    var qs := GetQueryset(v, all).value;
    var fields := GetFieldNames(v, headed.1).value.0;
    assert fields == GetFieldNames(v, a).value.0;
    var body := DataRows(v.hooks, qs, fields).value;
    assert CreateCsv(v, a, all).value.rows == headed.0 + body;
    if qs.QuerySet? {
      RowsContents(v.hooks, qs.records, fields);
    }
  }

  /** Once every resolver succeeds, the records alone decide the outcome: the export
      fails exactly when a row fails, with that row's error. */
  lemma CreateCsvRowsDecide<V>(v: ExportView<V>, a: Attrs, all: seq<Record<V>>)
    requires GetFilename(v, a).Ok? && (v.addColNames ==> GetColNames(v, a).Ok?)
    requires GetQueryset(v, all).Ok? && GetFieldNames(v, a).Ok?
    ensures var body := DataRows(v.hooks, GetQueryset(v, all).value, GetFieldNames(v, a).value.0);
            && (CreateCsv(v, a, all).Ok? <==> body.Ok?)
            && (body.Err? ==> CreateCsv(v, a, all) == Err(body.error))
  {
    var named := GetFilename(v, a).value;
    ColNamesIgnoreFilename(v, a, named.1.filename);
    assert named.1 == a.(filename := named.1.filename);
    FieldNamesAfterHeader(v, named.1);
  }

  /** Without a header, a successful export's rows are exactly the data rows. */
  lemma CreateCsvHeaderless<V>(v: ExportView<V>, a: Attrs, all: seq<Record<V>>)
    requires !v.addColNames && CreateCsv(v, a, all).Ok?
    ensures GetQueryset(v, all).Ok? && GetFieldNames(v, a).Ok?
    ensures DataRows(v.hooks, GetQueryset(v, all).value, GetFieldNames(v, a).value.0)
            == Ok(CreateCsv(v, a, all).value.rows)
  {
    var named := GetFilename(v, a).value;
    assert named.1 == a.(filename := named.1.filename);
    assert HeaderRows(v, named.1) == Ok(([], named.1));
    var qs := GetQueryset(v, all).value;
    var fields := GetFieldNames(v, named.1).value.0;
    assert fields == GetFieldNames(v, a).value.0;
    var body := DataRows(v.hooks, qs, fields).value;
    assert CreateCsv(v, a, all).value.rows == [] + body;
    assert [] + body == body;
  }

  /** Without a header or a queryset override, a successful export holds one row per
      record given, in order, each over the resolved field names. */
  lemma HeaderlessRows<V>(v: ExportView<V>, a: Attrs, all: seq<Record<V>>)
    requires !v.addColNames && v.hooks.queryset.None? && CreateCsv(v, a, all).Ok?
    ensures GetFieldNames(v, a).Ok?
    ensures var rows := CreateCsv(v, a, all).value.rows;
            && |rows| == |all|
            && forall i :: 0 <= i < |all| ==> RowOf(v.hooks, all[i], GetFieldNames(v, a).value.0) == Ok(rows[i])
  {
    CreateCsvLayout(v, a, all);
    assert GetQueryset(v, all) == Ok(QuerySet(all));
  }

  /** With a header and no records, the export is the header row alone, however many
      columns it has. */
  lemma EmptyExportIsHeaderOnly<V>(v: ExportView<V>, a: Attrs)
    requires v.addColNames && v.hooks.queryset.None? && CreateCsv(v, a, []).Ok?
    ensures GetColNames(v, a).Ok?
    ensures CreateCsv(v, a, []).value.rows == [GetColNames(v, a).value.0]
  {
    CreateCsvLayout(v, a, []);
    assert GetQueryset(v, []) == Ok(QuerySet([]));
  }

  /** The first resolver that fails, in the order filename, column names (only when a
      header is wanted), queryset, field names, decides the export's error. */
  lemma CreateCsvErrorOrder<V>(v: ExportView<V>, a: Attrs, all: seq<Record<V>>)
    ensures GetFilename(v, a).Ok? && v.addColNames && GetColNames(v, a).Err? ==>
              CreateCsv(v, a, all) == Err(GetColNames(v, a).error)
    ensures GetFilename(v, a).Ok? && (v.addColNames ==> GetColNames(v, a).Ok?) && GetQueryset(v, all).Err? ==>
              CreateCsv(v, a, all) == Err(NoModelFound(QuerysetMessage))
    ensures GetFilename(v, a).Ok? && (v.addColNames ==> GetColNames(v, a).Ok?) && GetQueryset(v, all).Ok?
            && GetFieldNames(v, a).Err? ==>
              CreateCsv(v, a, all) == Err(NoModelFound(FieldNamesMessage))
  {
    if GetFilename(v, a).Ok? {
      var named := GetFilename(v, a).value;
      ColNamesIgnoreFilename(v, a, named.1.filename);
      assert named.1 == a.(filename := named.1.filename);
      if HeaderRows(v, named.1).Ok? {
        FieldNamesAfterHeader(v, named.1);
      }
    }
  }

  /** Without a model, an export must have an explicit filename or it raises
      `NoModelFoundException` before anything else is resolved. */
  lemma NoModelNoFilenameFails<V>(v: ExportView<V>, a: Attrs, all: seq<Record<V>>)
    requires v.model.None? && a.filename.None?
    ensures CreateCsv(v, a, all) == Err(NoModelFound(FilenameMessage))
  {
  }

  /** A data row per record, in the shape the header promises: every row of a
      successful export that is not the header has one cell per resolved field. */
  lemma RowsHaveFieldWidth<V>(v: ExportView<V>, a: Attrs, all: seq<Record<V>>)
    requires CreateCsv(v, a, all).Ok?
    ensures var rows := CreateCsv(v, a, all).value.rows;
            var header := if v.addColNames then 1 else 0;
            forall k :: header <= k < |rows| ==> |rows[k]| == |GetFieldNames(v, a).value.0|
  {
    CreateCsvLayout(v, a, all);
    var rows := CreateCsv(v, a, all).value.rows;
    var header := if v.addColNames then 1 else 0;
    var qs := GetQueryset(v, all).value;
    forall k | header <= k < |rows|
      ensures |rows[k]| == |GetFieldNames(v, a).value.0|
    {
      assert RowOf(v.hooks, qs.records[k - header], GetFieldNames(v, a).value.0) == Ok(rows[header + (k - header)]);
    }
  }
}
