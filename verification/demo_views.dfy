/** The demo application's three export views, and the `Customer` fixture of the test
    suite, as concrete configurations of the ExportCSV pipeline.  Values stored on a
    record are `DemoValue`s, converted to text as `force_text` would. */
module DemoViews {
  import opened Basics
  import opened Text
  import opened Tabular
  import ExportCsv
  import LegacyExportCsv

  datatype DemoValue =
    | Str(s: string)
    | Flag(b: bool)
    | Amount(cents: int)
    | Moment(iso: string)
    | Related(display: string)
    | Null

  /** `Decimal` rendering with two places, e.g. `-1.50`. */
  function AmountText(cents: int): (r: string)
    ensures |r| >= 4
  {
    var mag: nat := if cents < 0 then -cents else cents;
    var frac := mag % 100;
    (if cents < 0 then "-" else "") + NatToText(mag / 100) + "." + [DigitChar(frac / 10), DigitChar(frac % 10)]
  }

  /** `force_text` on a demo value; a related object renders as its `__str__`. */
  function DemoText(v: DemoValue): string {
    match v
    case Str(s) => s
    case Flag(b) => if b then "True" else "False"
    case Amount(c) => AmountText(c)
    case Moment(iso) => iso
    case Related(display) => display
    case Null => "None"
  }

  const DefaultHooks: Hooks<DemoValue> := Hooks(None, None, None, map[], map[], DemoText)

  /** The models as the ORM describes them, `id` being the auto-created primary key and
      verbose names the ones derived from the field names. */
  const CustomerModel: ModelDesc := ModelDesc("Customer", [
    FieldDesc("id", "ID", true),
    FieldDesc("name", "name", false),
    FieldDesc("address", "address", false),
    FieldDesc("is_active", "is active", false),
    FieldDesc("last_updated", "last updated", false)])

  const TransactionModel: ModelDesc := ModelDesc("Transaction", [
    FieldDesc("id", "ID", true),
    FieldDesc("account", "account", false),
    FieldDesc("transaction_id", "transaction id", false),
    FieldDesc("transaction_date", "transaction date", false),
    FieldDesc("exchange", "exchange", false),
    FieldDesc("is_fraudulent", "is fraudulent", false),
    FieldDesc("is_reviewed", "is reviewed", false)])

  /** The test suite's `Customer`, whose `is_active` carries the verbose name `Is Active`. */
  const FixtureCustomerModel: ModelDesc := ModelDesc("Customer", [
    FieldDesc("id", "ID", true),
    FieldDesc("name", "name", false),
    FieldDesc("address", "address", false),
    FieldDesc("is_active", "Is Active", false),
    FieldDesc("last_updated", "last updated", false)])

  const CustomerColumns: seq<string> := ["name", "address", "is_active", "last_updated"]
  const AccountColumns: seq<string> := ["account_no", "owner"]
  const TransactionColumns: seq<string> := ["account", "transaction_id", "transaction_date"]
  const RichThreshold: Cents := 600000 * 100
  const AccountFilename: string := "rich_account_list.csv"
  const TransactionFilename: string := "transactions_csv_filename.csv"
  const TransactionWriterOptions: WriterOptions := WriterOptions(Some(QuoteAll), Some(" "), Some("|"))

  type Cents = int

  /** `balance__gt=600000`. */
  predicate IsRich(rec: Record<DemoValue>) {
    "balance" in rec && rec["balance"].Amount? && rec["balance"].cents > RichThreshold
  }

  /** `Account.objects.filter(balance__gt=600000)`: the rich accounts, in table order. */
  function RichAccounts(accounts: seq<Record<DemoValue>>): (r: seq<Record<DemoValue>>)
    ensures |r| <= |accounts|
    ensures forall rec :: rec in r <==> rec in accounts && IsRich(rec)
    decreases |accounts|
  {
    if |accounts| == 0 then []
    else
      var n := |accounts| - 1;
      assert accounts == accounts[..n] + [accounts[n]];
      var init := RichAccounts(accounts[..n]);
      if IsRich(accounts[n]) then init + [accounts[n]] else init
  }

  /** `CustomerCSV`: only `model` is set. */
  const CustomerCsv: ExportView<DemoValue> := ExportView(Some(CustomerModel), false, DefaultHooks)

  /** `AccountCSV`: no model; queryset, field names and filename are all supplied. */
  function AccountCsv(accounts: seq<Record<DemoValue>>): ExportView<DemoValue> {
    ExportView(None, false, DefaultHooks.(queryset := Some(QuerySet(RichAccounts(accounts))),
                                          fieldNames := Some(AccountColumns)))
  }

  const AccountCsvAttrs: Attrs := ExportCsv.DefaultAttrs.(filename := Some(AccountFilename))

  /** `TransactionCSV.clean_transaction_id`: `str(value).lower()`. */
  function CleanTransactionId(v: DemoValue): (r: string)
    ensures NoUpper(r) && |r| == |DemoText(v)|
  {
    Lower(DemoText(v))
  }

  /** `TransactionCSV`: a model, but explicit field names, filename and writer options,
      and a cleaner for `transaction_id`. */
  const TransactionCsv: ExportView<DemoValue> :=
    ExportView(Some(TransactionModel), false,
               DefaultHooks.(writerKwargs := Some(TransactionWriterOptions),
                             cleaners := map["transaction_id" := v => Ok(CleanTransactionId(v))]))

  const TransactionCsvAttrs: Attrs :=
    ExportCsv.DefaultAttrs.(fieldNames := Some(TransactionColumns), filename := Some(TransactionFilename))

  predicate HasColumns(rec: Record<DemoValue>, columns: seq<string>) {
    forall j :: 0 <= j < |columns| ==> columns[j] in rec
  }

  /** Every record carries every one of `columns`. */
  predicate AllHaveColumns(records: seq<Record<DemoValue>>, columns: seq<string>) {
    forall i :: 0 <= i < |records| ==> HasColumns(records[i], columns)
  }

  /** The cells default text conversion gives a record over `columns`. */
  function TextCells(rec: Record<DemoValue>, columns: seq<string>): (r: seq<string>)
    requires HasColumns(rec, columns)
    ensures |r| == |columns|
    ensures forall j :: 0 <= j < |columns| ==> r[j] == DemoText(rec[columns[j]])
  {
    seq(|columns|, j requires 0 <= j < |columns| => DemoText(rec[columns[j]]))
  }

  /** Without overrides, and without the field `names`, an export succeeds exactly when
      every record carries every exported attribute. */
  lemma {:induction false} ReadableIffColumns(h: Hooks<DemoValue>, records: seq<Record<DemoValue>>, columns: seq<string>)
    requires h.extractors.Keys == {} && h.cleaners.Keys == {}
    requires ResolverField !in columns
    ensures DataRows(h, QuerySet(records), columns).Ok? <==> AllHaveColumns(records, columns)
  {
    forall i | 0 <= i < |records|
      ensures RowOf(h, records[i], columns).Ok? <==> HasColumns(records[i], columns)
    {
      assert RowReadable(h, records[i], columns) <==> HasColumns(records[i], columns);
    }
  }

  /** A row produced without extractors or cleaners is the default text of each attribute. */
  lemma DefaultRow(h: Hooks<DemoValue>, rec: Record<DemoValue>, columns: seq<string>, row: seq<string>)
    requires h.extractors.Keys == {} && h.cleaners.Keys == {}
    requires forall x :: h.toText(x) == DemoText(x)
    requires RowOf(h, rec, columns) == Ok(row)
    ensures HasColumns(rec, columns) && row == TextCells(rec, columns)
  {
    RowOfCells(h, rec, columns);
    assert RowReadable(h, rec, columns);
    forall j | 0 <= j < |columns|
      ensures columns[j] in rec && row[j] == DemoText(rec[columns[j]])
    {
      assert CanExtract(h, rec, columns[j]);
      assert Cell(h, rec, columns[j]) == Ok(row[j]);
    }
  }

  /** A headerless export without overrides writes each record as the default text of
      each resolved column. */
  lemma DefaultRows(v: ExportView<DemoValue>, a: Attrs, all: seq<Record<DemoValue>>, columns: seq<string>)
    requires v.hooks.extractors.Keys == {} && v.hooks.cleaners.Keys == {}
    requires forall x :: v.hooks.toText(x) == DemoText(x)
    requires !v.addColNames && v.hooks.queryset.None?
    requires ExportCsv.CreateCsv(v, a, all).Ok?
    requires ExportCsv.GetFieldNames(v, a).Ok? && ExportCsv.GetFieldNames(v, a).value.0 == columns
    ensures var rows := ExportCsv.CreateCsv(v, a, all).value.rows;
            && |rows| == |all|
            && forall i :: 0 <= i < |all| ==> HasColumns(all[i], columns) && rows[i] == TextCells(all[i], columns)
  {
    var rows := ExportCsv.CreateCsv(v, a, all).value.rows;
    ExportCsv.HeaderlessRows(v, a, all);
    forall i | 0 <= i < |all|
      ensures HasColumns(all[i], columns) && rows[i] == TextCells(all[i], columns)
    {
      DefaultRow(v.hooks, all[i], columns, rows[i]);
    }
  }

  // ---------------------------------------------------------------------------
  // CustomerCSV

  lemma CustomerNames()
    ensures ExportCsv.NonAutoFieldNames(CustomerModel.fields) == CustomerColumns
  {
    var f := CustomerModel.fields;
    assert f == [] + [f[0]] + [f[1]] + [f[2]] + [f[3]] + [f[4]];
    ExportCsv.NonAutoFieldNamesSnoc([], f[0]);
    ExportCsv.NonAutoFieldNamesSnoc([f[0]], f[1]);
    ExportCsv.NonAutoFieldNamesSnoc([f[0], f[1]], f[2]);
    ExportCsv.NonAutoFieldNamesSnoc([f[0], f[1], f[2]], f[3]);
    ExportCsv.NonAutoFieldNamesSnoc([f[0], f[1], f[2], f[3]], f[4]);
  }

  lemma TransactionNames()
    ensures ExportCsv.NonAutoFieldNames(TransactionModel.fields)
            == ["account", "transaction_id", "transaction_date", "exchange", "is_fraudulent", "is_reviewed"]
  {
    var f := TransactionModel.fields;
    var p1 := [f[0]];
    var p2 := p1 + [f[1]];
    var p3 := p2 + [f[2]];
    var p4 := p3 + [f[3]];
    var p5 := p4 + [f[4]];
    var p6 := p5 + [f[5]];
    assert f == p6 + [f[6]];
    assert p1 == [] + [f[0]];
    ExportCsv.NonAutoFieldNamesSnoc([], f[0]);
    ExportCsv.NonAutoFieldNamesSnoc(p1, f[1]);
    ExportCsv.NonAutoFieldNamesSnoc(p2, f[2]);
    ExportCsv.NonAutoFieldNamesSnoc(p3, f[3]);
    ExportCsv.NonAutoFieldNamesSnoc(p4, f[4]);
    ExportCsv.NonAutoFieldNamesSnoc(p5, f[5]);
    ExportCsv.NonAutoFieldNamesSnoc(p6, f[6]);
  }

  /** `CustomerCSV` resolves its filename to `customer_list.csv` and its columns to the
      non-auto-created fields of `Customer`, in declaration order. */
  lemma CustomerCsvResolves()
    ensures ExportCsv.GetFilename(CustomerCsv, ExportCsv.DefaultAttrs).Ok?
    ensures ExportCsv.GetFilename(CustomerCsv, ExportCsv.DefaultAttrs).value.0 == "customer_list.csv"
    ensures ExportCsv.GetFieldNames(CustomerCsv, ExportCsv.DefaultAttrs).Ok?
    ensures ExportCsv.GetFieldNames(CustomerCsv, ExportCsv.DefaultAttrs).value.0 == CustomerColumns
  {
    CustomerNames();
    var low := Lower("Customer");
    assert low == "customer";
  }

  /** `CustomerCSV` fails only on a record lacking one of the four attributes. */
  lemma CustomerCsvSucceedsIff(all: seq<Record<DemoValue>>)
    ensures ExportCsv.CreateCsv(CustomerCsv, ExportCsv.DefaultAttrs, all).Ok?
            <==> AllHaveColumns(all, CustomerColumns)
  {
    CustomerCsvResolves();
    ExportCsv.CreateCsvRowsDecide(CustomerCsv, ExportCsv.DefaultAttrs, all);
    ReadableIffColumns(CustomerCsv.hooks, all, CustomerColumns);
  }

  /** A successful `CustomerCSV` export is served as `customer_list.csv`. */
  lemma CustomerCsvServedAs(all: seq<Record<DemoValue>>)
    requires ExportCsv.CreateCsv(CustomerCsv, ExportCsv.DefaultAttrs, all).Ok?
    ensures ExportCsv.CreateCsv(CustomerCsv, ExportCsv.DefaultAttrs, all).value.contentDisposition
            == ContentDisposition("customer_list.csv")
  {
    CustomerCsvResolves();
  }

  /** A successful `CustomerCSV` export holds one row of four cells per customer,
      without a header. */
  lemma CustomerCsvRows(all: seq<Record<DemoValue>>)
    requires ExportCsv.CreateCsv(CustomerCsv, ExportCsv.DefaultAttrs, all).Ok?
    ensures var r := ExportCsv.CreateCsv(CustomerCsv, ExportCsv.DefaultAttrs, all).value;
            && |r.rows| == |all|
            && forall i :: 0 <= i < |all| ==>
                 HasColumns(all[i], CustomerColumns) && r.rows[i] == TextCells(all[i], CustomerColumns)
  {
    CustomerCsvResolves();
    DefaultRows(CustomerCsv, ExportCsv.DefaultAttrs, all, CustomerColumns);
  }

  // ---------------------------------------------------------------------------
  // AccountCSV

  /** `AccountCSV` has no model yet never raises `NoModelFoundException`: every value it
      needs is supplied.  A successful export holds only rich accounts, each as account
      number then owner, under its own filename, without a header. */
  lemma AccountCsvRows(accounts: seq<Record<DemoValue>>, all: seq<Record<DemoValue>>)
    requires ExportCsv.CreateCsv(AccountCsv(accounts), AccountCsvAttrs, all).Ok?
    ensures var r := ExportCsv.CreateCsv(AccountCsv(accounts), AccountCsvAttrs, all).value;
            var rich := RichAccounts(accounts);
            && r.contentDisposition == ContentDisposition(AccountFilename)
            && |r.rows| == |rich|
            && forall i :: 0 <= i < |rich| ==>
                 && IsRich(rich[i]) && HasColumns(rich[i], AccountColumns)
                 && r.rows[i] == TextCells(rich[i], AccountColumns)
  {
    var v := AccountCsv(accounts);
    var a := AccountCsvAttrs;
    var rich := RichAccounts(accounts);
    var r := ExportCsv.CreateCsv(v, a, all).value;
    assert ExportCsv.GetQueryset(v, all) == Ok(QuerySet(rich));
    assert ExportCsv.GetFieldNames(v, a) == Ok((AccountColumns, a));
    ExportCsv.CreateCsvLayout(v, a, all);
    forall i | 0 <= i < |rich|
      ensures IsRich(rich[i]) && HasColumns(rich[i], AccountColumns)
      ensures r.rows[i] == TextCells(rich[i], AccountColumns)
    {
      assert rich[i] in rich;
      RowOfCells(v.hooks, rich[i], AccountColumns);
    }
  }

  /** `AccountCSV` fails exactly when a rich account lacks one of the two attributes;
      the error is then an `AttributeError`. */
  lemma AccountCsvSucceedsIff(accounts: seq<Record<DemoValue>>, all: seq<Record<DemoValue>>)
    ensures ExportCsv.CreateCsv(AccountCsv(accounts), AccountCsvAttrs, all).Ok?
            <==> AllHaveColumns(RichAccounts(accounts), AccountColumns)
    ensures ExportCsv.CreateCsv(AccountCsv(accounts), AccountCsvAttrs, all).Err?
            ==> ExportCsv.CreateCsv(AccountCsv(accounts), AccountCsvAttrs, all).error.AttributeError?
  {
    var v := AccountCsv(accounts);
    var a := AccountCsvAttrs;
    var rich := RichAccounts(accounts);
    assert ExportCsv.GetQueryset(v, all) == Ok(QuerySet(rich));
    assert ExportCsv.GetFieldNames(v, a) == Ok((AccountColumns, a));
    assert ResolverField !in AccountColumns;
    ExportCsv.CreateCsvRowsDecide(v, a, all);
    ReadableIffColumns(v.hooks, rich, AccountColumns);
    if Rows(v.hooks, rich, AccountColumns).Err? {
      RowsAttributeError(v.hooks, rich, AccountColumns);
    }
  }

  // ---------------------------------------------------------------------------
  // TransactionCSV

  /** `TransactionCSV`'s explicit field names and filename win over what its model would
      give, and its writer options are quote-all, space-delimited, `|`-quoted. */
  lemma TransactionCsvPrecedence()
    ensures ExportCsv.GetFieldNames(TransactionCsv, TransactionCsvAttrs) == Ok((TransactionColumns, TransactionCsvAttrs))
    ensures ExportCsv.GetFilename(TransactionCsv, TransactionCsvAttrs) == Ok((TransactionFilename, TransactionCsvAttrs))
    ensures TransactionColumns != ExportCsv.NonAutoFieldNames(TransactionModel.fields)
    ensures TransactionFilename != ListFilename(TransactionModel.className)
    ensures WriterKwargs(TransactionCsv) == TransactionWriterOptions
  {
    TransactionNames();
    assert |ListFilename(TransactionModel.className)| != |TransactionFilename|;
  }

  /** The cells of a `TransactionCSV` row: the transaction id goes through the cleaner. */
  function TransactionCells(rec: Record<DemoValue>): (r: seq<string>)
    requires HasColumns(rec, TransactionColumns)
    ensures |r| == 3 && NoUpper(r[1])
  {
    assert TransactionColumns[0] in rec && TransactionColumns[1] in rec && TransactionColumns[2] in rec;
    [DemoText(rec["account"]), CleanTransactionId(rec["transaction_id"]), DemoText(rec["transaction_date"])]
  }

  /** A `TransactionCSV` row read from one record. */
  lemma TransactionRow(rec: Record<DemoValue>, row: seq<string>)
    requires RowOf(TransactionCsv.hooks, rec, TransactionColumns) == Ok(row)
    ensures HasColumns(rec, TransactionColumns) && row == TransactionCells(rec)
  {
    var h := TransactionCsv.hooks;
    RowOfCells(h, rec, TransactionColumns);
    assert RowReadable(h, rec, TransactionColumns);
    assert CanExtract(h, rec, TransactionColumns[0]);
    assert CanExtract(h, rec, TransactionColumns[1]);
    assert CanExtract(h, rec, TransactionColumns[2]);
    assert Cell(h, rec, "account") == Ok(row[0]);
    assert Cell(h, rec, "transaction_id") == Ok(row[1]);
    assert Cell(h, rec, "transaction_date") == Ok(row[2]);
  }

  /** Every `TransactionCSV` row holds the account as text, the transaction id lower-cased
      by the cleaner, and the date as text. */
  lemma TransactionCsvRows(all: seq<Record<DemoValue>>)
    requires ExportCsv.CreateCsv(TransactionCsv, TransactionCsvAttrs, all).Ok?
    ensures var rows := ExportCsv.CreateCsv(TransactionCsv, TransactionCsvAttrs, all).value.rows;
            && |rows| == |all|
            && forall i :: 0 <= i < |all| ==>
                 && HasColumns(all[i], TransactionColumns)
                 && rows[i] == TransactionCells(all[i])
                 && rows[i][1] == Lower(DemoText(all[i]["transaction_id"]))
  {
    var rows := ExportCsv.CreateCsv(TransactionCsv, TransactionCsvAttrs, all).value.rows;
    TransactionCsvPrecedence();
    ExportCsv.HeaderlessRows(TransactionCsv, TransactionCsvAttrs, all);
    forall i | 0 <= i < |all|
      ensures HasColumns(all[i], TransactionColumns) && rows[i] == TransactionCells(all[i])
    {
      TransactionRow(all[i], rows[i]);
    }
  }

  // ---------------------------------------------------------------------------
  // CustomerCSV under the older copy

  /** The columns the older copy derives for `Customer`: every field, the auto-created
      `id` included. */
  const LegacyCustomerColumns: seq<string> := ["id"] + CustomerColumns

  /** Under the older copy `CustomerCSV` derives `id` as well, so each row gains a
      leading id cell; the export fails only on a record lacking one of the five. */
  lemma LegacyCustomerCsvRows(all: seq<Record<DemoValue>>)
    ensures LegacyExportCsv.GetFieldNames(CustomerCsv, LegacyExportCsv.DefaultAttrs) == Ok(LegacyCustomerColumns)
    ensures LegacyExportCsv.CreateCsv(CustomerCsv, LegacyExportCsv.DefaultAttrs, all).Ok?
            <==> AllHaveColumns(all, LegacyCustomerColumns)
    ensures var r := LegacyExportCsv.CreateCsv(CustomerCsv, LegacyExportCsv.DefaultAttrs, all);
            r.Ok? ==> && |r.value.rows| == |all|
                      && forall i :: 0 <= i < |all| ==>
                           HasColumns(all[i], LegacyCustomerColumns)
                           && r.value.rows[i] == TextCells(all[i], LegacyCustomerColumns)
  {
    var v := CustomerCsv;
    var a := LegacyExportCsv.DefaultAttrs;
    assert LegacyExportCsv.AllFieldNames(CustomerModel.fields) == LegacyCustomerColumns;
    assert LegacyExportCsv.GetQueryset(v, all) == Ok(QuerySet(all));
    ReadableIffColumns(v.hooks, all, LegacyCustomerColumns);
    if LegacyExportCsv.CreateCsv(v, a, all).Ok? {
      var rows := LegacyExportCsv.CreateCsv(v, a, all).value.rows;
      LegacyExportCsv.CreateCsvLayout(v, a, all);
      forall i | 0 <= i < |all|
        ensures HasColumns(all[i], LegacyCustomerColumns) && rows[i] == TextCells(all[i], LegacyCustomerColumns)
      {
        DefaultRow(v.hooks, all[i], LegacyCustomerColumns, rows[i]);
      }
    }
  }

  // ---------------------------------------------------------------------------
  // AccountCSV and TransactionCSV under the older copy

  /** `AccountCSV` over the older copy's class defaults. */
  const LegacyAccountCsvAttrs: Attrs := LegacyExportCsv.DefaultAttrs.(filename := Some(AccountFilename))

  /** `TransactionCSV` over the older copy's class defaults. */
  const LegacyTransactionCsvAttrs: Attrs :=
    LegacyExportCsv.DefaultAttrs.(fieldNames := Some(TransactionColumns), filename := Some(TransactionFilename))

  /** Under the older copy `AccountCSV` gives the very response of the current copy, so
      it too fails exactly when a rich account lacks `account_no` or `owner`. */
  lemma LegacyAccountCsvAgrees(accounts: seq<Record<DemoValue>>, all: seq<Record<DemoValue>>)
    ensures LegacyExportCsv.CreateCsv(AccountCsv(accounts), LegacyAccountCsvAttrs, all)
            == ExportCsv.CreateCsv(AccountCsv(accounts), AccountCsvAttrs, all)
    ensures LegacyExportCsv.CreateCsv(AccountCsv(accounts), LegacyAccountCsvAttrs, all).Ok?
            <==> AllHaveColumns(RichAccounts(accounts), AccountColumns)
  {
    LegacyExportCsv.HeaderlessCopiesAgree(AccountCsv(accounts), AccountCsvAttrs, LegacyAccountCsvAttrs, all);
    AccountCsvSucceedsIff(accounts, all);
  }

  /** Under the older copy `TransactionCSV` gives the very response of the current copy:
      the same rows, with the transaction id lower-cased by the cleaner. */
  lemma LegacyTransactionCsvAgrees(all: seq<Record<DemoValue>>)
    ensures LegacyExportCsv.CreateCsv(TransactionCsv, LegacyTransactionCsvAttrs, all)
            == ExportCsv.CreateCsv(TransactionCsv, TransactionCsvAttrs, all)
    ensures var r := LegacyExportCsv.CreateCsv(TransactionCsv, LegacyTransactionCsvAttrs, all);
            r.Ok? ==> && |r.value.rows| == |all|
                      && forall i :: 0 <= i < |all| ==>
                           HasColumns(all[i], TransactionColumns) && r.value.rows[i] == TransactionCells(all[i])
  {
    assert Truthy(TransactionCsvAttrs.fieldNames);
    LegacyExportCsv.HeaderlessCopiesAgree(TransactionCsv, TransactionCsvAttrs, LegacyTransactionCsvAttrs, all);
    if ExportCsv.CreateCsv(TransactionCsv, TransactionCsvAttrs, all).Ok? {
      TransactionCsvRows(all);
    }
  }

  // ---------------------------------------------------------------------------
  // The test suite's fixture

  /** An export view over the fixture model with nothing else set. */
  const FixtureView: ExportView<DemoValue> := ExportView(Some(FixtureCustomerModel), false, DefaultHooks)

  lemma FixtureNames()
    ensures ExportCsv.NonAutoFieldNames(FixtureCustomerModel.fields) == CustomerColumns
  {
    var f := FixtureCustomerModel.fields;
    assert f == [] + [f[0]] + [f[1]] + [f[2]] + [f[3]] + [f[4]];
    ExportCsv.NonAutoFieldNamesSnoc([], f[0]);
    ExportCsv.NonAutoFieldNamesSnoc([f[0]], f[1]);
    ExportCsv.NonAutoFieldNamesSnoc([f[0], f[1]], f[2]);
    ExportCsv.NonAutoFieldNamesSnoc([f[0], f[1], f[2]], f[3]);
    ExportCsv.NonAutoFieldNamesSnoc([f[0], f[1], f[2], f[3]], f[4]);
  }

  /** The fixture's verbose names for the field names the tests request. */
  lemma FixtureVerboseNames(names: seq<string>)
    requires names == CustomerColumns || names == ["name", "address", "is_active"]
    ensures ExportCsv.VerboseNamesIn(FixtureCustomerModel.fields, names)
            == (if names == CustomerColumns then ["name", "address", "Is Active", "last updated"]
                else ["name", "address", "Is Active"])
  {
    var f := FixtureCustomerModel.fields;
    assert f == [] + [f[0]] + [f[1]] + [f[2]] + [f[3]] + [f[4]];
    assert f[0].name !in names;
    ExportCsv.VerboseNamesInSnoc([], f[0], names);
    ExportCsv.VerboseNamesInSnoc([f[0]], f[1], names);
    ExportCsv.VerboseNamesInSnoc([f[0], f[1]], f[2], names);
    ExportCsv.VerboseNamesInSnoc([f[0], f[1], f[2]], f[3], names);
    ExportCsv.VerboseNamesInSnoc([f[0], f[1], f[2], f[3]], f[4], names);
  }

  /** With only the model set, the column names are the verbose names of the four
      non-auto-created fields, `Is Active` keeping its declared capitals; asking for three
      field names gives their three verbose names; a string `col_names` is a `TypeError`. */
  lemma FixtureColNames()
    ensures ExportCsv.GetColNames(FixtureView, ExportCsv.DefaultAttrs).Ok?
    ensures ExportCsv.GetColNames(FixtureView, ExportCsv.DefaultAttrs).value.0
            == ["name", "address", "Is Active", "last updated"]
    ensures ExportCsv.GetFieldVerboseNames(FixtureView, ExportCsv.DefaultAttrs.(fieldNames := Some(["name", "address", "is_active"])))
            == Ok((["name", "address", "Is Active"], ExportCsv.DefaultAttrs.(fieldNames := Some(["name", "address", "is_active"]))))
    ensures ExportCsv.GetColNames(FixtureView, ExportCsv.DefaultAttrs.(colNames := ColText("hello world")))
            == Err(TypeError(ExportCsv.ColNamesTypeMessage))
  {
    FixtureNames();
    FixtureVerboseNames(CustomerColumns);
    FixtureVerboseNames(["name", "address", "is_active"]);
  }
}
