/**
 * The converter variants as one tagged union, the hard-coded conversion tables of
 * bankdownload.py keyed by (format, account), and the column positions of the canonical record.
 */
module Registry {
  import opened PyCore
  import C = Conversions
  import Categories
  import Calendar

  /** One field converter, with the parameters its factory was called with. */
  datatype Converter =
    | Identity(index: int)
    | Constant(value: Value)
    | ConvertDate(index: int, format: string)
    | SimpleAmount(index: int)
    | SignedAmount(index: int, isOut: bool)
    | GenerateId(indices: seq<int>)
    | MonzoCategory(notesIndex: int, categoryIndex: int)
    | ConfigCategory(notesIndex: int, categoryIndex: int, categoryMap: map<string, string>)

  /**
   * `CATEGORIES_BY_TAG` and `CATEGORIES`, the module-level tables the Monzo category converter
   * reads; `SourceTables` holds the values bankdownload.py builds.
   */
  datatype Tables = Tables(byTag: map<string, string>, aliases: map<string, string>)

  function SourceTables(): Tables {
    Tables(Categories.CategoriesByTag(), Categories.Aliases())
  }

  /** Calling the converter on a row. */
  function Apply(lib: C.Library, cats: Tables, conv: Converter, row: seq<string>): (r: Result<Value>)
    ensures r.Err? ==> r.error == IndexError || r.error == ValueError
    ensures conv.Constant? ==> r == Ok(conv.value)
  {
    match conv
    case Identity(i) => C.Identity(row, i)
    case Constant(v) => C.Constant(v, row)
    case ConvertDate(i, f) => C.ConvertDate(lib, row, i, f)
    case SimpleAmount(i) => C.SimpleAmount(lib, row, i)
    case SignedAmount(i, out) => C.SignedAmount(lib, row, i, out)
    case GenerateId(ids) => C.GenerateId(lib, row, ids)
    case MonzoCategory(n, c) =>
      Categories.MonzoCategory(cats.byTag, cats.aliases, row, n, c)
    case ConfigCategory(n, c, m) => C.ConfigCategory(m, row, n, c)
  }

  /** `[convert(row) for convert in converters]`: the converted values, or the first exception raised. */
  function ConvertRow(lib: C.Library, cats: Tables, convs: seq<Converter>, row: seq<string>): (r: Result<seq<Value>>)
    ensures r.Ok? ==>
      |r.value| == |convs| && forall k :: 0 <= k < |convs| ==> Apply(lib, cats, convs[k], row) == Ok(r.value[k])
    ensures r.Err? ==>
      exists k :: 0 <= k < |convs| && Apply(lib, cats, convs[k], row) == Err(r.error)
        && forall j :: 0 <= j < k ==> Apply(lib, cats, convs[j], row).Ok?
  {
    if convs == [] then Ok([])
    else
      var first :- Apply(lib, cats, convs[0], row);
      var rest :- ConvertRow(lib, cats, convs[1..], row);
      Ok([first] + rest)
  }

  // ----- the record layout -----

  /** `COLUMNS`: the titles of the transactions worksheet. */
  const Columns: seq<string> := [
    "Account", "Date", "Description", "Type", "Money In", "Money Out", "Id", "Reconciled",
    "Category", "Notes"
  ]

  /** `COLUMNS.index(...)` of the four columns the importer reads. */
  const DATE: nat := 1
  const MONEY_IN: nat := 4
  const MONEY_OUT: nat := 5
  const ID: nat := 6

  /** `list.index`: the first position of `x`, `ValueError` when absent. */
  function IndexOf(xs: seq<string>, x: string): (r: Result<nat>)
    ensures r.Ok? ==> r.value < |xs| && xs[r.value] == x && forall j :: 0 <= j < r.value ==> xs[j] != x
    ensures r.Err? ==> r.error == ValueError && x !in xs
  {
    if xs == [] then Err(ValueError)
    else if xs[0] == x then Ok(0)
    else
      var i :- IndexOf(xs[1..], x);
      Ok(i + 1)
  }

  // ----- the conversion tables -----

  const MonzoDateFormat: string := "%Y-%m-%dT%H:%M:%SZ"
  const Monzo2DateFormat: string := "%d/%m/%Y"
  const SmileDateFormat: string := "%Y-%m-%d"

  /** `CONVERSION_MONZO` */
  const Monzo: seq<Converter> := [
    ConvertDate(1, MonzoDateFormat), Identity(8), Identity(6), SignedAmount(2, false),
    SignedAmount(2, true), Identity(0), Constant(Str("x")), MonzoCategory(10, 6)
  ]

  /** `CONVERSION_MONZO_2` */
  const Monzo2: seq<Converter> := [
    ConvertDate(1, Monzo2DateFormat), Identity(4), Identity(6), SignedAmount(7, false),
    SignedAmount(7, true), Identity(0), Constant(Str("x")), MonzoCategory(11, 6)
  ]

  /** `CONVERSION_SMILE` */
  const Smile: seq<Converter> := [
    ConvertDate(0, SmileDateFormat), Identity(1), Identity(2), SimpleAmount(3), SimpleAmount(4),
    GenerateId([0, 1, 2, 3, 4])
  ]

  /** `CONVERSION_SMILE_CC` */
  const SmileCC: seq<Converter> := [
    ConvertDate(0, SmileDateFormat), Identity(1), Constant(None), SimpleAmount(2), SimpleAmount(3),
    GenerateId([0, 1, 2, 3])
  ]

  /** `CONVERSIONS`, keyed on (file format, account name). */
  const ConversionTable: map<(string, string), seq<Converter>> := map[
    ("Monzo", "Monzo") := Monzo,
    ("Monzo", "Monzo Joint") := Monzo,
    ("Monzo 2", "Monzo") := Monzo2,
    ("Monzo 2", "Monzo Joint") := Monzo2,
    ("Smile", "Smile") := Smile,
    ("Smile", "Smile Joint") := Smile,
    ("Smile CC", "Smile CC") := SmileCC,
    ("Smile CC", "Smile CC Joint") := SmileCC
  ]

  /** The converters `process_download` runs: the account name, then the table entry. */
  function RecordConverters(account: string, entry: seq<Converter>): (convs: seq<Converter>)
    ensures |convs| == |entry| + 1 && convs[0] == Constant(Str(account))
    ensures forall k :: 0 <= k < |entry| ==> convs[k + 1] == entry[k]
  {
    [Constant(Str(account))] + entry
  }

  /** The value shape every table guarantees at the four read columns. */
  predicate WellShaped(entry: seq<Converter>) {
    |entry| >= 6
    && entry[DATE - 1].ConvertDate?
    && (entry[MONEY_IN - 1].SignedAmount? || entry[MONEY_IN - 1].SimpleAmount?)
    && (entry[MONEY_OUT - 1].SignedAmount? || entry[MONEY_OUT - 1].SimpleAmount?)
  }

  // ----- lemmas -----

  /** The four constants are the positions of their titles in `COLUMNS`. */
  lemma ColumnPositions()
    ensures IndexOf(Columns, "Date") == Ok(DATE)
    ensures IndexOf(Columns, "Money In") == Ok(MONEY_IN)
    ensures IndexOf(Columns, "Money Out") == Ok(MONEY_OUT)
    ensures IndexOf(Columns, "Id") == Ok(ID)
  {
    assert Columns[0] != "Date" && Columns[1] == "Date";
    assert forall j :: 0 <= j < 4 ==> Columns[j] != "Money In";
    assert Columns[4] == "Money In";
    assert forall j :: 0 <= j < 5 ==> Columns[j] != "Money Out";
    assert Columns[5] == "Money Out";
    assert forall j :: 0 <= j < 6 ==> Columns[j] != "Id";
    assert Columns[6] == "Id";
  }

  /** Every table entry has at least six converters and the date and amount converters at the read columns. */
  lemma TablesWellShaped(key: (string, string))
    requires key in ConversionTable
    ensures WellShaped(ConversionTable[key])
    ensures |RecordConverters(key.1, ConversionTable[key])| > ID
  {
  }

  /** A converted record has the account at index 0 and one value per converter. */
  lemma RecordStartsWithAccount(lib: C.Library, cats: Tables, account: string, entry: seq<Converter>, row: seq<string>)
    requires ConvertRow(lib, cats, RecordConverters(account, entry), row).Ok?
    ensures var rec := ConvertRow(lib, cats, RecordConverters(account, entry), row).value;
      |rec| == |entry| + 1 && rec[0] == Str(account)
  {
  }

  /** A record converted by a well-shaped entry holds a serial day with a worksheet, and amounts or `None`. */
  lemma RecordShape(lib: C.Library, cats: Tables, account: string, entry: seq<Converter>, row: seq<string>)
    requires WellShaped(entry)
    requires ConvertRow(lib, cats, RecordConverters(account, entry), row).Ok?
    ensures var rec := ConvertRow(lib, cats, RecordConverters(account, entry), row).value;
      |rec| > ID
      && rec[DATE].Day? && 1 <= rec[DATE].day + Calendar.EpochOrdinal <= Calendar.MaxOrdinal
      && (rec[MONEY_IN].None? || rec[MONEY_IN].Amt?)
      && (rec[MONEY_OUT].None? || rec[MONEY_OUT].Amt?)
  {
    var convs := RecordConverters(account, entry);
    var rec := ConvertRow(lib, cats, convs, row).value;
    AmountShape(lib, cats, convs[MONEY_IN], row);
    AmountShape(lib, cats, convs[MONEY_OUT], row);
    assert Apply(lib, cats, convs[DATE], row) == Ok(rec[DATE]);
  }

  lemma AmountShape(lib: C.Library, cats: Tables, conv: Converter, row: seq<string>)
    requires conv.SignedAmount? || conv.SimpleAmount?
    requires Apply(lib, cats, conv, row).Ok?
    ensures Apply(lib, cats, conv, row).value.None? || Apply(lib, cats, conv, row).value.Amt?
  {
  }

  /** Both Monzo tables take money in and money out from the same signed column. */
  lemma MonzoSidesShareColumn(entry: seq<Converter>)
    requires entry == Monzo || entry == Monzo2
    ensures entry[MONEY_IN - 1].SignedAmount? && !entry[MONEY_IN - 1].isOut
    ensures entry[MONEY_OUT - 1] == SignedAmount(entry[MONEY_IN - 1].index, true)
  {
  }

  /**
   * Both Smile tables read the date from column 0, the money columns from two adjacent simple
   * amount cells, and hash every cell from the date through money out into the id.
   */
  lemma SmileLayout(entry: seq<Converter>)
    requires entry == Smile || entry == SmileCC
    ensures entry[DATE - 1] == ConvertDate(0, SmileDateFormat)
    ensures entry[MONEY_IN - 1].SimpleAmount?
    ensures entry[MONEY_OUT - 1] == SimpleAmount(entry[MONEY_IN - 1].index + 1)
    ensures entry[ID - 1] == GenerateId(seq(entry[MONEY_OUT - 1].index + 1, k => k))
  {
    var n := entry[MONEY_OUT - 1].index + 1;
    assert seq(n, k => k) == entry[ID - 1].indices;
  }

  /** Every format has a personal and a joint account, and both read with the same table. */
  lemma JointAccountsShareTables(key: (string, string))
    requires key in ConversionTable
    ensures var owner := if key.0 == "Monzo 2" then "Monzo" else key.0;
      (key.1 == owner || key.1 == owner + " Joint")
      && (key.0, owner) in ConversionTable && (key.0, owner + " Joint") in ConversionTable
      && ConversionTable[(key.0, owner)] == ConversionTable[(key.0, owner + " Joint")]
  {
    assert "Monzo" + " Joint" == "Monzo Joint";
    assert "Smile" + " Joint" == "Smile Joint";
    assert "Smile CC" + " Joint" == "Smile CC Joint";
  }

  /**
   * A record whose money columns are the two sides of one signed column carries at most one
   * amount, none exactly when the signed amount is zero, and money in less money out is that
   * signed amount.
   */
  lemma SignedPairAmounts(lib: C.Library, cats: Tables, account: string, entry: seq<Converter>, row: seq<string>, column: int)
    requires |entry| >= MONEY_OUT
    requires entry[MONEY_IN - 1] == SignedAmount(column, false)
    requires entry[MONEY_OUT - 1] == SignedAmount(column, true)
    requires ConvertRow(lib, cats, RecordConverters(account, entry), row).Ok?
    ensures Index(row, column).Ok? && lib.parseFloat(Index(row, column).value).Some?
    ensures var rec := ConvertRow(lib, cats, RecordConverters(account, entry), row).value;
      var a := lib.parseFloat(Index(row, column).value).value;
      (rec[MONEY_IN].None? || rec[MONEY_OUT].None?)
      && C.AmountOf(rec[MONEY_IN]) - C.AmountOf(rec[MONEY_OUT]) == a
      && (rec[MONEY_IN].None? && rec[MONEY_OUT].None? <==> a == 0.0)
  {
    var convs := RecordConverters(account, entry);
    var rec := ConvertRow(lib, cats, convs, row).value;
    assert C.SignedAmount(lib, row, column, false) == Ok(rec[MONEY_IN]) by {
      assert Apply(lib, cats, convs[MONEY_IN], row) == Ok(rec[MONEY_IN]);
    }
    assert C.SignedAmount(lib, row, column, true) == Ok(rec[MONEY_OUT]) by {
      assert Apply(lib, cats, convs[MONEY_OUT], row) == Ok(rec[MONEY_OUT]);
    }
    C.SplitSides(lib.parseFloat(Index(row, column).value).value);
  }
}
