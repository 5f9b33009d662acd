/** The savings-account converter: a Revolut savings export in pounds turned
    into import records in US dollars. Reading and writing the CSV files, the
    API key and the rate request are left to the caller: the rows, the date
    parser (`pd.to_datetime(..., format="%b %d, %Y", errors="coerce")`) and the
    API's answer are parameters. */
module SavingsConverter {
  import opened Basics
  import opened Sequences
  import opened Records
  import opened Rates
  import opened Money

  const AccountName := "Revolut Savings"
  const SourceCurrency := "GBP"
  const Target := "USD"
  const Pound := "£"

  /** A row of the savings export, as far as the converter reads it. */
  datatype SavingsRow = SavingsRow(date: string, description: string, moneyIn: Cell, moneyOut: Cell)

  /** A row whose Date parses, with its calendar day. */
  datatype DatedRow = DatedRow(day: Day, description: string, moneyIn: Cell, moneyOut: Cell)

  /** A dated row with its signed amount in pounds. */
  datatype AmountRow = AmountRow(day: Day, description: string, amount: real)

  function Dated(parse: string -> Option<Day>): SavingsRow -> Option<DatedRow> {
    (row: SavingsRow) =>
      if parse(row.date).Some? then Some(DatedRow(parse(row.date).value, row.description, row.moneyIn, row.moneyOut))
      else None
  }

  /** `Money in` minus `Money out`, each read by `parse_money_amount` with "£". */
  function RowAmount(row: DatedRow): (r: Result<AmountRow>)
    ensures r.Success? <==> ParseMoneyAmount(row.moneyIn, Pound).Success? && ParseMoneyAmount(row.moneyOut, Pound).Success?
    ensures r.Failure? ==> r.error == ValueError
    ensures r.Success? ==> r.value == AmountRow(row.day, row.description,
              ParseMoneyAmount(row.moneyIn, Pound).value - ParseMoneyAmount(row.moneyOut, Pound).value)
  {
    match ParseMoneyAmount(row.moneyIn, Pound)
    case Failure(e) => Failure(e)
    case Success(moneyIn) =>
      match ParseMoneyAmount(row.moneyOut, Pound)
      case Failure(e) => Failure(e)
      case Success(moneyOut) => Success(AmountRow(row.day, row.description, moneyIn - moneyOut))
  }

  /** The amount column: a ValueError if any dated row has a cell that does not
      read as money, else one amount row per dated row. */
  function Amounts(dated: seq<DatedRow>): (r: Result<seq<AmountRow>>)
    ensures r.Success? <==> forall i :: 0 <= i < |dated| ==> RowAmount(dated[i]).Success?
    ensures r.Failure? ==> r.error == ValueError
    ensures r.Success? ==> |r.value| == |dated|
    ensures r.Success? ==> forall i :: 0 <= i < |dated| ==> RowAmount(dated[i]).Success? && r.value[i] == RowAmount(dated[i]).value
  {
    if dated == [] then Success([])
    else
      var front := dated[..|dated| - 1];
      var last := RowAmount(dated[|dated| - 1]);
      assert forall i :: 0 <= i < |front| ==> front[i] == dated[i];
      match Amounts(front)
      case Failure(e) => Failure(e)
      case Success(init) =>
        if last.Failure? then Failure(last.error) else Success(init + [last.value])
  }

  /** The record of one row: the amount converted and rounded to the cent. */
  function Record(row: AmountRow, rate: real): TransactionRecord {
    Converted(row.day, row.description, AccountName, row.amount, rate)
  }

  /** A row's record when its day has a pound rate; rows without one are skipped. */
  function Emit(rates: RateTable): AmountRow -> Option<TransactionRecord> {
    (row: AmountRow) =>
      if (row.day, SourceCurrency) in rates then Some(Record(row, rates[(row.day, SourceCurrency)])) else None
  }

  /** What the savings converter writes, or why it stops: a cell that does not
      read as money is a ValueError; no dated row leaves no date range to
      request rates for; a rate table not quoted from US dollars is refused. */
  function SavingsExport(rows: seq<SavingsRow>, parse: string -> Option<Day>, source: string, quotes: Quotes)
    : Result<seq<TransactionRecord>>
  {
    var dated := FilterMap(rows, Dated(parse));
    match Amounts(dated)
    case Failure(e) => Failure(e)
    case Success(amounts) =>
      if amounts == [] then Failure(EmptyDateRange)
      else if source != Target then Failure(RuntimeError)
      else Success(FilterMap(amounts, Emit(UsdRates(quotes, source, [SourceCurrency], Target))))
  }

  /** The loop of the converter's `main`: a row whose day has no pound rate is
      skipped with a warning, every other row gives its record, in order. */
  method EmitRecords(amounts: seq<AmountRow>, rates: RateTable) returns (output: seq<TransactionRecord>)
    ensures output == FilterMap(amounts, Emit(rates))
  {
    output := [];
    for i := 0 to |amounts|
      invariant output == FilterMap(amounts[..i], Emit(rates))
    {
      var row := amounts[i];
      assert amounts[..i + 1][..i] == amounts[..i];
      if (row.day, SourceCurrency) !in rates {
        continue;
      }
      var rate := rates[(row.day, SourceCurrency)];
      output := output + [Record(row, rate)];
    }
    assert amounts[..|amounts|] == amounts;
  }

  /** The converter's `main`; `exported` is the count it reports. */
  method ConvertSavings(rows: seq<SavingsRow>, parse: string -> Option<Day>, source: string, quotes: Quotes)
    returns (r: Result<seq<TransactionRecord>>, exported: nat)
    ensures r == SavingsExport(rows, parse, source, quotes)
    ensures r.Success? ==> exported == |r.value|
  {
    exported := 0;
    var dated := FilterMap(rows, Dated(parse));
    var parsed := Amounts(dated);
    if parsed.Failure? {
      return Failure(parsed.error), exported;
    }
    var amounts := parsed.value;
    if amounts == [] {
      return Failure(EmptyDateRange), exported;
    }
    var built := BuildUsdRates(quotes, source, [SourceCurrency], Target);
    if built.Failure? {
      return Failure(built.error), exported;
    }
    var output := EmitRecords(amounts, built.value);
    exported := |output|;
    return Success(output), exported;
  }

  // ------------------------------------------------------------ properties

  /** The records emitted from a list of amount rows are, in order, those of
      the rows whose day has a pound rate, each once, converted at that rate. */
  lemma EmittedRecords(amounts: seq<AmountRow>, rates: RateTable)
    ensures var out := FilterMap(amounts, Emit(rates));
      var p := Positions(amounts, Emit(rates));
      && |p| == |out|
      && (forall k, l :: 0 <= k < l < |p| ==> p[k] < p[l])
      && (forall k :: 0 <= k < |p| ==> (
            && p[k] < |amounts|
            && (amounts[p[k]].day, SourceCurrency) in rates
            && out[k] == Record(amounts[p[k]], rates[(amounts[p[k]].day, SourceCurrency)])))
      && (forall i :: 0 <= i < |amounts| && (amounts[i].day, SourceCurrency) in rates ==> i in p)
  {
    var f := Emit(rates);
    var p := Positions(amounts, f);
    var out := FilterMap(amounts, f);
    forall k | 0 <= k < |p|
      ensures (amounts[p[k]].day, SourceCurrency) in rates
      ensures out[k] == Record(amounts[p[k]], rates[(amounts[p[k]].day, SourceCurrency)])
    {
      assert f(amounts[p[k]]) == Some(out[k]);
    }
    forall i | 0 <= i < |amounts| && (amounts[i].day, SourceCurrency) in rates
      ensures i in p
    {
      assert f(amounts[i]).Some?;
    }
  }

  /** On success the rate table is quoted from US dollars, every dated row has
      readable money cells, and the records are those `Emit` gives for the
      dated rows' amounts, in order (`EmittedRecords` says which). */
  lemma SavingsSucceeds(rows: seq<SavingsRow>, parse: string -> Option<Day>, source: string, quotes: Quotes)
    requires SavingsExport(rows, parse, source, quotes).Success?
    ensures source == Target
    ensures var dated := FilterMap(rows, Dated(parse));
      && dated != []
      && Amounts(dated).Success?
      && SavingsExport(rows, parse, source, quotes).value
           == FilterMap(Amounts(dated).value, Emit(UsdRates(quotes, source, [SourceCurrency], Target)))
  {
  }

  /** The k-th record emitted for dated rows whose money cells all read comes
      from the dated row the positions name, converted at that day's pound
      rate (`Record`): its day and description, and Money in minus Money out
      as its amount in pounds. */
  lemma DatedRecordAt(dated: seq<DatedRow>, rates: RateTable, k: nat)
    requires Amounts(dated).Success?
    requires k < |FilterMap(Amounts(dated).value, Emit(rates))|
    ensures var amounts := Amounts(dated).value;
      var out := FilterMap(amounts, Emit(rates));
      var p := Positions(amounts, Emit(rates));
      && k < |p| && p[k] < |dated|
      && (dated[p[k]].day, "GBP") in rates
      && amounts[p[k]].day == dated[p[k]].day
      && amounts[p[k]].description == dated[p[k]].description
      && amounts[p[k]].amount == ParseMoneyAmount(dated[p[k]].moneyIn, "£").value
                                 - ParseMoneyAmount(dated[p[k]].moneyOut, "£").value
      && out[k] == Record(amounts[p[k]], rates[(dated[p[k]].day, "GBP")])
  {
    var amounts := Amounts(dated).value;
    var f := Emit(rates);
    var p := Positions(amounts, f);
    var out := FilterMap(amounts, f);
    var row := amounts[p[k]];
    assert f(row) == Some(out[k]);
    assert row == RowAmount(dated[p[k]]).value;
  }

  /** The dated rows are exactly the rows whose Date parses, in order; a row
      with an unparsable date is dropped before its money cells are read. */
  lemma DatedRowsAreFiltered(rows: seq<SavingsRow>, parse: string -> Option<Day>)
    ensures var dated := FilterMap(rows, Dated(parse));
      var p := Positions(rows, Dated(parse));
      && (forall k :: 0 <= k < |p| ==>
            dated[k] == DatedRow(parse(rows[p[k]].date).value, rows[p[k]].description, rows[p[k]].moneyIn, rows[p[k]].moneyOut))
      && (forall i :: 0 <= i < |rows| && parse(rows[i].date).Some? ==> i in p)
  {
    var f := Dated(parse);
    var p := Positions(rows, f);
    forall k | 0 <= k < |p|
      ensures FilterMap(rows, f)[k] == DatedRow(parse(rows[p[k]].date).value, rows[p[k]].description, rows[p[k]].moneyIn, rows[p[k]].moneyOut)
    {
      assert f(rows[p[k]]) == Some(FilterMap(rows, f)[k]);
    }
    forall i | 0 <= i < |rows| && parse(rows[i].date).Some?
      ensures i in p
    {
      assert f(rows[i]).Some?;
    }
  }

  /** With one quote entry per day, a dated day has a pound rate exactly when
      that day's "USDGBP" quote is present and non-zero, and the rate is its
      inverse. */
  lemma PoundRate(quotes: Quotes, q: nat)
    requires DistinctDays(quotes) && q < |quotes|
    ensures var rates := UsdRates(quotes, Target, [SourceCurrency], Target);
      var key := (quotes[q].day, SourceCurrency);
      && (key in rates <==> "USDGBP" in quotes[q].quotes && quotes[q].quotes["USDGBP"] != 0.0)
      && (key in rates ==> rates[key] == 1.0 / quotes[q].quotes["USDGBP"])
  {
    assert Target + SourceCurrency == "USDGBP";
    UsdRatesEntry(quotes, Target, [SourceCurrency], Target, q, SourceCurrency);
  }
}
