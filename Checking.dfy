/** The checking-account converter: a Revolut checking export turned into
    import records in US dollars. Reading and writing the CSV files, the API
    key and the rate request are left to the caller: the rows, the date parser
    (`pd.to_datetime(..., errors="coerce")` followed by `.dt.date`) and the API's
    answer are parameters. */
module CheckingConverter {
  import opened Basics
  import opened Sequences
  import opened Records
  import opened Rates

  const AccountName := "Revolut Checking"
  const Target := "USD"

  /** A row of the checking export, as far as the converter reads it; a blank
      Currency cell is None. */
  datatype CheckingRow = CheckingRow(state: string, startedDate: string, currency: Option<string>,
                                     description: string, amount: real)

  /** A row that survives the filters, with its calendar day. */
  datatype Survivor = Survivor(day: Day, currency: Option<string>, description: string, amount: real)

  /** A completed or pending row whose Started Date parses. */
  function Survive(parse: string -> Option<Day>): CheckingRow -> Option<Survivor> {
    (row: CheckingRow) =>
      if (row.state == "COMPLETED" || row.state == "PENDING") && parse(row.startedDate).Some? then
        Some(Survivor(parse(row.startedDate).value, row.currency, row.description, row.amount))
      else None
  }

  function Survivors(rows: seq<CheckingRow>, parse: string -> Option<Day>): seq<Survivor> {
    FilterMap(rows, Survive(parse))
  }

  function CurrencyOf(row: Survivor): Option<string> {
    row.currency
  }

  /** `df["Currency"].dropna()`: the currencies the rate table is built for. */
  function Currencies(kept: seq<Survivor>): seq<string> {
    FilterMap(kept, CurrencyOf)
  }

  predicate HasRate(row: Survivor, rates: RateTable) {
    row.currency.Some? && (row.day, row.currency.value) in rates
  }

  /** The record of one row: the amount converted and rounded to the cent. */
  function Record(row: Survivor, rate: real): TransactionRecord {
    Converted(row.day, row.description, AccountName, row.amount, rate)
  }

  function RecordsOf(kept: seq<Survivor>, rates: RateTable): (r: seq<TransactionRecord>)
    requires forall i :: 0 <= i < |kept| ==> HasRate(kept[i], rates)
    ensures |r| == |kept|
    ensures forall k :: 0 <= k < |kept| ==>
              HasRate(kept[k], rates) && r[k] == Record(kept[k], rates[(kept[k].day, kept[k].currency.value)])
  {
    if kept == [] then []
    else
      var last := kept[|kept| - 1];
      assert HasRate(last, rates);
      RecordsOf(kept[..|kept| - 1], rates) + [Record(last, rates[(last.day, last.currency.value)])]
  }

  lemma RecordsOfStep(kept: seq<Survivor>, rates: RateTable, i: nat)
    requires i < |kept| && forall k :: 0 <= k <= i ==> HasRate(kept[k], rates)
    ensures RecordsOf(kept[..i + 1], rates)
            == RecordsOf(kept[..i], rates) + [Record(kept[i], rates[(kept[i].day, kept[i].currency.value)])]
  {
    assert kept[..i + 1][..i] == kept[..i];
  }

  /** What the checking converter writes, or why it stops: no surviving row
      leaves no date range to request rates for; a rate table not quoted from
      US dollars is refused; a surviving row without a rate aborts the run. */
  function CheckingExport(rows: seq<CheckingRow>, parse: string -> Option<Day>, source: string, quotes: Quotes)
    : Result<seq<TransactionRecord>>
  {
    var kept := Survivors(rows, parse);
    if kept == [] then Failure(EmptyDateRange)
    else if source != Target then Failure(RuntimeError)
    else
      var rates := UsdRates(quotes, source, Currencies(kept), Target);
      if forall i :: 0 <= i < |kept| ==> HasRate(kept[i], rates) then Success(RecordsOf(kept, rates))
      else Failure(ValueError)
  }

  /** The converter's `main`, with its loop over the surviving rows. */
  method ConvertChecking(rows: seq<CheckingRow>, parse: string -> Option<Day>, source: string, quotes: Quotes)
    returns (r: Result<seq<TransactionRecord>>)
    ensures r == CheckingExport(rows, parse, source, quotes)
  {
    var kept := Survivors(rows, parse);
    if kept == [] {
      return Failure(EmptyDateRange);
    }
    var built := BuildUsdRates(quotes, source, Currencies(kept), Target);
    if built.Failure? {
      return Failure(built.error);
    }
    var rates := built.value;
    var output: seq<TransactionRecord> := [];
    for i := 0 to |kept|
      invariant forall k :: 0 <= k < i ==> HasRate(kept[k], rates)
      invariant output == RecordsOf(kept[..i], rates)
    {
      var row := kept[i];
      if row.currency.None? || (row.day, row.currency.value) !in rates {
        assert !HasRate(kept[i], rates);
        return Failure(ValueError);
      }
      var rate := rates[(row.day, row.currency.value)];
      RecordsOfStep(kept, rates, i);
      output := output + [Record(row, rate)];
    }
    assert kept[..|kept|] == kept;
    return Success(output);
  }

  // ------------------------------------------------------------ properties

  /** The survivors are exactly the completed or pending rows whose Started
      Date parses, in input order. */
  lemma SurvivorsAreFiltered(rows: seq<CheckingRow>, parse: string -> Option<Day>)
    ensures var kept := Survivors(rows, parse);
      var p := Positions(rows, Survive(parse));
      && |p| == |kept|
      && (forall k, l :: 0 <= k < l < |p| ==> p[k] < p[l])
      && (forall k :: 0 <= k < |p| ==> (
            && p[k] < |rows|
            && (rows[p[k]].state == "COMPLETED" || rows[p[k]].state == "PENDING")
            && parse(rows[p[k]].startedDate) == Some(kept[k].day)
            && kept[k].description == rows[p[k]].description && kept[k].amount == rows[p[k]].amount
            && kept[k].currency == rows[p[k]].currency))
      && (forall i :: (0 <= i < |rows| && (rows[i].state == "COMPLETED" || rows[i].state == "PENDING")
                       && parse(rows[i].startedDate).Some?) ==> i in p)
  {
    var f := Survive(parse);
    var p := Positions(rows, f);
    var kept := Survivors(rows, parse);
    forall k | 0 <= k < |p|
      ensures (rows[p[k]].state == "COMPLETED" || rows[p[k]].state == "PENDING")
      ensures parse(rows[p[k]].startedDate) == Some(kept[k].day)
      ensures kept[k].description == rows[p[k]].description && kept[k].amount == rows[p[k]].amount
      ensures kept[k].currency == rows[p[k]].currency
    {
      assert f(rows[p[k]]) == Some(kept[k]);
    }
    forall i | 0 <= i < |rows| && (rows[i].state == "COMPLETED" || rows[i].state == "PENDING")
               && parse(rows[i].startedDate).Some?
      ensures i in p
    {
      assert f(rows[i]).Some?;
    }
  }

  /** Every currency a survivor names is in the list the rates are built for. */
  lemma CurrenciesCover(kept: seq<Survivor>, k: nat)
    requires k < |kept| && kept[k].currency.Some?
    ensures kept[k].currency.value in Currencies(kept)
  {
    var p := Positions(kept, CurrencyOf);
    assert CurrencyOf(kept[k]).Some?;
    var m :| 0 <= m < |p| && p[m] == k;
    assert Currencies(kept)[m] == kept[k].currency.value;
  }

  /** On success there is one record per survivor, in order, converted
      (`Record`, `Converted`) at that day's multiplier for its currency: the
      row's day and description, the "Revolut Checking" account, the original
      amount, and the amount times the multiplier rounded to the cent. With one
      quote entry per day the multiplier is 1.0 for US dollars and the
      inverse of the day's "USD" + currency quote otherwise. */
  lemma CheckingRecords(rows: seq<CheckingRow>, parse: string -> Option<Day>, source: string, quotes: Quotes)
    requires CheckingExport(rows, parse, source, quotes).Success?
    ensures source == Target
    ensures var kept := Survivors(rows, parse);
      var out := CheckingExport(rows, parse, source, quotes).value;
      var rates := UsdRates(quotes, source, Currencies(kept), Target);
      && |out| == |kept|
      && forall k :: 0 <= k < |out| ==>
           HasRate(kept[k], rates) && out[k] == Record(kept[k], rates[(kept[k].day, kept[k].currency.value)])
  {
  }

  /** A run aborts with ValueError exactly when some survivor has no rate for
      its day and currency (a survivor without a currency counts as one). */
  lemma CheckingMissingRate(rows: seq<CheckingRow>, parse: string -> Option<Day>, quotes: Quotes)
    requires Survivors(rows, parse) != []
    ensures var kept := Survivors(rows, parse);
      var rates := UsdRates(quotes, Target, Currencies(kept), Target);
      CheckingExport(rows, parse, Target, quotes) == Failure(ValueError) <==>
        exists k :: 0 <= k < |kept| && (kept[k].currency.None? || (kept[k].day, kept[k].currency.value) !in rates)
  {
  }

  /** With one quote entry per day, a survivor in US dollars has a rate
      exactly when its day is quoted, and one in another currency exactly
      when its day is quoted with a non-zero "USD" + currency quote. */
  lemma CheckingRateAvailable(rows: seq<CheckingRow>, parse: string -> Option<Day>, quotes: Quotes, k: nat, q: nat)
    requires DistinctDays(quotes)
    requires k < |Survivors(rows, parse)| && q < |quotes|
    requires Survivors(rows, parse)[k].currency.Some? && Survivors(rows, parse)[k].day == quotes[q].day
    ensures var row := Survivors(rows, parse)[k];
      var c := row.currency.value;
      var rates := UsdRates(quotes, Target, Currencies(Survivors(rows, parse)), Target);
      && (c == Target ==> (HasRate(row, rates) <==> c != "") && (HasRate(row, rates) ==> rates[(row.day, c)] == 1.0))
      && (c != Target ==> (HasRate(row, rates) <==> c != "" && Target + c in quotes[q].quotes && quotes[q].quotes[Target + c] != 0.0))
      && (c != Target && HasRate(row, rates) ==> rates[(row.day, c)] == 1.0 / quotes[q].quotes[Target + c])
  {
    var kept := Survivors(rows, parse);
    CurrenciesCover(kept, k);
    UsdRatesEntry(quotes, Target, Currencies(kept), Target, q, kept[k].currency.value);
  }
}
