/** `get_latest_balance_history_value`: the closing balance of a previous run,
    read from the balance history written into the latest dated output folder
    before the run date. The matches of the folder glob and the contents of
    each CSV are inputs; the date parser is a parameter. */
module PriorBalance {
  import opened Basics
  import opened Sequences
  import opened RunContext

  /** The default `account_column`. */
  const AccountColumn := "Account"
  const DateColumn := "Date"

  /** A row of a balance-history CSV as `read_csv` loads it: its Date and
      Account cells as text (None when blank), and its non-blank numeric
      cells by column name. */
  datatype HistoryRow = HistoryRow(date: Option<string>, account: Option<string>, values: map<string, real>)

  /** A balance-history CSV: its header and its rows in file order. */
  datatype HistoryFile = HistoryFile(columns: set<string>, rows: seq<HistoryRow>)

  /** One match of the glob for the file name one level below the output root: the name of the folder
      holding it, whether it is a regular file, and what it contains. */
  datatype Match = Match(folder: string, isFile: bool, file: HistoryFile)

  /** A regular file whose folder name parses as a date. */
  function DatedFile(parse: string -> Option<Day>): Match -> Option<Candidate<HistoryFile>> {
    (m: Match) => if m.isFile && parse(m.folder).Some? then Some(Candidate(parse(m.folder).value, m.file)) else None
  }

  /** The candidates strictly before the run date. */
  function EarlierThan(day: Day): Candidate<HistoryFile> -> Option<Candidate<HistoryFile>> {
    (c: Candidate<HistoryFile>) => if c.date < day then Some(c) else None
  }

  function HasAccount(account: string): HistoryRow -> Option<HistoryRow> {
    (row: HistoryRow) => if row.account == Some(account) then Some(row) else None
  }

  /** The non-blank cells of a column: `df[column].dropna()`. */
  function ValueIn(column: string): HistoryRow -> Option<real> {
    (row: HistoryRow) => if column in row.values then Some(row.values[column]) else None
  }

  /** `sort_values("Date")` compares the Date cells as text and puts blank
      cells last. */
  predicate RowDateLe(a: HistoryRow, b: HistoryRow) {
    b.date.None? || (a.date.Some? && StrLe(a.date.value, b.date.value))
  }

  lemma RowDateLeTotalPreorder()
    ensures TotalPreorder(RowDateLe)
  {
    forall x: HistoryRow, y: HistoryRow
      ensures RowDateLe(x, y) || RowDateLe(y, x)
    {
      if x.date.Some? && y.date.Some? {
        StrLeTotal(x.date.value, y.date.value);
      }
    }
    forall x: HistoryRow, y: HistoryRow, z: HistoryRow | RowDateLe(x, y) && RowDateLe(y, z)
      ensures RowDateLe(x, z)
    {
      if x.date.Some? && y.date.Some? && z.date.Some? {
        StrLeTransitive(x.date.value, y.date.value, z.date.value);
      }
    }
  }

  /** The rows of the chosen account, or all rows when no account is named. */
  function AccountRows(file: HistoryFile, account: Option<string>): (r: Result<seq<HistoryRow>>)
    ensures !Present(account) ==> r == Success(file.rows)
    ensures Present(account) && AccountColumn !in file.columns ==> r == Failure(ConfigError)
    ensures r.Failure? ==> r.error == ConfigError
  {
    if !Present(account) then Success(file.rows)
    else if AccountColumn !in file.columns then Failure(ConfigError)
    else
      var rows := FilterMap(file.rows, HasAccount(account.value));
      if rows == [] then Failure(ConfigError) else Success(rows)
  }

  /** The rows in the order the last value is read from. */
  function Ordered(file: HistoryFile, rows: seq<HistoryRow>): seq<HistoryRow> {
    if DateColumn in file.columns then SortBy(rows, RowDateLe) else rows
  }

  /** What the latest file yields: the last non-blank value of `column` among
      the account's rows, ordered by date when the file has a Date column. */
  function LastValue(file: HistoryFile, column: string, account: Option<string>): (r: Result<real>)
    ensures Present(account) && AccountColumn !in file.columns ==> r == Failure(ConfigError)
    ensures column !in file.columns ==> r == Failure(ConfigError)
    ensures r.Failure? ==> r.error == ConfigError
  {
    match AccountRows(file, account)
    case Failure(e) => Failure(e)
    case Success(rows) =>
      if column !in file.columns then Failure(ConfigError)
      else
        var values := FilterMap(Ordered(file, rows), ValueIn(column));
        if values == [] then Failure(ConfigError) else Success(values[|values| - 1])
  }

  function Lift(r: Result<real>): Result<Option<real>> {
    match r
    case Success(v) => Success(Some(v))
    case Failure(e) => Failure(e)
  }

  /** What `get_latest_balance_history_value` returns: None when no dated file
      (before a well-formed run date) exists, a ConfigError for a malformed
      run date once there is a candidate, else what the latest file yields. */
  function LatestBalanceValue(matches: seq<Match>, parse: string -> Option<Day>, runDate: Option<string>,
                              column: string, account: Option<string>): Result<Option<real>> {
    var dated := FilterMap(matches, DatedFile(parse));
    if dated == [] then Success(None)
    else if Present(runDate) && parse(runDate.value).None? then Failure(ConfigError)
    else
      var eligible := if Present(runDate) then FilterMap(dated, EarlierThan(parse(runDate.value).value)) else dated;
      if eligible == [] then Success(None)
      else Lift(LastValue(eligible[LatestIndex(eligible)].item, column, account))
  }

  /** `get_latest_balance_history_value`, with its loop over the glob's matches. */
  method FindLatestBalanceValue(matches: seq<Match>, parse: string -> Option<Day>, runDate: Option<string>,
                                column: string, account: Option<string>)
    returns (r: Result<Option<real>>)
    ensures r == LatestBalanceValue(matches, parse, runDate, column, account)
  {
    var candidates: seq<Candidate<HistoryFile>> := [];
    for i := 0 to |matches|
      invariant candidates == FilterMap(matches[..i], DatedFile(parse))
    {
      var m := matches[i];
      assert matches[..i + 1][..i] == matches[..i];
      if !m.isFile {
        continue;
      }
      var folderDate := parse(m.folder);
      if folderDate.None? {
        continue;
      }
      candidates := candidates + [Candidate(folderDate.value, m.file)];
    }
    assert matches[..|matches|] == matches;
    if candidates == [] {
      return Success(None);
    }
    if Present(runDate) {
      var runDay := parse(runDate.value);
      if runDay.None? {
        return Failure(ConfigError);
      }
      candidates := FilterMap(candidates, EarlierThan(runDay.value));
      if candidates == [] {
        return Success(None);
      }
    }
    var latest := candidates[LatestIndex(candidates)].item;
    r := Lift(LastValue(latest, column, account));
  }

  // ------------------------------------------------------------- properties

  /** A match the lookup may read: a regular file in a dated folder, strictly
      before the run date when one is given. */
  predicate Eligible(m: Match, parse: string -> Option<Day>, runDate: Option<string>) {
    && m.isFile && parse(m.folder).Some?
    && (Present(runDate) ==> parse(runDate.value).Some? && parse(m.folder).value < parse(runDate.value).value)
  }

  /** The selection of eligible files, as one filter over the matches. */
  function EligibleFile(parse: string -> Option<Day>, runDate: Option<string>): Match -> Option<Candidate<HistoryFile>>
    requires Present(runDate) ==> parse(runDate.value).Some?
  {
    if Present(runDate) then Then(DatedFile(parse), EarlierThan(parse(runDate.value).value)) else DatedFile(parse)
  }

  lemma EligibleFileSelects(matches: seq<Match>, parse: string -> Option<Day>, runDate: Option<string>)
    requires Present(runDate) ==> parse(runDate.value).Some?
    ensures (if Present(runDate) then FilterMap(FilterMap(matches, DatedFile(parse)), EarlierThan(parse(runDate.value).value))
             else FilterMap(matches, DatedFile(parse))) == FilterMap(matches, EligibleFile(parse, runDate))
  {
    if Present(runDate) {
      FilterMapThen(matches, DatedFile(parse), EarlierThan(parse(runDate.value).value));
    }
  }

  lemma EligibleFileAt(m: Match, parse: string -> Option<Day>, runDate: Option<string>)
    requires Present(runDate) ==> parse(runDate.value).Some?
    ensures EligibleFile(parse, runDate)(m).Some? <==> Eligible(m, parse, runDate)
    ensures EligibleFile(parse, runDate)(m).Some? ==>
              EligibleFile(parse, runDate)(m).value == Candidate(parse(m.folder).value, m.file)
  {
  }

  /** The lookup finds nothing exactly when no file is eligible; a malformed
      run date is reported only once some dated file exists. */
  lemma LatestBalanceNone(matches: seq<Match>, parse: string -> Option<Day>, runDate: Option<string>,
                          column: string, account: Option<string>)
    ensures var r := LatestBalanceValue(matches, parse, runDate, column, account);
      && (Present(runDate) && parse(runDate.value).None? ==>
            && (r == Success(None) <==> forall i :: 0 <= i < |matches| ==> DatedFile(parse)(matches[i]).None?)
            && (r != Success(None) ==> r == Failure(ConfigError)))
      && (!(Present(runDate) && parse(runDate.value).None?) ==>
            (r == Success(None) <==> forall i :: 0 <= i < |matches| ==> !Eligible(matches[i], parse, runDate)))
  {
    if Present(runDate) && parse(runDate.value).None? {
      FilterMapEmpty(matches, DatedFile(parse));
    } else {
      NothingEligible(matches, parse, runDate, column, account);
    }
  }

  lemma NothingEligible(matches: seq<Match>, parse: string -> Option<Day>, runDate: Option<string>,
                        column: string, account: Option<string>)
    requires Present(runDate) ==> parse(runDate.value).Some?
    ensures LatestBalanceValue(matches, parse, runDate, column, account) == Success(None) <==>
              forall i :: 0 <= i < |matches| ==> !Eligible(matches[i], parse, runDate)
  {
    EligibleFileSelects(matches, parse, runDate);
    FilterMapEmpty(matches, EligibleFile(parse, runDate));
    forall i | 0 <= i < |matches|
      ensures EligibleFile(parse, runDate)(matches[i]).Some? <==> Eligible(matches[i], parse, runDate)
    {
      EligibleFileAt(matches[i], parse, runDate);
    }
  }

  /** When some file is eligible, the value comes from the first eligible file
      of the latest folder date. */
  lemma LatestBalanceFromLatestFile(matches: seq<Match>, parse: string -> Option<Day>, runDate: Option<string>,
                                    column: string, account: Option<string>)
    requires Present(runDate) ==> parse(runDate.value).Some?
    requires exists i :: 0 <= i < |matches| && Eligible(matches[i], parse, runDate)
    ensures exists i :: (
      && 0 <= i < |matches| && Eligible(matches[i], parse, runDate)
      && (forall j :: 0 <= j < |matches| && Eligible(matches[j], parse, runDate) ==>
            parse(matches[j].folder).value <= parse(matches[i].folder).value)
      && (forall j :: 0 <= j < i && Eligible(matches[j], parse, runDate) ==>
            parse(matches[j].folder).value < parse(matches[i].folder).value)
      && LatestBalanceValue(matches, parse, runDate, column, account) == Lift(LastValue(matches[i].file, column, account)))
  {
    var f := EligibleFile(parse, runDate);
    var w :| 0 <= w < |matches| && Eligible(matches[w], parse, runDate);
    LatestBalanceViaFilter(matches, parse, runDate, column, account, w);
    var i := LatestEligible(matches, parse, runDate, w);
  }

  lemma LatestBalanceViaFilter(matches: seq<Match>, parse: string -> Option<Day>, runDate: Option<string>,
                               column: string, account: Option<string>, w: nat)
    requires Present(runDate) ==> parse(runDate.value).Some?
    requires w < |matches| && Eligible(matches[w], parse, runDate)
    ensures var cs := FilterMap(matches, EligibleFile(parse, runDate));
      && cs != []
      && LatestBalanceValue(matches, parse, runDate, column, account) == Lift(LastValue(cs[LatestIndex(cs)].item, column, account))
  {
    var f := EligibleFile(parse, runDate);
    EligibleFileSelects(matches, parse, runDate);
    assert DatedFile(parse)(matches[w]).Some?;
    EligibleFileAt(matches[w], parse, runDate);
    FilterMapEmpty(matches, DatedFile(parse));
    FilterMapEmpty(matches, f);
  }

  /** The position of the file `LatestIndex` picks among the eligible ones. */
  lemma LatestEligible(matches: seq<Match>, parse: string -> Option<Day>, runDate: Option<string>, w: nat)
    returns (i: nat)
    requires Present(runDate) ==> parse(runDate.value).Some?
    requires w < |matches| && Eligible(matches[w], parse, runDate)
    ensures FilterMap(matches, EligibleFile(parse, runDate)) != []
    ensures var cs := FilterMap(matches, EligibleFile(parse, runDate));
      && i < |matches| && Eligible(matches[i], parse, runDate)
      && cs[LatestIndex(cs)].item == matches[i].file
      && (forall j :: 0 <= j < |matches| && Eligible(matches[j], parse, runDate) ==>
            parse(matches[j].folder).value <= parse(matches[i].folder).value)
      && (forall j :: 0 <= j < i && Eligible(matches[j], parse, runDate) ==>
            parse(matches[j].folder).value < parse(matches[i].folder).value)
  {
    var f := EligibleFile(parse, runDate);
    EligibleFileAt(matches[w], parse, runDate);
    FilterMapEmpty(matches, f);
    LatestSelected(matches, f);
    var cs := FilterMap(matches, f);
    i := Positions(matches, f)[LatestIndex(cs)];
    var day := parse(matches[i].folder).value;
    EligibleFileAt(matches[i], parse, runDate);
    forall j | 0 <= j < |matches| && Eligible(matches[j], parse, runDate)
      ensures parse(matches[j].folder).value <= day
      ensures j < i ==> parse(matches[j].folder).value < day
    {
      EligibleFileAt(matches[j], parse, runDate);
    }
  }

  /** The rows read for a named account are that account's rows, all of them;
      a file with no such row is a ConfigError. */
  lemma AccountRowsSelect(file: HistoryFile, account: Option<string>)
    requires Present(account) && AccountColumn in file.columns
    ensures var r := AccountRows(file, account);
      && (r.Success? <==> exists i :: 0 <= i < |file.rows| && file.rows[i].account == Some(account.value))
      && (r.Success? ==> forall k :: 0 <= k < |r.value| ==> r.value[k].account == Some(account.value))
      && (r.Success? ==> forall i :: 0 <= i < |file.rows| && file.rows[i].account == Some(account.value) ==>
                           file.rows[i] in r.value)
  {
    var f := HasAccount(account.value);
    var rows := FilterMap(file.rows, f);
    var p := Positions(file.rows, f);
    assert AccountRows(file, account) == (if rows == [] then Failure(ConfigError) else Success(rows));
    forall i | 0 <= i < |file.rows| && file.rows[i].account == Some(account.value)
      ensures file.rows[i] in rows
    {
      var k := PositionOf(file.rows, f, i);
    }
    forall k | 0 <= k < |rows|
      ensures rows[k].account == Some(account.value)
    {
      assert f(file.rows[p[k]]) == Some(rows[k]);
    }
    if rows != [] {
      assert f(file.rows[p[0]]).Some?;
      assert file.rows[p[0]].account == Some(account.value);
    } else {
      FilterMapEmpty(file.rows, f);
      forall i | 0 <= i < |file.rows|
        ensures file.rows[i].account != Some(account.value)
      {
        assert f(file.rows[i]).None?;
      }
    }
  }

  /** The value read is the latest (by Date, blanks last) non-blank value of
      the column among the account's rows. */
  lemma LastValueIsLatest(file: HistoryFile, column: string, account: Option<string>)
    requires LastValue(file, column, account).Success?
    ensures AccountRows(file, account).Success?
    ensures var rows := Ordered(file, AccountRows(file, account).value);
      && multiset(rows) == multiset(AccountRows(file, account).value)
      && (DateColumn in file.columns ==> SortedBy(rows, RowDateLe))
      && exists k :: (
           && 0 <= k < |rows| && column in rows[k].values
           && rows[k].values[column] == LastValue(file, column, account).value
           && forall l :: k < l < |rows| ==> column !in rows[l].values)
  {
    var source := AccountRows(file, account).value;
    var rows := Ordered(file, source);
    if DateColumn in file.columns {
      RowDateLeTotalPreorder();
      SortBySorted(source, RowDateLe);
    }
    FilterMapLast(rows, ValueIn(column));
  }

  // --------------------------------------------------------------- examples

  function ExampleParse(s: string): Option<Day> {
    if s == "2024-01-01" then Some(0)
    else if s == "2024-02-01" then Some(31)
    else if s == "2024-03-01" then Some(60)
    else None
  }

  function BalanceCells(balance: real): map<string, real> {
    map["Balance" := balance, "Original Balance" := balance]
  }

  const HistoryColumns: set<string> := {"Date", "Balance", "Original Balance", "Account"}

  const Jan1Checking := HistoryRow(Some("2024-01-01"), Some("Checking"), BalanceCells(100.0))
  const Jan2Checking := HistoryRow(Some("2024-01-02"), Some("Checking"), BalanceCells(110.0))
  const Jan2Savings := HistoryRow(Some("2024-01-02"), Some("Savings"), BalanceCells(200.0))
  const Feb1Checking := HistoryRow(Some("2024-02-01"), Some("Checking"), BalanceCells(120.0))

  /** The older run's history has two Checking days and a Savings day, the
      newer run's a single Checking day. */
  const OlderHistory := HistoryFile(HistoryColumns, [Jan1Checking, Jan2Checking, Jan2Savings])
  const NewerHistory := HistoryFile(HistoryColumns, [Feb1Checking])

  const TwoRuns: seq<Match> := [Match("2024-01-01", true, OlderHistory), Match("2024-02-01", true, NewerHistory)]

  /** With a run on 2024-03-01 the newer history is read; with a run on
      2024-02-01 only the older one is before it, and its last Checking
      balance is 110. */
  lemma ExampleAccountSpecific()
    ensures LatestBalanceValue(TwoRuns, ExampleParse, Some("2024-03-01"), "Balance", Some("Checking")) == Success(Some(120.0))
    ensures LatestBalanceValue(TwoRuns, ExampleParse, Some("2024-02-01"), "Balance", Some("Checking")) == Success(Some(110.0))
  {
    ExampleRunInMarch();
    ExampleRunInFebruary();
  }

  lemma ExampleRunInMarch()
    ensures LatestBalanceValue(TwoRuns, ExampleParse, Some("2024-03-01"), "Balance", Some("Checking")) == Success(Some(120.0))
  {
    ExampleNewerChecking();
    ExampleDatedRuns();
    ExampleLatestOfTwo();
    assert ExampleParse("2024-03-01") == Some(60);
  }

  lemma ExampleLatestOfTwo()
    ensures var cs := [Candidate(0, OlderHistory), Candidate(31, NewerHistory)];
      FilterMap(cs, EarlierThan(60)) == cs && LatestIndex(cs) == 1
  {
    var c0 := Candidate(0, OlderHistory);
    var c1 := Candidate(31, NewerHistory);
    FilterMapPair(c0, c1, EarlierThan(60));
    assert [c0, c1][..1] == [c0];
    assert LatestIndex([c0]) == 0;
  }

  lemma ExampleRunInFebruary()
    ensures LatestBalanceValue(TwoRuns, ExampleParse, Some("2024-02-01"), "Balance", Some("Checking")) == Success(Some(110.0))
  {
    ExampleOlderChecking();
    ExampleDatedRuns();
    var c0 := Candidate(0, OlderHistory);
    var c1 := Candidate(31, NewerHistory);
    assert ExampleParse("2024-02-01") == Some(31);
    FilterMapPair(c0, c1, EarlierThan(31));
    assert FilterMap([c0, c1], EarlierThan(31)) == [c0];
  }

  lemma ExampleDatedRuns()
    ensures FilterMap(TwoRuns, DatedFile(ExampleParse)) == [Candidate(0, OlderHistory), Candidate(31, NewerHistory)]
  {
    assert ExampleParse("2024-01-01") == Some(0);
    assert ExampleParse("2024-02-01") == Some(31);
    FilterMapPair(TwoRuns[0], TwoRuns[1], DatedFile(ExampleParse));
  }

  /** The older history's Checking rows, by date, end at 110. */
  lemma ExampleOlderChecking()
    ensures LastValue(OlderHistory, "Balance", Some("Checking")) == Success(110.0)
  {
    ExampleColumns();
    ExampleOlderRows();
    ExampleOlderInOrder();
    ExampleOlderBalances();
    assert Ordered(OlderHistory, [Jan1Checking, Jan2Checking]) == [Jan1Checking, Jan2Checking];
  }

  lemma ExampleColumns()
    ensures AccountColumn in HistoryColumns && DateColumn in HistoryColumns && "Balance" in HistoryColumns
  {
  }

  lemma ExampleOlderRows()
    ensures AccountRows(OlderHistory, Some("Checking")) == Success([Jan1Checking, Jan2Checking])
  {
    ExampleColumns();
    FilterMapTriple(Jan1Checking, Jan2Checking, Jan2Savings, HasAccount("Checking"));
    assert HasAccount("Checking")(Jan1Checking) == Some(Jan1Checking);
    assert HasAccount("Checking")(Jan2Checking) == Some(Jan2Checking);
    assert Jan2Savings.account == Some("Savings") && "Savings" != "Checking";
    assert HasAccount("Checking")(Jan2Savings) == None;
    assert OlderHistory.rows == [Jan1Checking, Jan2Checking, Jan2Savings];
    assert FilterMap(OlderHistory.rows, HasAccount("Checking")) == [Jan1Checking, Jan2Checking];
    assert Present(Some("Checking"));
    assert AccountColumn in OlderHistory.columns;
  }

  lemma ExampleOlderBalances()
    ensures FilterMap([Jan1Checking, Jan2Checking], ValueIn("Balance")) == [100.0, 110.0]
  {
    FilterMapPair(Jan1Checking, Jan2Checking, ValueIn("Balance"));
  }

  lemma ExampleDatesOrdered()
    ensures StrLe("2024-01-01", "2024-01-02")
  {
    StrLeCommonPrefix("2024-01-0", "1", "2");
    assert "2024-01-0" + "1" == "2024-01-01";
    assert "2024-01-0" + "2" == "2024-01-02";
  }

  lemma ExampleOlderInOrder()
    ensures SortBy([Jan1Checking, Jan2Checking], RowDateLe) == [Jan1Checking, Jan2Checking]
  {
    ExampleDatesOrdered();
    assert RowDateLe(Jan1Checking, Jan2Checking);
    SortPairInOrder(Jan1Checking, Jan2Checking, RowDateLe);
  }

  lemma ExampleNewerChecking()
    ensures LastValue(NewerHistory, "Balance", Some("Checking")) == Success(120.0)
  {
    ExampleColumns();
    ExampleNewerRows();
    assert [Feb1Checking][..0] == [];
    assert SortBy([Feb1Checking], RowDateLe) == InsertBy(Feb1Checking, [], RowDateLe);
    assert Ordered(NewerHistory, [Feb1Checking]) == [Feb1Checking];
    FilterMapSingle(Feb1Checking, ValueIn("Balance"));
  }

  lemma ExampleNewerRows()
    ensures AccountRows(NewerHistory, Some("Checking")) == Success([Feb1Checking])
  {
    ExampleColumns();
    FilterMapSingle(Feb1Checking, HasAccount("Checking"));
  }

  /** A single run on 2024-01-01 whose history holds only a Checking row. */
  const OnlyChecking := HistoryFile(HistoryColumns, [Jan1Checking])
  const OneRun: seq<Match> := [Match("2024-01-01", true, OnlyChecking)]

  /** Asking that run for a Savings balance is a ConfigError. */
  lemma ExampleMissingAccount()
    ensures LatestBalanceValue(OneRun, ExampleParse, Some("2024-02-01"), "Balance", Some("Savings")) == Failure(ConfigError)
  {
    ExampleNoSavings();
    assert ExampleParse("2024-01-01") == Some(0);
    assert ExampleParse("2024-02-01") == Some(31);
    FilterMapSingle(OneRun[0], DatedFile(ExampleParse));
    FilterMapSingle(Candidate(0, OnlyChecking), EarlierThan(31));
  }

  lemma ExampleNoSavings()
    ensures LastValue(OnlyChecking, "Balance", Some("Savings")) == Failure(ConfigError)
  {
    ExampleColumns();
    assert Jan1Checking.account == Some("Checking") && "Checking" != "Savings";
    FilterMapSingle(Jan1Checking, HasAccount("Savings"));
  }
}
