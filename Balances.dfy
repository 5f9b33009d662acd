/** `build_balance_history`: per configured account, the end-of-day balance on
    each day it has transactions, as a running sum from the starting balance;
    accounts in a foreign currency are converted at that day's rate. The rate
    lookup is a parameter. */
module Balances {
  import opened Basics
  import opened Sequences
  import opened Records

  /** A row of the loaded import files, as far as the balance history reads it. */
  datatype Transaction = Transaction(date: Day, account: string, amount: real, originalAmount: real)

  /** `AccountConfig`: an account's name, its currency and its balance before
      the first transaction. */
  datatype AccountConfig = AccountConfig(name: string, currency: string, startingBalance: real)

  /** A row of the balance history; a foreign-currency day without a rate has
      no Balance. */
  datatype BalanceRow = BalanceRow(date: Day, balance: Option<real>, originalBalance: real, account: string)

  /** An amount booked on a day. */
  datatype DayAmount = DayAmount(day: Day, amount: real)

  // ------------------------------------------------------- daily totals

  /** Adds an amount to the total of its day in a day-ordered list of totals. */
  function AddAmount(totals: seq<DayAmount>, day: Day, amount: real): (r: seq<DayAmount>)
    ensures r != []
  {
    if totals == [] then [DayAmount(day, amount)]
    else if day < totals[0].day then [DayAmount(day, amount)] + totals
    else if day == totals[0].day then [DayAmount(day, totals[0].amount + amount)] + totals[1..]
    else [totals[0]] + AddAmount(totals[1..], day, amount)
  }

  /** `groupby("Date")[column].sum()`: one total per day, by increasing day. */
  function DailySums(postings: seq<DayAmount>): seq<DayAmount> {
    if postings == [] then []
    else
      var last := postings[|postings| - 1];
      AddAmount(DailySums(postings[..|postings| - 1]), last.day, last.amount)
  }

  predicate Increasing(totals: seq<DayAmount>) {
    forall i, j :: 0 <= i < j < |totals| ==> totals[i].day < totals[j].day
  }

  /** The sum of the amounts booked on or before `d`. */
  function SumThrough(postings: seq<DayAmount>, d: Day): real {
    if postings == [] then 0.0
    else (if postings[0].day <= d then postings[0].amount else 0.0) + SumThrough(postings[1..], d)
  }

  /** The days that carry an amount. */
  function Days(postings: seq<DayAmount>): set<Day> {
    set i | 0 <= i < |postings| :: postings[i].day
  }

  // -------------------------------------------------------- running sums

  function Sum(xs: seq<real>): real {
    if xs == [] then 0.0 else xs[0] + Sum(xs[1..])
  }

  /** `cumsum() + start`. */
  function Cumulative(xs: seq<real>, start: real): (r: seq<real>)
    ensures |r| == |xs|
  {
    if xs == [] then [] else [start + xs[0]] + Cumulative(xs[1..], start + xs[0])
  }

  function Amounts(totals: seq<DayAmount>): (r: seq<real>)
    ensures |r| == |totals|
  {
    seq(|totals|, i requires 0 <= i < |totals| => totals[i].amount)
  }

  // ------------------------------------------------------------ accounts

  /** The account's transactions as amounts in the currency its history is kept
      in: Amount for a target-currency account, Original Amount otherwise. */
  function Posting(account: AccountConfig, target: string): Transaction -> Option<DayAmount> {
    (t: Transaction) =>
      if t.account != account.name then None
      else Some(DayAmount(t.date, if account.currency == target then t.amount else t.originalAmount))
  }

  function Postings(txns: seq<Transaction>, account: AccountConfig, target: string): seq<DayAmount> {
    FilterMap(txns, Posting(account, target))
  }

  /** `convert_to_usd`: no Balance without a rate, else the rounded product. */
  function BalanceInUsd(rate: Option<real>, originalBalance: real): Option<real> {
    if rate.None? then None else Some(Round2(originalBalance * rate.value))
  }

  /** The frame one account contributes. */
  function AccountHistory(txns: seq<Transaction>, account: AccountConfig,
                          rateLookup: (Day, string) -> Option<real>, target: string): seq<BalanceRow> {
    var daily := DailySums(Postings(txns, account, target));
    var running := Cumulative(Amounts(daily), account.startingBalance);
    seq(|daily|, i requires 0 <= i < |daily| =>
      BalanceRow(daily[i].day,
                 if account.currency == target then Some(running[i])
                 else BalanceInUsd(rateLookup(daily[i].day, account.currency), running[i]),
                 running[i], account.name))
  }

  /** The frames of all accounts, concatenated in account order. */
  function Histories(txns: seq<Transaction>, accounts: seq<AccountConfig>,
                     rateLookup: (Day, string) -> Option<real>, target: string): seq<BalanceRow> {
    if accounts == [] then []
    else Histories(txns, accounts[..|accounts| - 1], rateLookup, target)
           + AccountHistory(txns, accounts[|accounts| - 1], rateLookup, target)
  }

  /** `sort_values(["Account", "Date"])`. */
  predicate AccountDateLe(a: BalanceRow, b: BalanceRow) {
    (StrLe(a.account, b.account) && a.account != b.account) || (a.account == b.account && a.date <= b.date)
  }

  /** What `build_balance_history` returns. */
  function BalanceHistory(txns: seq<Transaction>, accounts: seq<AccountConfig>,
                          rateLookup: (Day, string) -> Option<real>, target: string): Result<seq<BalanceRow>> {
    var all := Histories(txns, accounts, rateLookup, target);
    if all == [] then Failure(RuntimeError) else Success(SortBy(all, AccountDateLe))
  }

  function Flatten(frames: seq<seq<BalanceRow>>): seq<BalanceRow> {
    if frames == [] then [] else Flatten(frames[..|frames| - 1]) + frames[|frames| - 1]
  }

  /** `build_balance_history`, with its loop over the accounts. */
  method BuildBalanceHistory(txns: seq<Transaction>, accounts: seq<AccountConfig>,
                             rateLookup: (Day, string) -> Option<real>, target: string)
    returns (r: Result<seq<BalanceRow>>)
    ensures r == BalanceHistory(txns, accounts, rateLookup, target)
  {
    var frames: seq<seq<BalanceRow>> := [];
    for i := 0 to |accounts|
      invariant Flatten(frames) == Histories(txns, accounts[..i], rateLookup, target)
      invariant frames == [] <==> Flatten(frames) == []
    {
      var account := accounts[i];
      assert accounts[..i + 1][..i] == accounts[..i];
      var daily := AccountHistory(txns, account, rateLookup, target);
      if daily == [] {
        assert Flatten(frames) + daily == Flatten(frames);
        continue;
      }
      var before := frames;
      frames := frames + [daily];
      assert frames[..|frames| - 1] == before;
    }
    assert accounts[..|accounts|] == accounts;
    if frames == [] {
      return Failure(RuntimeError);
    }
    var all := Flatten(frames);
    return Success(SortBy(all, AccountDateLe));
  }

  // ------------------------------------------------------------ properties

  lemma {:induction false} SumThroughAppend(a: seq<DayAmount>, b: seq<DayAmount>, d: Day)
    ensures SumThrough(a + b, d) == SumThrough(a, d) + SumThrough(b, d)
  {
    if a == [] {
      assert a + b == b;
    } else {
      assert (a + b)[0] == a[0] && (a + b)[1..] == a[1..] + b;
      SumThroughAppend(a[1..], b, d);
    }
  }

  lemma {:induction false} AddAmountSumThrough(totals: seq<DayAmount>, day: Day, amount: real, d: Day)
    ensures SumThrough(AddAmount(totals, day, amount), d) == SumThrough(totals, d) + (if day <= d then amount else 0.0)
  {
    if totals != [] && day > totals[0].day {
      AddAmountSumThrough(totals[1..], day, amount, d);
      assert ([totals[0]] + AddAmount(totals[1..], day, amount))[1..] == AddAmount(totals[1..], day, amount);
    } else if totals != [] && day == totals[0].day {
      assert ([DayAmount(day, totals[0].amount + amount)] + totals[1..])[1..] == totals[1..];
    } else if totals != [] {
      assert ([DayAmount(day, amount)] + totals)[1..] == totals;
    }
  }

  lemma {:induction false} AddAmountDays(totals: seq<DayAmount>, day: Day, amount: real)
    ensures Days(AddAmount(totals, day, amount)) == Days(totals) + {day}
  {
    if totals == [] {
      assert AddAmount(totals, day, amount)[0].day == day;
    } else if day < totals[0].day {
      DaysCons(DayAmount(day, amount), totals);
    } else if day == totals[0].day {
      DaysCons(DayAmount(day, totals[0].amount + amount), totals[1..]);
      DaysCons(totals[0], totals[1..]);
      assert totals == [totals[0]] + totals[1..];
    } else {
      AddAmountDays(totals[1..], day, amount);
      DaysCons(totals[0], AddAmount(totals[1..], day, amount));
      DaysCons(totals[0], totals[1..]);
      assert totals == [totals[0]] + totals[1..];
    }
  }

  /** Prepending a total for an earlier day than all others keeps the days
      increasing. */
  lemma IncreasingCons(a: DayAmount, r: seq<DayAmount>)
    requires Increasing(r)
    requires forall j :: 0 <= j < |r| ==> a.day < r[j].day
    ensures Increasing([a] + r)
  {
    var c := [a] + r;
    forall i, j | 0 <= i < j < |c|
      ensures c[i].day < c[j].day
    {
      assert c[j] == r[j - 1];
      if 0 < i {
        assert c[i] == r[i - 1];
      }
    }
  }

  lemma IncreasingTail(totals: seq<DayAmount>)
    requires totals != [] && Increasing(totals)
    ensures Increasing(totals[1..])
    ensures forall j :: 0 <= j < |totals[1..]| ==> totals[0].day < totals[1..][j].day
  {
    var tail := totals[1..];
    forall i, j | 0 <= i < j < |tail|
      ensures tail[i].day < tail[j].day
    {
      assert tail[i] == totals[i + 1] && tail[j] == totals[j + 1];
    }
    forall j | 0 <= j < |tail|
      ensures totals[0].day < tail[j].day
    {
      assert tail[j] == totals[j + 1];
    }
  }

  lemma {:induction false} AddAmountIncreasing(totals: seq<DayAmount>, day: Day, amount: real)
    requires Increasing(totals)
    ensures Increasing(AddAmount(totals, day, amount))
  {
    if totals == [] {
    } else if day < totals[0].day {
      IncreasingTail(totals);
      assert totals == [totals[0]] + totals[1..];
      IncreasingCons(DayAmount(day, amount), totals);
    } else if day == totals[0].day {
      IncreasingTail(totals);
      IncreasingCons(DayAmount(day, totals[0].amount + amount), totals[1..]);
    } else {
      var tail := totals[1..];
      IncreasingTail(totals);
      AddAmountIncreasing(tail, day, amount);
      AddAmountDays(tail, day, amount);
      var rest := AddAmount(tail, day, amount);
      forall j | 0 <= j < |rest|
        ensures totals[0].day < rest[j].day
      {
        assert rest[j].day in Days(rest);
        if rest[j].day != day {
          var k :| 0 <= k < |tail| && tail[k].day == rest[j].day;
        }
      }
      IncreasingCons(totals[0], rest);
    }
  }

  lemma DaysCons(x: DayAmount, s: seq<DayAmount>)
    ensures Days([x] + s) == {x.day} + Days(s)
  {
    var r := [x] + s;
    forall d | d in Days(r)
      ensures d in {x.day} + Days(s)
    {
      var i :| 0 <= i < |r| && r[i].day == d;
      if i > 0 {
        assert r[i] == s[i - 1];
      }
    }
    forall d | d in Days(s)
      ensures d in Days(r)
    {
      var i :| 0 <= i < |s| && s[i].day == d;
      assert r[i + 1] == s[i];
    }
    assert r[0] == x;
  }

  lemma DaysSnoc(s: seq<DayAmount>, x: DayAmount)
    ensures Days(s + [x]) == Days(s) + {x.day}
  {
    var r := s + [x];
    forall d | d in Days(r)
      ensures d in Days(s) + {x.day}
    {
      var i :| 0 <= i < |r| && r[i].day == d;
      if i < |s| {
        assert r[i] == s[i];
      }
    }
    forall d | d in Days(s)
      ensures d in Days(r)
    {
      var i :| 0 <= i < |s| && s[i].day == d;
      assert r[i] == s[i];
    }
    assert r[|s|] == x;
  }

  /** The daily totals: one per day that has postings, by increasing day, and
      through any day they add up to the postings through that day. */
  lemma {:induction false} DailySumsSpec(postings: seq<DayAmount>)
    ensures Increasing(DailySums(postings))
    ensures Days(DailySums(postings)) == Days(postings)
    ensures forall d :: SumThrough(DailySums(postings), d) == SumThrough(postings, d)
    ensures DailySums(postings) == [] <==> postings == []
  {
    if postings != [] {
      var init := postings[..|postings| - 1];
      var last := postings[|postings| - 1];
      DailySumsSpec(init);
      AddAmountIncreasing(DailySums(init), last.day, last.amount);
      AddAmountDays(DailySums(init), last.day, last.amount);
      assert postings == init + [last];
      DaysSnoc(init, last);
      forall d
        ensures SumThrough(DailySums(postings), d) == SumThrough(postings, d)
      {
        AddAmountSumThrough(DailySums(init), last.day, last.amount, d);
        SumThroughAppend(init, [last], d);
        assert [last][1..] == [];
      }
    }
  }

  /** `cumsum() + start`: entry i is the start plus the first i + 1 amounts. */
  lemma {:induction false} CumulativeIsPrefixSum(xs: seq<real>, start: real)
    ensures forall i :: 0 <= i < |xs| ==> Cumulative(xs, start)[i] == start + Sum(xs[..i + 1])
  {
    if xs != [] {
      CumulativeIsPrefixSum(xs[1..], start + xs[0]);
      forall i | 0 <= i < |xs|
        ensures Cumulative(xs, start)[i] == start + Sum(xs[..i + 1])
      {
        assert xs[..i + 1][0] == xs[0];
        if i > 0 {
          assert xs[..i + 1][1..] == xs[1..][..i];
        } else {
          assert xs[..1][1..] == [];
        }
      }
    }
  }

  lemma {:induction false} SumThroughNone(totals: seq<DayAmount>, d: Day)
    requires forall k :: 0 <= k < |totals| ==> totals[k].day > d
    ensures SumThrough(totals, d) == 0.0
  {
    if totals != [] {
      SumThroughNone(totals[1..], d);
    }
  }

  /** On increasing days, the total through day i is the sum of the first
      i + 1 daily amounts. */
  lemma {:induction false} SumThroughPrefix(totals: seq<DayAmount>, i: nat)
    requires Increasing(totals) && i < |totals|
    ensures SumThrough(totals, totals[i].day) == Sum(Amounts(totals)[..i + 1])
  {
    var tail := totals[1..];
    assert Amounts(totals)[..i + 1][0] == totals[0].amount;
    if i == 0 {
      SumThroughNone(tail, totals[0].day);
      assert Amounts(totals)[..1][1..] == [];
    } else {
      assert Increasing(tail);
      SumThroughPrefix(tail, i - 1);
      assert tail[i - 1] == totals[i];
      assert Amounts(totals)[..i + 1][1..] == Amounts(tail)[..i];
    }
  }

  /** An account's history: one row per day it has transactions, by increasing
      day; the Original Balance of a day is the starting balance plus every
      amount the account booked through that day. A target-currency account
      books Amount and its Balance equals its Original Balance; any other
      account books Original Amount, converted at the day's rate when there
      is one. */
  lemma AccountHistorySpec(txns: seq<Transaction>, account: AccountConfig,
                           rateLookup: (Day, string) -> Option<real>, target: string)
    ensures var rows := AccountHistory(txns, account, rateLookup, target);
      var postings := Postings(txns, account, target);
      && (forall i, j :: 0 <= i < j < |rows| ==> rows[i].date < rows[j].date)
      && (forall d :: (exists i :: 0 <= i < |rows| && rows[i].date == d) <==> d in Days(postings))
      && (forall i :: 0 <= i < |rows| ==> rows[i].account == account.name)
      && (forall i :: 0 <= i < |rows| ==>
            rows[i].originalBalance == account.startingBalance + SumThrough(postings, rows[i].date))
      && (forall i :: 0 <= i < |rows| && account.currency == target ==>
            rows[i].balance == Some(rows[i].originalBalance))
      && (forall i :: 0 <= i < |rows| && account.currency != target ==>
            rows[i].balance == BalanceInUsd(rateLookup(rows[i].date, account.currency), rows[i].originalBalance))
  {
    var postings := Postings(txns, account, target);
    var daily := DailySums(postings);
    var rows := AccountHistory(txns, account, rateLookup, target);
    DailySumsSpec(postings);
    CumulativeIsPrefixSum(Amounts(daily), account.startingBalance);
    forall i | 0 <= i < |rows|
      ensures rows[i].originalBalance == account.startingBalance + SumThrough(postings, rows[i].date)
    {
      SumThroughPrefix(daily, i);
    }
    forall d
      ensures (exists i :: 0 <= i < |rows| && rows[i].date == d) <==> d in Days(postings)
    {
      if d in Days(daily) {
        var i :| 0 <= i < |daily| && daily[i].day == d;
        assert rows[i].date == d;
      }
    }
  }

  /** The postings of an account are exactly its transactions, in order,
      in the currency its history is kept in. */
  lemma PostingsOfAccount(txns: seq<Transaction>, account: AccountConfig, target: string)
    ensures Postings(txns, account, target) == [] <==> forall k :: 0 <= k < |txns| ==> txns[k].account != account.name
    ensures forall d :: d in Days(Postings(txns, account, target)) <==>
              exists k :: 0 <= k < |txns| && txns[k].account == account.name && txns[k].date == d
  {
    var f := Posting(account, target);
    var p := Positions(txns, f);
    var postings := Postings(txns, account, target);
    FilterMapEmpty(txns, f);
    forall d | d in Days(postings)
      ensures exists k :: 0 <= k < |txns| && txns[k].account == account.name && txns[k].date == d
    {
      var i :| 0 <= i < |postings| && postings[i].day == d;
      assert f(txns[p[i]]) == Some(postings[i]);
    }
    forall k | 0 <= k < |txns| && txns[k].account == account.name
      ensures txns[k].date in Days(postings)
    {
      assert f(txns[k]).Some?;
      var i := PositionOf(txns, f, k);
      assert postings[i].day == txns[k].date;
    }
  }

  /** A target-currency account never consults the rates. */
  lemma TargetIgnoresRates(txns: seq<Transaction>, account: AccountConfig,
                           rates1: (Day, string) -> Option<real>, rates2: (Day, string) -> Option<real>, target: string)
    requires account.currency == target
    ensures AccountHistory(txns, account, rates1, target) == AccountHistory(txns, account, rates2, target)
  {
  }

  /** No configured account has a transaction. */
  predicate NoTransactions(txns: seq<Transaction>, accounts: seq<AccountConfig>) {
    forall a, k :: 0 <= a < |accounts| && 0 <= k < |txns| ==> txns[k].account != accounts[a].name
  }

  lemma NoTransactionsStep(txns: seq<Transaction>, accounts: seq<AccountConfig>)
    requires accounts != []
    ensures NoTransactions(txns, accounts) <==>
              NoTransactions(txns, accounts[..|accounts| - 1])
              && forall k :: 0 <= k < |txns| ==> txns[k].account != accounts[|accounts| - 1].name
  {
    var init := accounts[..|accounts| - 1];
    if NoTransactions(txns, init) && forall k :: 0 <= k < |txns| ==> txns[k].account != accounts[|accounts| - 1].name {
      forall a, k | 0 <= a < |accounts| && 0 <= k < |txns|
        ensures txns[k].account != accounts[a].name
      {
        if a < |init| {
          assert accounts[a] == init[a];
        }
      }
    }
    if NoTransactions(txns, accounts) {
      forall a, k | 0 <= a < |init| && 0 <= k < |txns|
        ensures txns[k].account != init[a].name
      {
        assert accounts[a] == init[a];
      }
    }
  }

  /** No rows at all exactly when no configured account has a transaction. */
  lemma {:induction false} HistoriesEmpty(txns: seq<Transaction>, accounts: seq<AccountConfig>,
                                          rateLookup: (Day, string) -> Option<real>, target: string)
    ensures Histories(txns, accounts, rateLookup, target) == [] <==> NoTransactions(txns, accounts)
  {
    if accounts != [] {
      HistoriesEmpty(txns, accounts[..|accounts| - 1], rateLookup, target);
      AccountHistoryEmpty(txns, accounts[|accounts| - 1], rateLookup, target);
      HistoriesStep(txns, accounts, rateLookup, target);
      NoTransactionsStep(txns, accounts);
    }
  }

  lemma HistoriesStep(txns: seq<Transaction>, accounts: seq<AccountConfig>,
                      rateLookup: (Day, string) -> Option<real>, target: string)
    requires accounts != []
    ensures Histories(txns, accounts, rateLookup, target) == [] <==>
              Histories(txns, accounts[..|accounts| - 1], rateLookup, target) == []
              && AccountHistory(txns, accounts[|accounts| - 1], rateLookup, target) == []
  {
    var a := Histories(txns, accounts[..|accounts| - 1], rateLookup, target);
    var b := AccountHistory(txns, accounts[|accounts| - 1], rateLookup, target);
    assert |a + b| == |a| + |b|;
  }

  lemma AccountHistoryEmpty(txns: seq<Transaction>, account: AccountConfig,
                            rateLookup: (Day, string) -> Option<real>, target: string)
    ensures AccountHistory(txns, account, rateLookup, target) == [] <==>
              forall k :: 0 <= k < |txns| ==> txns[k].account != account.name
  {
    PostingsOfAccount(txns, account, target);
    DailySumsSpec(Postings(txns, account, target));
  }

  /** The whole history is a RuntimeError exactly when no configured account
      has a transaction; otherwise it holds every account's rows, ordered by
      account name and then by date. */
  lemma BalanceHistorySpec(txns: seq<Transaction>, accounts: seq<AccountConfig>,
                           rateLookup: (Day, string) -> Option<real>, target: string)
    ensures var r := BalanceHistory(txns, accounts, rateLookup, target);
      && (r.Failure? <==> NoTransactions(txns, accounts))
      && (r.Failure? ==> r.error == RuntimeError)
      && (r.Success? ==> multiset(r.value) == multiset(Histories(txns, accounts, rateLookup, target)))
      && (r.Success? ==> SortedBy(r.value, AccountDateLe))
  {
    HistoriesEmpty(txns, accounts, rateLookup, target);
    AccountDateLeTotalPreorder();
    SortBySorted(Histories(txns, accounts, rateLookup, target), AccountDateLe);
  }

  lemma AccountDateLeTotalPreorder()
    ensures TotalPreorder(AccountDateLe)
  {
    forall x: BalanceRow, y: BalanceRow
      ensures AccountDateLe(x, y) || AccountDateLe(y, x)
    {
      StrLeTotal(x.account, y.account);
    }
    forall x: BalanceRow, y: BalanceRow, z: BalanceRow | AccountDateLe(x, y) && AccountDateLe(y, z)
      ensures AccountDateLe(x, z)
    {
      if x.account != y.account && y.account != z.account {
        StrLeTransitive(x.account, y.account, z.account);
        if x.account == z.account {
          StrLeAntisymmetric(x.account, y.account);
        }
      }
    }
  }

  // --------------------------------------------------------------- examples

  /** Two days of a dollar account: Amount is booked, Original Amount ignored. */
  lemma ExampleDollarAccount()
    ensures BalanceHistory([Transaction(0, "Checking", 10.0, 8.0), Transaction(1, "Checking", -5.0, -4.0)],
                           [AccountConfig("Checking", "USD", 100.0)], (d: Day, c: string) => None, "USD")
            == Success([BalanceRow(0, Some(110.0), 110.0, "Checking"), BalanceRow(1, Some(105.0), 105.0, "Checking")])
  {
    var txns := [Transaction(0, "Checking", 10.0, 8.0), Transaction(1, "Checking", -5.0, -4.0)];
    var account := AccountConfig("Checking", "USD", 100.0);
    var postings := [DayAmount(0, 10.0), DayAmount(1, -5.0)];
    ExamplePostings(txns, account, "USD", postings);
    ExampleDaily(postings);
    var rows := [BalanceRow(0, Some(110.0), 110.0, "Checking"), BalanceRow(1, Some(105.0), 105.0, "Checking")];
    assert Cumulative([10.0, -5.0], 100.0) == [110.0, 105.0];
    assert Amounts(postings) == [10.0, -5.0];
    var lookup := (d: Day, c: string) => None;
    assert AccountHistory(txns, account, lookup, "USD") == rows;
    assert [account][..0] == [];
    assert Histories(txns, [account], lookup, "USD") == rows;
    ExampleSortedTwo(rows);
  }

  /** Two days of a pound account: Original Amount is booked, and each day's
      Original Balance is converted at that day's rate. */
  lemma ExamplePoundAccount()
    ensures BalanceHistory([Transaction(0, "Savings", 12.0, 10.0), Transaction(1, "Savings", -6.0, -5.0)],
                           [AccountConfig("Savings", "GBP", 100.0)],
                           (d: Day, c: string) => if c != "GBP" then None else if d == 0 then Some(2.0) else if d == 1 then Some(1.0) else None,
                           "USD")
            == Success([BalanceRow(0, Some(220.0), 110.0, "Savings"), BalanceRow(1, Some(105.0), 105.0, "Savings")])
  {
    var txns := [Transaction(0, "Savings", 12.0, 10.0), Transaction(1, "Savings", -6.0, -5.0)];
    var account := AccountConfig("Savings", "GBP", 100.0);
    var postings := [DayAmount(0, 10.0), DayAmount(1, -5.0)];
    ExamplePostings(txns, account, "USD", postings);
    ExampleDaily(postings);
    var lookup := (d: Day, c: string) => if c != "GBP" then None else if d == 0 then Some(2.0) else if d == 1 then Some(1.0) else None;
    var rows := [BalanceRow(0, Some(220.0), 110.0, "Savings"), BalanceRow(1, Some(105.0), 105.0, "Savings")];
    assert Cumulative([10.0, -5.0], 100.0) == [110.0, 105.0];
    assert Amounts(postings) == [10.0, -5.0];
    assert Round2(110.0 * 2.0) == 220.0 && Round2(105.0 * 1.0) == 105.0;
    assert account.currency != "USD";
    assert lookup(0, "GBP") == Some(2.0) && lookup(1, "GBP") == Some(1.0);
    assert BalanceInUsd(Some(2.0), 110.0) == Some(220.0) && BalanceInUsd(Some(1.0), 105.0) == Some(105.0);
    var history := AccountHistory(txns, account, lookup, "USD");
    assert |history| == 2 && history[0] == rows[0] && history[1] == rows[1];
    assert [account][..0] == [];
    assert Histories(txns, [account], lookup, "USD") == rows;
    ExampleSortedTwo(rows);
  }

  lemma ExamplePostings(txns: seq<Transaction>, account: AccountConfig, target: string, postings: seq<DayAmount>)
    requires |txns| == 2 && txns[0].account == account.name && txns[1].account == account.name
    requires postings == [DayAmount(txns[0].date, if account.currency == target then txns[0].amount else txns[0].originalAmount),
                          DayAmount(txns[1].date, if account.currency == target then txns[1].amount else txns[1].originalAmount)]
    ensures Postings(txns, account, target) == postings
  {
    var f := Posting(account, target);
    assert txns[..1][..0] == [] && txns[..1] == [txns[0]];
    assert f(txns[0]) == Some(postings[0]) && f(txns[1]) == Some(postings[1]);
    assert FilterMap(txns[..1], f) == [postings[0]];
  }

  lemma ExampleDaily(postings: seq<DayAmount>)
    requires |postings| == 2 && postings[0].day < postings[1].day
    ensures DailySums(postings) == postings
  {
    assert postings[..1][..0] == [] && postings[..1] == [postings[0]];
    assert DailySums(postings[..1]) == [postings[0]];
    assert [postings[0]][1..] == [];
    assert DayAmount(postings[1].day, postings[1].amount) == postings[1];
    assert AddAmount([postings[0]], postings[1].day, postings[1].amount) == postings;
  }

  lemma ExampleSortedTwo(rows: seq<BalanceRow>)
    requires |rows| == 2 && rows[0].account == rows[1].account && rows[0].date <= rows[1].date
    ensures SortBy(rows, AccountDateLe) == rows
  {
    assert rows[..1][..0] == [] && rows[..1] == [rows[0]];
    assert SortBy(rows[..1], AccountDateLe) == [rows[0]];
    assert [rows[0]][1..] == [];
    assert AccountDateLe(rows[0], rows[1]);
    assert InsertBy(rows[1], [rows[0]], AccountDateLe) == rows;
  }
}
