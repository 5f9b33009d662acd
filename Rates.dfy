/** `build_usd_rates` and `build_usd_rate_series`: the rate API's per-day quotes
    (units of a currency per US dollar, keyed by the concatenated pair code such
    as "USDGBP") turned into multipliers that take one unit of a currency to US
    dollars. */
module Rates {
  import opened Basics

  /** One entry of the API's `quotes` object: a day and its quotes by pair code. */
  datatype DayQuotes = DayQuotes(day: Day, quotes: map<string, real>)

  /** The `quotes` object, entry by entry in its iteration order. */
  type Quotes = seq<DayQuotes>

  /** A table of multipliers keyed by (day, currency). */
  type RateTable = map<(Day, string), real>

  predicate DistinctDays(quotes: Quotes) {
    forall i, j :: 0 <= i < j < |quotes| ==> quotes[i].day != quotes[j].day
  }

  /** The multiplier for `currency` on a day with the given quotes, if any: 1.0
      for the target currency itself, else the inverse of the pair's quote. A
      missing or zero quote is falsy in the source and yields no multiplier. */
  function Multiplier(daily: map<string, real>, source: string, currency: string, target: string): (m: Option<real>)
    ensures currency == target ==> m == Some(1.0)
    ensures currency != target ==>
              (m.Some? <==> source + currency in daily && daily[source + currency] != 0.0)
    ensures currency != target && m.Some? ==> m.value * daily[source + currency] == 1.0
  {
    if currency == target then Some(1.0)
    else if source + currency in daily && daily[source + currency] != 0.0 then Some(1.0 / daily[source + currency])
    else None
  }

  /** The entries one quoted day contributes for the requested currencies;
      empty currency strings are skipped and repeats rewrite the same value. */
  function DayRates(q: DayQuotes, source: string, currencies: seq<string>, target: string): (r: RateTable)
    ensures forall d, c :: (d, c) in r <==>
              d == q.day && c in currencies && c != "" && Multiplier(q.quotes, source, c, target).Some?
    ensures forall d, c :: (d, c) in r ==> r[(d, c)] == Multiplier(q.quotes, source, c, target).value
  {
    if currencies == [] then map[]
    else
      var c := currencies[|currencies| - 1];
      var m := Multiplier(q.quotes, source, c, target);
      DayRates(q, source, currencies[..|currencies| - 1], target)
        + (if c != "" && m.Some? then map[(q.day, c) := m.value] else map[])
  }

  /** The table `build_usd_rates` fills once the source currency is accepted:
      later days overwrite earlier ones, as assignments into a dict do. */
  function UsdRates(quotes: Quotes, source: string, currencies: seq<string>, target: string): RateTable {
    if quotes == [] then map[]
    else
      UsdRates(quotes[..|quotes| - 1], source, currencies, target)
        + DayRates(quotes[|quotes| - 1], source, currencies, target)
  }

  /** The series `build_usd_rate_series` fills once the source currency is accepted. */
  function UsdRateSeries(quotes: Quotes, source: string, currency: string, target: string): map<Day, real> {
    if quotes == [] then map[]
    else
      var q := quotes[|quotes| - 1];
      var m := Multiplier(q.quotes, source, currency, target);
      UsdRateSeries(quotes[..|quotes| - 1], source, currency, target)
        + (if m.Some? then map[q.day := m.value] else map[])
  }

  /** `build_usd_rates`: refuses a quote table whose source currency is not the
      target; otherwise visits every quoted day and every requested currency. */
  method BuildUsdRates(quotes: Quotes, source: string, currencies: seq<string>, target: string)
    returns (result: Result<RateTable>)
    ensures source != target ==> result == Failure(RuntimeError)
    ensures source == target ==> result == Success(UsdRates(quotes, source, currencies, target))
  {
    if source != target {
      return Failure(RuntimeError);
    }
    var rates: RateTable := map[];
    for i := 0 to |quotes|
      invariant rates == UsdRates(quotes[..i], source, currencies, target)
    {
      rates := AddDay(rates, quotes[i], source, currencies, target);
      assert quotes[..i + 1][..i] == quotes[..i];
    }
    assert quotes[..|quotes|] == quotes;
    return Success(rates);
  }

  /** The inner loop of `build_usd_rates`: the entries of one quoted day. */
  method AddDay(rates: RateTable, q: DayQuotes, source: string, currencies: seq<string>, target: string)
    returns (next: RateTable)
    ensures next == rates + DayRates(q, source, currencies, target)
  {
    next := rates;
    for j := 0 to |currencies|
      invariant next == rates + DayRates(q, source, currencies[..j], target)
    {
      var currency := currencies[j];
      AddDayStep(rates, q, source, currencies, target, j);
      if currency == "" {
        continue;
      }
      var value: real;
      if currency == target {
        value := 1.0;
      } else {
        var key := source + currency;
        if key in q.quotes && q.quotes[key] != 0.0 {
          value := 1.0 / q.quotes[key];
        } else {
          continue;
        }
      }
      assert Multiplier(q.quotes, source, currency, target) == Some(value);
      next := next[(q.day, currency) := value];
    }
    assert currencies[..|currencies|] == currencies;
  }

  /** One requested currency added to what the earlier ones gave a day. */
  lemma AddDayStep(rates: RateTable, q: DayQuotes, source: string, currencies: seq<string>, target: string, j: nat)
    requires j < |currencies|
    ensures var c := currencies[j];
      var m := Multiplier(q.quotes, source, c, target);
      var before := rates + DayRates(q, source, currencies[..j], target);
      rates + DayRates(q, source, currencies[..j + 1], target)
        == if c != "" && m.Some? then before[(q.day, c) := m.value] else before
  {
    var c := currencies[j];
    var m := Multiplier(q.quotes, source, c, target);
    assert currencies[..j + 1][..j] == currencies[..j];
    if c != "" && m.Some? {
      UnionUpdate(rates, DayRates(q, source, currencies[..j], target), (q.day, c), m.value);
    } else {
      assert DayRates(q, source, currencies[..j + 1], target) == DayRates(q, source, currencies[..j], target) + map[];
    }
  }

  /** `build_usd_rate_series`: the one-currency form, keyed by day alone. */
  method BuildUsdRateSeries(quotes: Quotes, source: string, currency: string, target: string)
    returns (result: Result<map<Day, real>>)
    ensures source != target ==> result == Failure(RuntimeError)
    ensures source == target ==> result == Success(UsdRateSeries(quotes, source, currency, target))
  {
    if source != target {
      return Failure(RuntimeError);
    }
    var rates: map<Day, real> := map[];
    for i := 0 to |quotes|
      invariant rates == UsdRateSeries(quotes[..i], source, currency, target)
    {
      var q := quotes[i];
      assert quotes[..i + 1][..i] == quotes[..i];
      if currency == target {
        UnionUpdate(map[], rates, q.day, 1.0);
        rates := rates[q.day := 1.0];
        continue;
      }
      var key := source + currency;
      if key in q.quotes && q.quotes[key] != 0.0 {
        UnionUpdate(map[], rates, q.day, 1.0 / q.quotes[key]);
        rates := rates[q.day := 1.0 / q.quotes[key]];
      } else {
        assert rates + map[] == rates;
      }
    }
    assert quotes[..|quotes|] == quotes;
    return Success(rates);
  }

  /** Every key of the table pairs a quoted day with a requested, non-empty currency. */
  lemma {:induction false} UsdRatesKeys(quotes: Quotes, source: string, currencies: seq<string>, target: string, d: Day, c: string)
    requires (d, c) in UsdRates(quotes, source, currencies, target)
    ensures c in currencies && c != ""
    ensures exists i :: 0 <= i < |quotes| && quotes[i].day == d
  {
    var init := quotes[..|quotes| - 1];
    if (d, c) !in DayRates(quotes[|quotes| - 1], source, currencies, target) {
      UsdRatesKeys(init, source, currencies, target, d, c);
      var i :| 0 <= i < |init| && init[i].day == d;
      assert quotes[i] == init[i];
    }
  }

  /** For a quote table with one entry per day (as a JSON object has), the
      entry for (day i, c): the target currency, when requested, is worth
      exactly 1.0; any other requested currency is present exactly when that
      day's "USD"+c quote is present and non-zero, and is its inverse. */
  lemma {:induction false} UsdRatesEntry(quotes: Quotes, source: string, currencies: seq<string>, target: string, i: nat, c: string)
    requires DistinctDays(quotes) && i < |quotes|
    ensures var r := UsdRates(quotes, source, currencies, target);
      var key := (quotes[i].day, c);
      var daily := quotes[i].quotes;
      && (c == target ==> (key in r <==> c in currencies && c != "") && (key in r ==> r[key] == 1.0))
      && (c != target ==> (key in r <==> c in currencies && c != "" && source + c in daily && daily[source + c] != 0.0))
      && (c != target && key in r ==> r[key] == 1.0 / daily[source + c])
  {
    var n := |quotes| - 1;
    var init := quotes[..n];
    var key := (quotes[i].day, c);
    if i < n {
      assert DistinctDays(init) by {
        forall a, b | 0 <= a < b < |init|
          ensures init[a].day != init[b].day
        {
          assert init[a] == quotes[a] && init[b] == quotes[b];
        }
      }
      UsdRatesEntry(init, source, currencies, target, i, c);
      assert quotes[n].day != quotes[i].day;
      assert key !in DayRates(quotes[n], source, currencies, target);
      assert init[i] == quotes[i];
    } else {
      forall j | 0 <= j < |init|
        ensures init[j].day != quotes[n].day
      {
        assert init[j] == quotes[j];
      }
      UnquotedDayAbsent(init, source, currencies, target, quotes[n].day, c);
    }
  }

  lemma {:induction false} UnquotedDayAbsent(quotes: Quotes, source: string, currencies: seq<string>, target: string, d: Day, c: string)
    requires forall j :: 0 <= j < |quotes| ==> quotes[j].day != d
    ensures (d, c) !in UsdRates(quotes, source, currencies, target)
  {
    if quotes != [] {
      UnquotedDayAbsent(quotes[..|quotes| - 1], source, currencies, target, d, c);
    }
  }

  /** The series for one non-empty currency is that currency's column of the
      table built for just that currency. */
  lemma {:induction false} SeriesIsTableColumn(quotes: Quotes, source: string, currency: string, target: string)
    requires currency != ""
    ensures var table := UsdRates(quotes, source, [currency], target);
      var series := UsdRateSeries(quotes, source, currency, target);
      && (forall d :: d in series <==> (d, currency) in table)
      && (forall d :: d in series ==> series[d] == table[(d, currency)])
  {
    if quotes != [] {
      SeriesIsTableColumn(quotes[..|quotes| - 1], source, currency, target);
    }
  }

  lemma UnionUpdate<K, V>(m: map<K, V>, a: map<K, V>, k: K, v: V)
    ensures m + (a + map[k := v]) == (m + a)[k := v]
  {
  }
}
