/** The canonical import record every converter emits, and the two-decimal
    rounding applied to converted amounts. */
module Records {
  import opened Basics

  /** One row of a `*_transaction_import.csv` file. */
  datatype TransactionRecord = TransactionRecord(
    date: Day,
    merchant: string,
    category: string,
    account: string,
    originalStatement: string,
    notes: string,
    amount: real,          // in US dollars
    originalAmount: real,  // in the account's own currency
    tags: string)

  /** The fixed-shape record of `monarch_row`: the description fills both the
      merchant and the original statement; category, notes and tags are empty. */
  function MonarchRow(date: Day, description: string, account: string, amountUsd: real, amountOriginal: real): TransactionRecord {
    TransactionRecord(date, description, "", account, description, "", amountUsd, amountOriginal, "")
  }

  /** The record of a transaction converted to US dollars at `rate`: the
      converted amount is rounded to the cent, the original amount is kept. */
  function Converted(date: Day, description: string, account: string, amount: real, rate: real): (r: TransactionRecord)
    ensures r.date == date && r.account == account
    ensures r.merchant == description && r.originalStatement == description
    ensures r.category == "" && r.notes == "" && r.tags == ""
    ensures r.originalAmount == amount
    ensures r.amount == Round2(amount * rate) && IsCents(r.amount)
  {
    MonarchRow(date, description, account, Round2(amount * rate), amount)
  }

  /** A whole number of cents. */
  predicate IsCents(x: real) {
    (x * 100.0).Floor as real == x * 100.0
  }

  /** Python's `round(x, 2)` on the exact value: to the nearest cent, ties to
      the even cent. */
  function Round2(x: real): (r: real)
    ensures IsCents(r)
    ensures -0.005 <= r - x <= 0.005
    ensures IsCents(x) ==> r == x
  {
    var y := x * 100.0;
    var n := y.Floor;
    var frac := y - n as real;
    var m := if frac > 0.5 then n + 1
             else if frac < 0.5 then n
             else if n % 2 == 0 then n else n + 1;
    assert (m as real / 100.0) * 100.0 == m as real;
    m as real / 100.0
  }
}
