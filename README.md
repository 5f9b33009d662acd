# Revolut transaction converter, modelled in Dafny

A model of the data logic in `revolut_transaction_converter`, with proofs about it. This is the batch tool that turns Revolut checking and savings exports into import records in US dollars. It also derives daily balance histories per account.

The modelled parts are:

- **Rates**: `build_usd_rates` and `build_usd_rate_series`. They turn the rate API's per-day quotes into multipliers to US dollars.
- **Money**: `parse_money_amount`. It cleans a currency-formatted cell and reads it as a decimal.
- **Records**: `monarch_row`, the fixed-shape import record, and Python's `round(x, 2)`.
- **RunContext**: `get_latest_dated_folder`, and the override check of `get_run_date`.
- **PriorBalance**: the selection logic of `get_latest_balance_history_value`. It picks the latest dated history file before the run date, takes the account's rows ordered by Date, and reads the last non-blank value.
- **Balances**: `build_balance_history`. It computes a running daily balance per account, converts foreign-currency accounts day by day, and sorts the result by account and date.
- **CheckingConverter** and **SavingsConverter**: the row pipelines of the two converters' `main`. Checking filters rows, looks up a rate per row and aborts when one is missing. Savings computes money in minus money out, looks up a rate per row and skips rows without one.

Modelling choices:

- Calendar days are integers. The date parsers (`strptime`, `pd.to_datetime`) are parameters of type `string -> Option<Day>`.
- Amounts are exact `real`s, and `round(x, 2)` is round-half-even on the exact value.
- The API's quotes, the directory listings, the CSV contents and the rate lookup are inputs.
- A pandas boolean mask followed by `dropna` is `Sequences.FilterMap`. `Sequences.Positions` records where each selected row came from.
- `sort_values` is a stable insertion sort, `Sequences.SortBy`.

Where the code loops and appends, the model has a method with a loop. Each such method is proved equal to a specification function, and the lemmas state the properties of that function.

## Model

| member | source | states |
|---|---|---|
| Records.Converted | revolut_utils.py:234-251 | the record holds the date and account given; the description is both merchant and original statement; category, notes and tags are empty; the original amount is kept; the amount is the product rounded to a whole cent |
| Records.Round2 | checking_transaction_converter.py:51 | `round(x, 2)` gives a whole number of cents within half a cent of x, and leaves a value that is already in cents unchanged |
| Money.ParseMoneyAmount | revolut_utils.py:223-231 | None and NaN read as 0; text that is empty after removing the symbol and commas and stripping reads as 0; otherwise the decimal value of the cleaned text, or ValueError |
| Money.CleanIdempotent | revolut_utils.py:228 | for a one-character symbol, cleaning already cleaned text changes nothing |
| Money.CleanHasNoSeparator | revolut_utils.py:228 | no comma survives cleaning |
| Money.StripShape | revolut_utils.py:228 | what `strip()` keeps is a slice of its argument with only whitespace before and after it; it neither starts nor ends with whitespace, and it keeps only characters of its argument |
| Money.ParseCleaned | revolut_utils.py:223-231 | for a one-character symbol, reading a cell that was cleaned beforehand gives the same result |
| Money.NumeralValue | revolut_utils.py:231 | the digits of a printed whole number read back as that number |
| Money.PaddedValue | revolut_utils.py:231 | `k` zero-padded fraction digits of `f` read back as `f`, when `f < 10^k` |
| Money.DotAfterDigits | revolut_utils.py:231 | in digits, a '.' and more text, the first '.' is the one after the digits |
| Money.ParseUnsignedPoint | revolut_utils.py:231 | digits, a '.' and digits, with at least one digit, read as the whole part plus the fraction part over 10 to the number of fraction digits |
| Money.ParseUnsignedWhole | revolut_utils.py:231 | a nonempty run of digits reads as its number |
| Money.ParseDecimalNegative | revolut_utils.py:231 | `float("-" + t)` is the negation of what `t` reads as, and fails exactly when `t` fails |
| Money.ParseDecimalPositive | revolut_utils.py:231 | a leading '+' changes nothing, and text that starts with a digit reads as its unsigned reading |
| Money.DecimalRoundTrip | revolut_utils.py:231 | the printed decimal `n.f` with `k` fraction digits reads back as `n + f/10^k`, also after a '+', and as its negation after a '-' |
| Money.WholeRoundTrip | revolut_utils.py:231 | a printed whole number reads back as itself, also after a '+', and as its negation after a '-' |
| Money.ParseDecimalRejects | revolut_utils.py:231 | text holding a character other than a digit, a '.' or a leading sign is a ValueError |
| Money.ExampleBlankAmount | revolut_utils.py:228-230 | a cell " £ " reads as 0 |
| Money.ExampleThousands | revolut_utils.py:228-231 | a cell "£1,234.50" reads as 1234.5 |
| Rates.Multiplier | revolut_utils.py:189-195 | the target currency gets 1.0; another currency gets a multiplier exactly when its quote is present and non-zero, and that multiplier times the quote is 1 |
| Rates.DayRates | revolut_utils.py:188-195 | one day's entries: (d, c) is a key exactly when d is that day, c is a requested non-empty currency and c has a multiplier; the value is that multiplier |
| Rates.BuildUsdRates | revolut_utils.py:173-197 | a source currency other than the target is a RuntimeError; otherwise the table is the one `UsdRates` defines |
| Rates.AddDay | revolut_utils.py:188-195 | the inner loop adds exactly that day's entries to the table |
| Rates.BuildUsdRateSeries | revolut_utils.py:200-220 | a source currency other than the target is a RuntimeError; otherwise the series is the one `UsdRateSeries` defines |
| Rates.UsdRatesKeys | revolut_utils.py:184-195 | every key pairs a quoted day with a requested, non-empty currency |
| Rates.UsdRatesEntry | revolut_utils.py:184-195 | with one quote entry per day, and for the target currency: present exactly when requested and non-empty, with value 1.0; for other currencies: present exactly when requested, non-empty and quoted non-zero, with value the inverse of the quote |
| Rates.UnquotedDayAbsent | revolut_utils.py:187-197 | a day with no quote entry has no key |
| Rates.SeriesIsTableColumn | revolut_utils.py:200-220 | the series for a non-empty currency is that currency's column of the table built for it alone: same days, same values |
| RunContext.LatestIndex | revolut_utils.py:55 | `max(..., key=date)` picks a candidate whose date no other exceeds, and every earlier candidate is strictly earlier, so ties go to the first |
| RunContext.LatestSelected | revolut_utils.py:42-55 | the candidate picked after a selection comes from a selected element; no selected element has a later date, and every selected element before it has an earlier one |
| RunContext.LatestFolderIsLatest | revolut_utils.py:38-55 | NotFound exactly when the root is missing or has no sub-directory whose name parses; otherwise the name of the first sub-directory with the latest parsed date |
| RunContext.LatestDatedFolder | revolut_utils.py:38-55 | the loop over the listing returns what `LatestFolder` specifies |
| RunContext.ResolveRunDate | revolut_utils.py:58-71 | a non-empty override that parses is returned unchanged; one that does not parse is a ConfigError; with no override (or an empty one) the latest dated input folder is returned |
| RunContext.ExampleLatestFolder | tests/test_revolut_utils.py:19-25 | of the folders "2024-01-01", "2024-03-01" and "notes", "2024-03-01" is picked |
| PriorBalance.RowDateLeTotalPreorder | revolut_utils.py:125-126 | ordering history rows by Date text, with blanks last, is a total preorder |
| PriorBalance.AccountRows | revolut_utils.py:119-124 | with no account named, all rows are used; naming an account when the Account column is missing is a ConfigError; every failure is a ConfigError |
| PriorBalance.AccountRowsSelect | revolut_utils.py:119-124 | for a named account, the rows read are exactly that account's rows; when the file has none of them the result is a ConfigError |
| PriorBalance.LastValue | revolut_utils.py:119-132 | a missing Account column (when an account is named) or a missing value column is a ConfigError; every failure is a ConfigError |
| PriorBalance.LastValueIsLatest | revolut_utils.py:125-132 | the rows read are a permutation of the account's rows, sorted by Date when the file has that column; the value is the last non-blank value of the column in that order |
| PriorBalance.FindLatestBalanceValue | revolut_utils.py:95-132 | the loop over the glob's matches returns what `LatestBalanceValue` specifies |
| PriorBalance.EligibleFileSelects | revolut_utils.py:103-113 | the two filters, dated files and then files before the run date, are one filter over the matches |
| PriorBalance.LatestBalanceNone | revolut_utils.py:105-116 | with a malformed run date: None exactly when no dated file exists, and a ConfigError otherwise; with a well-formed or absent run date: None exactly when no file is eligible |
| PriorBalance.NothingEligible | revolut_utils.py:105-116 | with a well-formed or absent run date, the result is None exactly when no match is a regular file in a dated folder before the run date |
| PriorBalance.LatestBalanceViaFilter | revolut_utils.py:113-117 | when some file is eligible, the value comes from the candidate `LatestIndex` picks among the eligible files |
| PriorBalance.LatestEligible | revolut_utils.py:113-117 | that candidate is an eligible match; no eligible match has a later folder date, and every eligible match before it has an earlier one |
| PriorBalance.LatestBalanceFromLatestFile | revolut_utils.py:95-132 | when some file is eligible, there is an eligible match with the latest folder date, the first such, and the result is what its file yields |
| PriorBalance.ExampleAccountSpecific | tests/test_revolut_utils.py:39-78 | with histories dated 2024-01-01 and 2024-02-01, a run on 2024-03-01 reads 120 for Checking, and a run on 2024-02-01 reads 110 |
| PriorBalance.ExampleMissingAccount | tests/test_revolut_utils.py:81-98 | with one run on 2024-01-01 whose history holds only a Checking row, asking for the Savings balance before 2024-02-01 is a ConfigError |
| Balances.AddAmountSumThrough | revolut_utils.py:293-295 | adding an amount to the daily totals adds it to the total through every later or equal day |
| Balances.AddAmountDays | revolut_utils.py:293-295 | adding an amount adds its day to the set of days, and no other day |
| Balances.AddAmountIncreasing | revolut_utils.py:293-297 | adding an amount keeps the totals in strictly increasing day order |
| Balances.DailySumsSpec | revolut_utils.py:293-297 | `groupby("Date").sum().sort_values("Date")`: one total per day with postings, in strictly increasing day order, with the same sum through every day as the postings; empty exactly when there are no postings |
| Balances.CumulativeIsPrefixSum | revolut_utils.py:298 | `cumsum() + start`: entry i is the start plus the sum of the first i + 1 amounts |
| Balances.SumThroughPrefix | revolut_utils.py:298 | on increasing days, the sum through day i equals the sum of the first i + 1 daily totals |
| Balances.AccountHistorySpec | revolut_utils.py:287-323 | one row per day the account has transactions, in strictly increasing date order, each tagged with the account; Original Balance is the start plus everything booked through that day; Balance equals it for a target-currency account, and otherwise is the rounded product with that day's rate, or missing without one |
| Balances.PostingsOfAccount | revolut_utils.py:288-290 | an account has no postings exactly when no transaction names it; its posting days are exactly the days of its transactions |
| Balances.TargetIgnoresRates | revolut_utils.py:292-299 | a target-currency account's history does not depend on the rate lookup |
| Balances.AccountHistoryEmpty | revolut_utils.py:288-290 | an account contributes no rows exactly when no transaction names it |
| Balances.HistoriesEmpty | revolut_utils.py:287-290 | there are no rows at all exactly when no configured account has a transaction |
| Balances.BuildBalanceHistory | revolut_utils.py:279-331 | the loop over the accounts returns what `BalanceHistory` specifies |
| Balances.BalanceHistorySpec | revolut_utils.py:325-329 | RuntimeError exactly when no configured account has a transaction; otherwise a permutation of all accounts' rows, sorted by account and then by date |
| Balances.AccountDateLeTotalPreorder | revolut_utils.py:329 | ordering by (account, date) is a total preorder |
| Balances.ExampleDollarAccount | tests/test_revolut_utils.py:101-118 | a dollar account with 10 and -5 from 100, and no rates, gives Balance and Original Balance 110 then 105 |
| Balances.ExamplePoundAccount | tests/test_revolut_utils.py:121-141 | a pound account with 10 and -5 from 100, at rates 2 and 1, gives Original Balance 110 then 105 and Balance 220 then 105 |
| Sequences.Positions | checking_transaction_converter.py:26-29 | a filtered frame is exactly the accepted rows, each once, at strictly increasing positions |
| Sequences.FilterMapEmpty | revolut_utils.py:289 | a filter gives an empty frame exactly when it accepts no row |
| Sequences.FilterMapThen | revolut_utils.py:113 | filtering twice is filtering once with the combined test |
| Sequences.FilterMapLast | revolut_utils.py:129-132 | the last value kept comes from an accepted element, and no later element is accepted |
| Sequences.SortBySorted | revolut_utils.py:329 | for a total preorder, the sort's output is ordered and is a permutation of its input |
| Sequences.StrLeTotal | revolut_utils.py:126 | any two strings are comparable in Python's string order |
| Sequences.StrLeTransitive | revolut_utils.py:126 | Python's string order is transitive |
| Sequences.StrLeAntisymmetric | revolut_utils.py:329 | two strings ordered both ways are equal |
| CheckingConverter.RecordsOf | checking_transaction_converter.py:40-60 | when every row has a rate: one record per row, in order, each converted at that row's day and currency |
| CheckingConverter.ConvertChecking | checking_transaction_converter.py:25-60 | the converter's `main` returns what `CheckingExport` specifies |
| CheckingConverter.SurvivorsAreFiltered | checking_transaction_converter.py:26-30 | the surviving rows are exactly the COMPLETED or PENDING rows whose Started Date parses, in input order; they carry the parsed day, the description, the amount and the currency |
| CheckingConverter.CurrenciesCover | checking_transaction_converter.py:32 | every currency a surviving row names is among those the rate table is built for |
| CheckingConverter.CheckingRecords | checking_transaction_converter.py:40-60 | on success the rates are quoted from US dollars, and there is one record per surviving row, in order, each converted at its day's rate for its currency |
| CheckingConverter.CheckingMissingRate | checking_transaction_converter.py:47-49 | the run fails with ValueError exactly when some surviving row has no currency, or no rate for its day and currency |
| CheckingConverter.CheckingRateAvailable | checking_transaction_converter.py:38-47 | with one quote entry per day, a dollar row has a rate of 1.0, and a row in another currency has a rate exactly when its day's "USD" + currency quote is non-zero; that rate is the quote's inverse |
| SavingsConverter.RowAmount | savings_transaction_converter.py:31-33 | a row's amount is Money in minus Money out, each read with "£"; it is a ValueError exactly when either cell does not read |
| SavingsConverter.Amounts | savings_transaction_converter.py:31-33 | a ValueError exactly when some row's cells do not read; otherwise one amount per row, in order |
| SavingsConverter.EmitRecords | savings_transaction_converter.py:42-62 | the loop emits what the selection `Emit` gives: rows without a pound rate are skipped, and the others give their records in order |
| SavingsConverter.ConvertSavings | savings_transaction_converter.py:20-68 | the converter's `main` returns what `SavingsExport` specifies; on success the reported count is the number of records |
| SavingsConverter.EmittedRecords | savings_transaction_converter.py:42-62 | the records are, in order, those of the rows that have a pound rate, each once and converted at that rate; every such row appears |
| SavingsConverter.SavingsSucceeds | savings_transaction_converter.py:28-40 | on success the rates are quoted from US dollars, some row is dated, every dated row's cells read, and the records are those emitted for the dated rows' amounts |
| SavingsConverter.DatedRecordAt | savings_transaction_converter.py:31-62 | the k-th record comes from a dated row with a pound rate; it has that row's day and description, and Money in minus Money out converted at that rate |
| SavingsConverter.DatedRowsAreFiltered | savings_transaction_converter.py:28-29 | the dated rows are exactly the rows whose Date parses, in order, carrying the parsed day |
| SavingsConverter.PoundRate | savings_transaction_converter.py:40-48 | with one quote entry per day, a day has a pound rate exactly when its "USDGBP" quote is present and non-zero, and the rate is the inverse of that quote |

## Left out

- The HTTP fetch of quotes (`fetch_timeframe_quotes`), the API key and URL lookups, and `.env` loading are left out; they are network and environment access. The quotes are an input (`Rates.Quotes`), in the JSON object's iteration order.
- File-system access is replaced by inputs: `input_path`, `output_dir`, directory listings, globbing, and CSV reading and writing. `is_dir` and `is_file` are fields of the inputs.
- `load_monarch_transactions` is not part of this model; it is file loading. So is the round trip from the written import CSV back to the balance builder's transactions.
- `generate_checking_balance_history.py` and `generate_savings_balance_history.py` are not part of this model; they are orchestration. Their rate lookups are the `rateLookup` parameter of `Balances.BalanceHistory`.
- Date parsing (`strptime`, `pd.to_datetime`, `.dt.date`) is a parameter. Date formatting (`isoformat`, `strftime`) is not modelled: records and balance rows carry the day.
- Amounts are exact reals. IEEE float rounding error is not modelled.
- Money.ParseDecimal: `float()` also accepts exponents, `inf`, `nan`, underscores and surrounding whitespace forms. The model reads plain decimal numerals with an optional sign, and treats every other text as a ValueError. A numeric (non-text) cell is modelled by its text.
- Records.Round2: rounds the exact value half-to-even. Python rounds the binary float, which can differ on values such as 2.675.
- Sequences.SortBy: pandas `sort_values` on one column is not stable, but the model sorts stably. The order of rows with equal keys is therefore one admissible order, not necessarily pandas' own.
- `build_usd_rates` sorts and de-duplicates the currencies before its loop. The model iterates the list as given, which gives the same table because every key is written with the same value. For the same reason, `Currencies` is not de-duplicated.
- PriorBalance: `account_column` is fixed to its default, "Account". Comparing the Account cell with the account name is exact string equality on a present cell.
- PriorBalance: History Date cells are compared as text in code-point order, which is what `read_csv` without date parsing gives. `float(series.iloc[-1])` is the real value of the cell.
- Balances: A transaction with a missing date (NaT), which `groupby` drops, is not modelled: every transaction has a day. `groupby` sorts by date, and the model keeps the totals in increasing day order.
- Warnings printed for skipped rows or missing rates, and the export-count message, are left out. The savings count is the `exported` out-parameter.
- An empty selection in either converter makes `df["Date"].min()` NaN, and the fetch then fails on `isoformat()`. The model reports this crash as `EmptyDateRange`. The savings converter reads money cells before this point, so there a ValueError from a bad cell comes first.
- `get_latest_balance_history_value` raises the malformed-run-date ConfigError only once some dated file exists (revolut_utils.py:105-112). With no dated file it returns None for any run date.
- `build_usd_rates` gives the target currency the rate 1.0 only when that currency is among the requested currencies (revolut_utils.py:184-190). A day's table holds no other entries.
- CheckingConverter: the checking converter applies the state filter (checking_transaction_converter.py:26) before it parses Started Date (checking_transaction_converter.py:28-29). The `parse` parameter stands for the parser that pandas settles on for the state-filtered column. `pd.to_datetime` without `format=` infers one format from the first non-null value. The model does not capture that format inference, so it does not capture that the result can depend on which row comes first.
