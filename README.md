# Expense ledger engine, modelled in Dafny

This project models `DataBase` from `database.py`, a personal expense ledger. The ledger stores dated, categorised expense entries in a `costs` table and monthly spending limits per category in a `costs_limits` table. It aggregates entries by day or by date range, and it warns when a month's total for a category goes over that month's limit.

The model has five modules:

- `Dates` (`dates.dfy`): calendar dates as the DATE columns hold them.
  - Python's `datetime` range, years 1 to 9999.
  - Leap years.
  - Chronological order.
  - Oracle's `TRUNC(d, 'MONTH')` as `FirstOfMonth`.
- `Text` (`text.dfy`): the string operations the normalizers are built from.
  - `re.findall(r'<class>+', s)` as `Runs`, over the classes `\d`, `\w` and `[а-яА-Я0-9]`.
  - `'.'.join`, `str.lower()`, `int()` and `str()` on decimal digits.
  - The zero-padded fields of `strftime`.
- `Normalize` (`normalize.dfy`): the three input normalizers.
  - `__check_date`, including an exact model of `datetime.strptime(t, '%d.%m.%Y')`.
  - `__check_group`.
  - The month-name parsing at the start of `set_limit`, with the month table.
  - Each Python exception they raise becomes a `Failure` of `Result`:
    - `ValueError` becomes `InvalidDate`;
    - `IndexError` becomes `NoWord`, `MissingToken` or `EmptyBatch`;
    - `KeyError` becomes `UnknownMonth`.
- `Aggregate` (`aggregate.dfy`): the table rows and the read-only queries.
  - `SELECT ... SUM ... GROUP BY` is a fold into a map from category to total. `SumWhere` is the reference meaning of each total.
  - The monthly limit rule of `check_limit`.
  - The positional UNION comparison that `check_limit` actually performs (see Findings).
- `Ledger` (`ledger.dfy`): the store.
  - Class `DataBase` holds the two tables as sequences and the identity counter `nextId`.
  - Its methods change those fields the way the transactions of `insert_data`, `insert_tbl_costs`, `del_last_rec` and `set_limit` change the tables.
  - `storageOk` parameters stand for the storage engine's verdict on the statement executed inside the open transaction (database.py:92, 214): a constraint violation or a lost connection there makes it false, and the transaction is then rolled back. Failures before the transaction is opened are not covered by `storageOk` (see "Left out").

## Model

| member | source | states |
|---|---|---|
| Dates.MonthIsClosedRange | database.py:246-252 | a valid date has the same `TRUNC(.., 'MONTH')` as `m` exactly when it lies between the first and the last day of `m`'s month, both inclusive |
| Text.LowerStrIdempotent | database.py:54 | lower-casing twice is lower-casing once |
| Text.LowerStr | database.py:54 | `str.lower()` keeps the length, every character of its result is already lower-case, and a text made only of digits, word characters or month-year characters stays so |
| Text.Runs | database.py:50 | every item `findall` returns is a non-empty run of characters of the class |
| Text.FirstRun | database.py:54 | `findall(...)[0]` exists exactly when the text contains a character of the class, and it is then the first maximal run: nothing of the class before it, and not extendable to the right |
| Text.RunsIgnoreSeparators | database.py:50 | two texts with the same class characters at the same positions give the same runs, whatever the other characters are |
| Text.Join | database.py:50 | `'.'.join(runs)` starts with the first run, puts the separator right after it, and two runs take more than their own length |
| Text.RunsOfJoin | database.py:50 | runs of a class joined by a separator outside the class are exactly the runs of the joined string: `findall` undoes `join` |
| Text.DecimalString | database.py:228 | `str(m)` is a non-empty digit string that `int()` reads back as `m`; one digit below 10, two digits below 100 |
| Text.Pad | database.py:172 | the `strftime` field has exactly the requested width, is all digits, and reads back as the number when the number fits |
| Normalize.ParseDayMonthYear | database.py:51 | `strptime(.., '%d.%m.%Y')` only ever yields a date that `datetime` accepts |
| Normalize.DayFieldValue | database.py:51 | the `%d` pattern accepts exactly the one- or two-digit spellings of 1..31 |
| Normalize.MonthFieldValue | database.py:51 | the `%m` pattern accepts exactly the one- or two-digit spellings of 1..12 |
| Normalize.ParseFields | database.py:51 | three dot-free fields joined by dots parse exactly when they are a day field, a month field and a four-digit year forming a valid date; the result is that date, and otherwise the error is `ValueError` |
| Normalize.CheckDate | database.py:49-51 | a normalized date is always a valid calendar date |
| Normalize.CheckDateSpec | database.py:49-51 | date normalization succeeds exactly when the text holds three digit runs: day and month of at most two digits, a year of four, together forming a valid Gregorian date; it then returns that date |
| Normalize.FormatDate | database.py:172 | `strftime('%d.%m.%Y')` gives ten characters: two digits, a dot, two digits, a dot, four digits |
| Normalize.CheckDateRoundTrip | database.py:49-51 | a date rendered as `dd.mm.yyyy` normalizes back to the same date |
| Normalize.CheckDateIgnoresSeparators | database.py:50 | any non-digit characters may separate the fields: texts that differ only in non-digits normalize alike |
| Normalize.CheckGroup | database.py:53-54 | category normalization fails with `IndexError` exactly when the text has no word character; otherwise it yields a non-empty lower-case word |
| Normalize.CheckGroupSpec | database.py:53-54 | the word returned is the first maximal word run of the text, non-empty and made of word characters, lower-cased |
| Normalize.CheckGroupFixesLowerWord | database.py:53-54 | a single lower-case word normalizes to itself |
| Normalize.CheckGroupIdempotent | database.py:53-54 | normalizing a category twice gives the same result as normalizing it once |
| Normalize.MonthsInRange | database.py:27-32 | every entry of the month table is a month number 1..12 |
| Normalize.FirstOfMonthFields | database.py:228 | the `1` and `str(month)` that `set_limit` writes are an accepted day field and month field with those values |
| Normalize.ParseMonthYear | database.py:226-231 | a parsed month-year is the first day of a valid date whose month is a value of the month table |
| Normalize.ParseFirstOfMonth | database.py:227-231 | `1.<m>.<year>` parses as day 1 of month `m` exactly when the year token is four digits naming a year from 0001 |
| Normalize.ParseMonthYearSpec | database.py:226-231 | month-year text yields day 1 of the named month (any letter case) of the year in the second token; no token or no year token fails with `IndexError`, an unknown month with `KeyError`, a bad year with `ValueError` |
| Aggregate.GroupBy | database.py:158-165 | the query has a result row for a category exactly when some selected row has that category, and its total is the sum of that category's selected amounts |
| Aggregate.SumWhere | database.py:161 | `SUM(col_summ)` for one category: zero when no selected row has the category, and never negative when no amount is |
| Aggregate.DailyTotals | database.py:158-165 | `calc_costs(d)` lists a category exactly when it has an entry dated exactly `d`, with the sum of that category's amounts on `d` |
| Aggregate.RangeTotals | database.py:188-193 | `calc_costs_between(a, b)` lists a category exactly when it has an entry with `a <= date <= b`, both ends inclusive, with that category's sum over the range; with `a > b` the result is empty |
| Aggregate.WholeMonthRange | database.py:246-252 | over valid dates, the range from the first to the last day of a month totals a category exactly as the monthly query of `check_limit` does |
| Aggregate.LimitsFor | database.py:259-264 | the limit lookup returns a value exactly when some limit row for that first day of the month and category carries it, and at most one value per limit row |
| Aggregate.LimitsForLast | database.py:259-264 | the lookup is empty exactly when no limit row matches the month and category; otherwise its last value is the most recently inserted matching limit |
| Aggregate.LimitStatus | database.py:242-284 | a warning always cites a limit stored for that month and category, and the month's total is strictly greater than it |
| Aggregate.MonthHasRow | database.py:246-257 | the monthly sum query has a row exactly when the category has an entry in that calendar month |
| Aggregate.LatestLimitIsLast | database.py:259-264 | the limit in force for a month and category is the last value the lookup returns |
| Aggregate.LimitStatusSpec | database.py:242-284 | `check_limit` warns, citing limit `l`, exactly when the category has an entry in that calendar month, `l` is the limit in force for the month and category, and the month's total is strictly greater than `l` |
| Aggregate.LimitStatusQuiet | database.py:253-282 | no entry in the month, or no limit for it: no warning (the swallowed `TypeError` and `IndexError`) |
| Aggregate.PositionalStatusByOrder | database.py:266-282 | with entries in the month and one limit different from the total, both orders are possible union results. With the limit first (and non-zero) the comparison as written gives exactly the limit rule. With the total first it warns, citing the total, exactly when the total is non-zero and below the limit, so a total over the limit goes unreported |
| Aggregate.PositionalStatusNoEntries | database.py:253-257 | with no entry in the month, the comparison as written and the limit rule both stay silent |
| Aggregate.UnionOfTwo | database.py:266 | the union of a total and one different limit starts with those two values, in either order |
| Aggregate.PositionalStatusMisreports | database.py:266-273 | on the inputs 80 and 150 against a limit of 100, the comparison as written matches the limit rule only when the database returns the limit row first |
| Ledger.NormalizeEntry | database.py:113-117 | a tuple normalizes exactly when its date text and its category text both do; the row then holds the date `__check_date` yields, the lower-case word `__check_group` yields and the amount unchanged; on failure the date's error comes first, and otherwise the error is the category's `IndexError` |
| Ledger.Collect | database.py:112-118 | evaluating a comprehension whose items may raise: all results in order, or the error of the first failing item, every item before it having succeeded |
| Ledger.NormalizeBatch | database.py:111-118 | the batch normalizes tuple by tuple, in order; on success each row is its tuple's normal form, and on failure the error is that of the first malformed tuple |
| Ledger.NormalizeBatchAllOrNothing | database.py:111-119 | a batch is accepted exactly when every one of its tuples normalizes |
| Ledger.Stamp | database.py:60-61 | the inserted rows receive consecutive identity values starting from the counter, each keeping its date, category and amount |
| Ledger.MaxId | database.py:210 | `MAX(id)` is the identity of some row and no row's identity is larger |
| Ledger.WithoutId | database.py:211-213 | deleting by identity keeps exactly the rows with any other identity |
| Ledger.DeleteMaxIsDropLast | database.py:207-214 | with identities increasing in storage order, the row with the largest identity is the last one, and deleting it drops exactly that row |
| Ledger.AppendStamped | database.py:90-92 | appending freshly stamped rows keeps identities strictly increasing, below the new counter, and every date valid |
| Ledger.NormalizeLimit | database.py:224-232 | a limit normalizes exactly when its month-year text and its category text both do; the row then holds the first day of the month the text names, the lower-case word `__check_group` yields and the limit unchanged; on failure the month-year's error comes first, and otherwise the error is the category's `IndexError` |
| Ledger.MarchTokens | database.py:226 | the month-year tokens of `март 2024` are `март` and `2024` |
| Ledger.YearToken | database.py:229-231 | `2024` is a four-digit year field whose value is 2024 |
| Ledger.MarchIsParsed | database.py:226-231 | `март 2024` names 1 March 2024 |
| Ledger.FoodIsNormal | database.py:53-54 | the category `food` normalizes to itself |
| Ledger.MarchLimitRow | database.py:224-232 | a limit of 100 for food given for `март 2024` becomes the row (1 March 2024, `food`, 100) |
| Ledger.DataBase.constructor | database.py:56-76 | a first run on an empty schema: `create_all` creates both tables empty and the identity starts at 1 |
| Ledger.DataBase.CheckLimit | database.py:242-284 | reads the tables only and reports what the limit rule gives for the month and category |
| Ledger.DataBase.CheckRows | database.py:104-106 | reads the tables only and returns one limit-rule result per row, in order |
| Ledger.DataBase.InsertCosts | database.py:85-108 | the batch goes in as one transaction: on commit exactly the stamped rows are appended and the counter moves past them; on rollback nothing changes; the limits are untouched; when checking is on, the limit is checked once per row, in order, against the table as it then stands |
| Ledger.DataBase.InsertTblCosts | database.py:110-119 | an empty batch fails with `IndexError`; a malformed tuple fails with its error and inserts nothing; otherwise the normalized batch is inserted and checked as by `InsertCosts` |
| Ledger.DataBase.InsertTblCost | database.py:120-128 | a single tuple is a batch of one: it is rejected with its normalization error, or committed exactly when storage succeeds, appended with the next identity and checked once |
| Ledger.DataBase.DelLastRec | database.py:207-222 | on a non-empty table, when storage succeeds, exactly the row with the largest identity is removed and every other row stays; otherwise nothing changes; identities are not reused and limits are untouched |
| Ledger.DataBase.InsertLimit | database.py:233-240 | one limit row is appended unless the identical triple exists (unique constraint) or storage fails; entries are untouched and no check runs |
| Ledger.DataBase.SetLimit | database.py:224-240 | month-year and category are normalized first, and a failure inserts nothing; then exactly one limit row (the first of the month) is inserted as by `InsertLimit`, with no limit check |
| Ledger.DataBase.CalcCosts | database.py:151-178 | fails exactly when the date text does not normalize; otherwise returns the per-category totals of that day |
| Ledger.DataBase.CalcCostsBetween | database.py:180-205 | fails exactly when either bound does not normalize; otherwise returns the per-category totals over the closed range |

## Left out

- Engine, connection and metadata setup, `create_all`, `__drop_tables`, `MetaData.reflect` and the `__main__` bootstrap (database.py:34-47, 56-83, 287-289) are driver plumbing. The tables are in-memory sequences.
- `select_data` is not modelled: it reads whole tables or a projection chosen by a regex over the driver's column names, and it changes nothing. The tables are fields of `DataBase`.
- Printed messages (errors, the "last record deleted" notice, the overage warning) are not modelled. The model returns results instead: a `LimitCheck` per checked row, and a count of deleted rows.
- The display formatting `f'{x:,g}'.replace(',', ' ')` and the date column of `calc_costs` results are not modelled. Sums are returned raw, as a map from category to total. `FormatDate` models only the `strftime('%d.%m.%Y')` rendering.
- Amounts and limits are `real`. Floating-point rounding of SQL sums is not modelled.
- Row order of query results is not modelled: SQL leaves it unspecified, so totals are maps.
- Storage failures are the `storageOk` parameters, and they cover only the statement executed inside the open transaction. The read-only queries are modelled as always reaching the storage.
- Ledger.DataBase.InsertCosts, Ledger.DataBase.InsertLimit: a failure before the transaction is opened is not modelled. An example is a lost connection in `reflect()` or an unknown table name (database.py:87-88). The source then fails in its handler or its `finally` clause, because `transaction` is unbound (database.py:94, 99). The exception escapes, nothing is inserted, and no limit check runs.
- Whether a rolled-back insert consumes identity values is engine-specific. The model keeps the counter unchanged on rollback.
- Text.IsWordChar, Text.IsDigit, Text.Lower: Python's Unicode `\w`, `\d` and `str.lower()` are restricted to ASCII letters and digits, `_`, and the Russian alphabet including `ё`. Other scripts are not modelled.
- Normalize.DayField: the `%d` alternative for a space-padded day is left out. The strings `strptime` receives here contain no spaces. They are digits and dots from `__check_date`, and `1.<month>.` plus one `[а-яА-Я0-9]+` token from `set_limit`.
- Text.Pad, Normalize.FormatDate, Normalize.CheckDateRoundTrip: `strftime('%Y')` is modelled as four zero-padded digits. CPython hands `%Y` to the C library, and on glibc some CPython releases print years below 1000 without padding. On such platforms the width and the round trip hold only for years from 1000.
- Ledger.DataBase.InsertTblCosts, Ledger.DataBase.InsertTblCost: the source tells a batch from a single tuple by `isinstance(value[0], list)`. The model has two entry points instead. A batch given as a list of tuples fails in the source with a `TypeError`, and that is not modelled.
- Ledger.DataBase.CalcCosts, Ledger.DataBase.CalcCostsBetween: with an unparsable date the source raises `UnboundLocalError` from its `finally` clause, because the transaction was never opened (database.py:155-157 with 177-178, and 184-187 with 204-205). The model reports `InvalidDate`.
- Aggregate.LimitStatus models the intended rule. When several different limits match one month and category, the most recently inserted one is taken to be in force; the source leaves this case undefined.
- Limit checks run once per inserted row rather than once per distinct month and category. They also run after a rolled-back insert, because `transaction.is_active` is false after `close()` either way. The model follows the code here: `InsertCosts` checks whatever the storage outcome.

## Findings

| source | as written | input that shows it | evidently intended | confidence | as-written member | corrected member |
|---|---|---|---|---|---|---|
| database.py:266-273 | The month total and the limits are merged with a UNION, whose row order SQL does not fix. The code then warns when the second row is larger than the first, and cites the first. | A limit of 100 for "food" in March 2024. With one entry of 80 and the rows in ascending order, it warns, citing 80. With one entry of 150 and the total first, it stays silent. | Warn, citing the limit, exactly when the month's total is greater than the limit. | medium (not executed; the outcome depends on the row order the database returns) | Aggregate.PositionalStatusMisreports | Aggregate.LimitStatusSpec |
