# Finance tracker ledger and period report, in Dafny

This project models the logic inside a small Swing personal-finance form
(`FinanceTrackerApp.java`). The logic has four parts:

- **The transaction record and its store** (`TransactionStorage`). The store is an
  in-memory list. `addTransaction` appends to it. `getTransactionsForPeriod(start, end)`
  returns the stored transactions dated in the inclusive range `[start, end]`,
  stably sorted ascending by date.
- **The manual-entry conventions** (`submitTransaction`). A Debit is stored as
  `-|amount|` and a Credit as `|amount|`. An empty description is stored as
  `"(No description)"`.
- **Period resolution** (the `switch` in `generateReport`). It maps `"Daily"`,
  `"Weekly"`, `"Monthly"` or `"Yearly"` and the current date to an inclusive range:
  the day itself; Monday to Sunday of its week; the first to the last day of its
  month; or January 1 to December 31 of its year.
- **Aggregation** (the loop in `generateReport`). Positive amounts are summed into
  the total credits and all other amounts into the total debits. The net balance
  is their sum. The report also shows how many transactions are in the range.

Modules:

- `Calendar` (`calendar.dfy`) models the `java.time.LocalDate` behaviour the code
  relies on. Dates are proleptic Gregorian (year, month, day) triples. It has the
  leap-year rule, month lengths, the `compareTo` order, the day count since
  1970-01-01, the ISO day of the week (1 = Monday .. 7 = Sunday), stepping by days,
  and the two adjusters `previousOrSame` and `nextOrSame`.
- `Ledger` (`ledger.dfy`) holds `Transaction` and the `TransactionStorage` class.
  The class has a `seq<Transaction>` field, an appending method, and the period
  query as a function of that field. The query is specified independently of its
  insertion sort: it is sorted by date, and for each date in the range it lists
  that date's stored transactions in insertion order. A lemma shows only one
  sequence meets that specification.
- `Entry` (`entry.dfy`) holds the sign and description normalisation and the
  submit step that appends the normalised transaction.
- `Report` (`report.dfy`) holds the period resolver, the aggregation loop as a
  method proved against recursive sum functions, and the report generator.
- `Scenarios` (`scenario.dfy`) holds two client methods and three lemmas. One method
  is a March report over two March entries and one April entry; the other is a
  report over an empty store. The lemmas `MarchRange`, `MarchQuery` and
  `MarchTotals` state the March report's range, query result and totals.

Amounts are integers (cents), not `double`. The current date is a parameter.
`Kind` (Credit | Debit) replaces the type string. The form only ever produces
those two strings: the Credit radio button gives "Credit", anything else gives
"Debit".

Three behaviours of the code worth naming:

- An unrecognised period name leaves the range at the current date, because the
  `switch` at FinanceTrackerApp.java:508-524 has no `default` branch.
- Transactions with equal dates keep their insertion order, because `Stream.sorted`
  is stable on an ordered stream.
- A zero amount is added to the debits, as the `else` branch at
  FinanceTrackerApp.java:536-538 does.

## Model

| member | source | states |
|---|---|---|
| `Calendar.Date` | FinanceTrackerApp.java:85 | a `LocalDate` value, held as year, month and day |
| `Calendar.ValidDate` | FinanceTrackerApp.java:85 | only real days exist as a `LocalDate`: month 1 to 12, day 1 to the month's length |
| `Calendar.IsLeapYear` | FinanceTrackerApp.java:518 | the Gregorian rule `lastDayOfMonth()` follows: divisible by 4, except centuries not divisible by 400 |
| `Calendar.EpochDay` | FinanceTrackerApp.java:513-514 | `LocalDate.toEpochDay`, the day count `minusDays`, `plusDays` and the day of the week are computed from; 1970-01-01 is day 0 |
| `Calendar.DaysInMonth` | FinanceTrackerApp.java:518 | a month has 28 to 31 days; February has 29 exactly in a leap year |
| `Calendar.IsBefore` | FinanceTrackerApp.java:146-147 | `LocalDate.isBefore` and `compareTo`: strictly earlier, comparing year, then month, then day |
| `Calendar.IsAfter` | FinanceTrackerApp.java:146 | `LocalDate.isAfter`: strictly later, the converse of `IsBefore` |
| `Calendar.EpochAnchor` | FinanceTrackerApp.java:513-514 | 1970-01-01 is day 0 and a Thursday (ISO day 4), the anchor java.time uses |
| `Calendar.DayOfWeek` | FinanceTrackerApp.java:513-514 | the ISO day of the week is in 1..7 |
| `Calendar.EpochDayOrder` | FinanceTrackerApp.java:146-147 | for valid dates, the field-by-field `compareTo` order matches the order of day counts |
| `Calendar.EpochDayInjective` | FinanceTrackerApp.java:147 | two valid dates have the same day count exactly when they are equal |
| `Calendar.NextDay` | FinanceTrackerApp.java:514 | the next day is a valid date whose day count is one more (month and year roll-over, leap years) |
| `Calendar.PrevDay` | FinanceTrackerApp.java:513 | the previous day is a valid date whose day count is one less |
| `Calendar.PlusDays` | FinanceTrackerApp.java:514 | adding n days gives a valid date exactly n days later |
| `Calendar.MinusDays` | FinanceTrackerApp.java:513 | subtracting n days gives a valid date exactly n days earlier |
| `Calendar.NextDayOfWeek` | FinanceTrackerApp.java:513-514 | the day after a Sunday is a Monday; otherwise the day of the week goes up by one |
| `Calendar.DayOfWeekAfter` | FinanceTrackerApp.java:513-514 | dates k days apart are k days apart in the week, modulo 7 |
| `Calendar.WeekdayShift` | FinanceTrackerApp.java:513-514 | moving a day count by k moves its day of the week by k, modulo 7 |
| `Calendar.BackwardLands` | FinanceTrackerApp.java:513 | the backward step `previousOrSame` computes from a different day of the week is 1 to 6 days and lands on the requested day |
| `Calendar.ForwardLands` | FinanceTrackerApp.java:514 | the forward step `nextOrSame` computes from a different day of the week is 1 to 6 days and lands on the requested day |
| `Calendar.PreviousOrSame` | FinanceTrackerApp.java:513 | the result falls on the requested day of the week, 0 to 6 days before or on the date |
| `Calendar.PreviousOrSameIsLatest` | FinanceTrackerApp.java:513 | no date on that day of the week lies after the result and on or before the date |
| `Calendar.NextOrSame` | FinanceTrackerApp.java:514 | the result falls on the requested day of the week, 0 to 6 days after or on the date |
| `Calendar.NextOrSameIsEarliest` | FinanceTrackerApp.java:514 | no date on that day of the week lies on or after the date and before the result |
| `Ledger.Kind` | FinanceTrackerApp.java:87 | the two values the type string takes, "Credit" and "Debit" |
| `Ledger.Transaction` | FinanceTrackerApp.java:84-118 | the immutable record of date, signed amount, type and description |
| `Ledger.InPeriod` | FinanceTrackerApp.java:146 | the filter test: the date is neither before the start nor after the end |
| `Ledger.Filter` | FinanceTrackerApp.java:145-146 | the `.filter` step: the stored transactions in range, in stored order |
| `Ledger.FilterCount` | FinanceTrackerApp.java:146 | filtering keeps each in-range transaction as often as it is stored, and drops every other one |
| `Ledger.FilterAppend` | FinanceTrackerApp.java:136-146 | filtering a store with one more transaction appended adds that transaction at the end exactly when it is in range |
| `Ledger.FilterAll` | FinanceTrackerApp.java:146 | when every transaction is in range, filtering keeps them all, in order |
| `Ledger.FilterOnDate` | FinanceTrackerApp.java:146 | for a date in range, the filtered transactions of that date are the stored ones in stored order; for a date out of range, none |
| `Ledger.Insert` | FinanceTrackerApp.java:147 | insertion adds exactly one occurrence of the transaction and keeps a date-sorted sequence sorted |
| `Ledger.InsertOnDate` | FinanceTrackerApp.java:147 | the inserted transaction goes in front of the others of its date; other dates are untouched |
| `Ledger.SortByDate` | FinanceTrackerApp.java:147 | the sort result is a permutation of its input and ascending by date |
| `Ledger.SortByDateOnDate` | FinanceTrackerApp.java:147 | the sort is stable: each date's transactions keep their input order |
| `Ledger.SortedByDateUnique` | FinanceTrackerApp.java:147 | two date-sorted sequences that agree date by date are equal, so there is only one stable sort |
| `Ledger.TransactionStorage.constructor` | FinanceTrackerApp.java:128-130 | a new store is empty |
| `Ledger.TransactionStorage.AddTransaction` | FinanceTrackerApp.java:136-139 | the store becomes the old store with the transaction appended last; every period query gains that transaction exactly when its date is in the period |
| `Ledger.TransactionStorage.TransactionsForPeriod` | FinanceTrackerApp.java:144-149 | every result is in range; each in-range stored transaction occurs exactly as often as stored, and no other does; the result is ascending by date; each in-range date's transactions are in insertion order |
| `Ledger.SortedFilterInPeriod` | FinanceTrackerApp.java:145-147 | every transaction of the sorted, filtered store is dated in the period |
| `Ledger.SortedFilterCount` | FinanceTrackerApp.java:145-147 | the sorted, filtered store holds each in-period transaction as often as the store does, and no other |
| `Ledger.SortedFilterOnDate` | FinanceTrackerApp.java:145-147 | the sorted, filtered store lists each in-period date's transactions in stored order, and none of other dates |
| `Ledger.NarrowerPeriodNoMore` | FinanceTrackerApp.java:144-148 | a range inside another yields a sub-multiset of the wider range's result |
| `Ledger.PeriodQueryUnique` | FinanceTrackerApp.java:145-148 | any date-sorted sequence that lists each in-range date's stored transactions in insertion order is the query result |
| `Ledger.WholeLedgerQuery` | FinanceTrackerApp.java:144-148 | when every stored date is in range, the query returns the whole store, stably sorted |
| `Entry.Abs` | FinanceTrackerApp.java:292-294 | `Math.abs`: the result is not negative and is the argument or its negation |
| `Entry.SignedAmount` | FinanceTrackerApp.java:290-295 | a Debit amount is at most zero, a Credit amount at least zero, and the magnitude is unchanged |
| `Entry.DescriptionOrPlaceholder` | FinanceTrackerApp.java:297-299 | the description is never empty; a non-empty one is kept; an empty one becomes "(No description)" |
| `Entry.NewTransaction` | FinanceTrackerApp.java:285-302 | the record keeps the date and magnitude, its kind follows the Credit button, its sign agrees with the kind (strictly whenever the amount is non-zero), and its description is the typed one or, when that is empty, "(No description)" |
| `Entry.SubmitTransaction` | FinanceTrackerApp.java:282-303 | the store gains exactly the normalised transaction, appended last |
| `Report.Range` | FinanceTrackerApp.java:504-505 | the inclusive `start`/`end` pair the `switch` reassigns |
| `Report.ResolvePeriod` | FinanceTrackerApp.java:502-524 | both bounds are valid dates and the current date lies in the range; Daily and any unknown name give the one-day range of the current date |
| `Report.WeeklyRange` | FinanceTrackerApp.java:512-515 | Weekly starts on a Monday and ends on the Sunday exactly six days later, holds the current date, starts on it if it is a Monday and ends on it if it is a Sunday |
| `Report.WeekBounds` | FinanceTrackerApp.java:513-514 | the Monday on or before and the Sunday on or after a date are six days apart |
| `Report.WeeklyRangeExact` | FinanceTrackerApp.java:512-515 | a valid date is in the weekly range exactly when it is one of the seven days from the Monday |
| `Report.MonthlyRange` | FinanceTrackerApp.java:516-519 | Monthly runs from day 1 to the month's last valid day, and a valid date is in it exactly when it is in the current month |
| `Report.YearlyRange` | FinanceTrackerApp.java:520-523 | Yearly runs from January 1 to December 31, and a valid date is in it exactly when it is in the current year |
| `Report.LeapFebruaryExample` | FinanceTrackerApp.java:516-518 | February 2024 ends on the 29th; February 2023 ends on the 28th |
| `Report.WeekExample` | FinanceTrackerApp.java:512-514 | Wednesday 2024-06-12 lies in the week 2024-06-10 to 2024-06-16 |
| `Report.YearExample` | FinanceTrackerApp.java:520-522 | 2023-07-04 lies in the year 2023-01-01 to 2023-12-31 |
| `Report.TotalsSplit` | FinanceTrackerApp.java:531-540 | total credits are at least zero, total debits at most zero, and together they are the sum of all amounts |
| `Report.TotalsConcat` | FinanceTrackerApp.java:533-539 | each total of a concatenation is the sum of the totals of its parts |
| `Report.TotalsRemove` | FinanceTrackerApp.java:533-539 | taking one transaction out of a sequence takes its share out of each total |
| `Report.TotalsPermutation` | FinanceTrackerApp.java:527-540 | the totals do not depend on the order of the transactions |
| `Report.Aggregate` | FinanceTrackerApp.java:531-539 | the loop's credits are the sum of the positive amounts and its debits the sum of the others, zero included |
| `Report.FinancialReport` | FinanceTrackerApp.java:546-550 | the values the report shows: period, range, total credits, total debits, net balance, the transactions and their count |
| `Report.GenerateReport` | FinanceTrackerApp.java:500-557 | the range is the resolved period; the transactions are the store's query for it; credits are at least zero and debits at most zero; the net is their sum and also the sum of all in-range stored amounts; the count is the number of transactions; an empty range gives all zeros |
| `Scenarios.MarchRange` | FinanceTrackerApp.java:516-519 | Monthly on 2024-03-10 is the range 2024-03-01 to 2024-03-31 |
| `Scenarios.MarchQuery` | FinanceTrackerApp.java:144-148 | over entries of March 1, March 15 and April 1, the March query keeps the two March entries, in date order |
| `Scenarios.MarchTotals` | FinanceTrackerApp.java:531-540 | the two March entries give credits of 10000 and debits of -4000 |

## Left out

- Swing and AWT: panel construction, navigation, layout, dialogs, the file chooser and the placeholder heatmap and graph panels (FinanceTrackerApp.java:19-75, 156-280, 428-494). These are user interface only.
- The PDF upload panel (FinanceTrackerApp.java:334-415). It is a stub that only shows messages.
- Parsing of the date and amount fields with `LocalDate.parse` and `Double.parseDouble`, and their error dialogs. These are library calls; the parsed date and amount are inputs of `Entry.NewTransaction`.
- Clearing the form fields and the success dialog after a submission. These are user interface only.
- `LocalDate.now()` reads the clock; the current date is a parameter of `Report.ResolvePeriod` and `Report.GenerateReport`.
- `double` arithmetic: amounts are whole cents, so the model has no rounding or negative zero.
- `Double.parseDouble` (FinanceTrackerApp.java:287) also accepts "NaN" and "Infinity". A NaN amount stays NaN through both branches of :291-295 and fails the `> 0` test at :534, so the debits and the net balance become NaN. Integer amounts have no such value.
- Summing doubles depends on the order of the terms. The model's integer totals do not, as `Report.TotalsPermutation` shows, so the model does not capture rounding differences between the sorted query and any other order.
- The text of the report and `Transaction.toString` (`%.2f` formatting, FinanceTrackerApp.java:115-116, 543-558). The report is returned as a structured value holding the range, the totals, the transactions and their count.
- The static singleton `instance`; the store is an ordinary object passed to its users.
- `LocalDate`'s year limits (±999,999,999) and the exception `plusDays` raises beyond them. Years are unbounded here.
- A `null` period name, which would make the `switch` throw. The combo box always has one of its four items selected.
- Ledger.TransactionStorage.TransactionsForPeriod: Java returns a new list; the model returns a value, so aliasing of the returned list is not modelled.
- FinancialManager.java. It is a console menu loop over standard input and output. Its store duplicates `TransactionStorage`, and the file relies on classes that are not part of this model.
