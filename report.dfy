/** The reporting screen's engine: resolving a named period to an inclusive
    date range, and totalling the transactions stored in that range. */
module Report {
  import opened Calendar
  import opened Ledger

  const Monday: int := 1
  const Sunday: int := 7

  /** An inclusive date range. */
  datatype Range = Range(start: Date, end: Date)

  // ---------------------------------------------------------------------------
  // Period resolution

  /** The range selected by a period name on the reference date `now`; a name
      other than the four known ones leaves the range at `now` alone. */
  function ResolvePeriod(period: string, now: Date): (r: Range)
    requires ValidDate(now)
    ensures ValidDate(r.start) && ValidDate(r.end)
    ensures InPeriod(now, r.start, r.end)
    ensures period !in ["Weekly", "Monthly", "Yearly"] ==> r == Range(now, now)
  {
    if period == "Daily" then Range(now, now)
    else if period == "Weekly" then
      var start := PreviousOrSame(now, Monday);
      var end := NextOrSame(now, Sunday);
      EpochDayOrder(now, start);
      EpochDayOrder(end, now);
      Range(start, end)
    else if period == "Monthly" then
      Range(Date(now.year, now.month, 1), Date(now.year, now.month, DaysInMonth(now.year, now.month)))
    else if period == "Yearly" then
      Range(Date(now.year, 1, 1), Date(now.year, 12, 31))
    else Range(now, now)
  }

  /** A Monday and a Sunday at most twelve days apart are exactly six days apart. */
  lemma MondayToSunday(k: int)
    requires 0 <= k <= 12 && k % 7 + 1 == Sunday
    ensures k == 6
  {
  }

  /** The weekly range runs from the Monday on or before `now` to the Sunday on or
      after it: seven consecutive days holding `now`. */
  lemma WeeklyRange(now: Date)
    requires ValidDate(now)
    ensures var r := ResolvePeriod("Weekly", now);
      && DayOfWeek(r.start) == Monday && DayOfWeek(r.end) == Sunday
      && EpochDay(r.start) <= EpochDay(now) <= EpochDay(r.end)
      && EpochDay(r.end) == EpochDay(r.start) + 6
      && (DayOfWeek(now) == Monday ==> r.start == now)
      && (DayOfWeek(now) == Sunday ==> r.end == now)
  {
    var start := PreviousOrSame(now, Monday);
    var end := NextOrSame(now, Sunday);
    assert ResolvePeriod("Weekly", now) == Range(start, end);
    WeekBounds(now, start, end);
  }

  lemma WeekBounds(now: Date, start: Date, end: Date)
    requires ValidDate(now) && start == PreviousOrSame(now, Monday) && end == NextOrSame(now, Sunday)
    ensures EpochDay(end) == EpochDay(start) + 6
    ensures DayOfWeek(now) == Monday ==> start == now
    ensures DayOfWeek(now) == Sunday ==> end == now
  {
    var k := EpochDay(end) - EpochDay(start);
    DayOfWeekAfter(start, end, k);
    MondayToSunday(k);
    if DayOfWeek(now) == Monday {
      var j := EpochDay(now) - EpochDay(start);
      DayOfWeekAfter(start, now, j);
      SameWeekdayWithinAWeek(Monday, j);
      EpochDayInjective(start, now);
    }
    if DayOfWeek(now) == Sunday {
      var j := EpochDay(end) - EpochDay(now);
      DayOfWeekAfter(now, end, j);
      SameWeekdayWithinAWeek(Sunday, j);
      EpochDayInjective(end, now);
    }
  }

  /** A valid date lies in the weekly range exactly when it is one of its seven days. */
  lemma WeeklyRangeExact(now: Date, d: Date)
    requires ValidDate(now) && ValidDate(d)
    ensures var r := ResolvePeriod("Weekly", now);
      InPeriod(d, r.start, r.end) <==> EpochDay(r.start) <= EpochDay(d) <= EpochDay(r.start) + 6
  {
    var r := ResolvePeriod("Weekly", now);
    WeeklyRange(now);
    EpochDayOrder(d, r.start);
    EpochDayOrder(r.end, d);
  }

  /** The monthly range runs from the first to the last day of `now`'s month, and a
      valid date lies in it exactly when it is in that month. */
  lemma MonthlyRange(now: Date, d: Date)
    requires ValidDate(now) && ValidDate(d)
    ensures var r := ResolvePeriod("Monthly", now);
      && r.start == Date(now.year, now.month, 1)
      && r.end.year == now.year && r.end.month == now.month
      && !ValidDate(Date(now.year, now.month, r.end.day + 1))
      && (InPeriod(d, r.start, r.end) <==> d.year == now.year && d.month == now.month)
  {
  }

  /** The yearly range runs from January 1 to December 31 of `now`'s year, and a
      valid date lies in it exactly when it is in that year. */
  lemma YearlyRange(now: Date, d: Date)
    requires ValidDate(now) && ValidDate(d)
    ensures var r := ResolvePeriod("Yearly", now);
      && r == Range(Date(now.year, 1, 1), Date(now.year, 12, 31))
      && (InPeriod(d, r.start, r.end) <==> d.year == now.year)
  {
  }

  lemma LeapFebruaryExample()
    ensures ResolvePeriod("Monthly", Date(2024, 2, 15)) == Range(Date(2024, 2, 1), Date(2024, 2, 29))
    ensures ResolvePeriod("Monthly", Date(2023, 2, 15)) == Range(Date(2023, 2, 1), Date(2023, 2, 28))
  {
  }

  lemma WeekExample()
    ensures ResolvePeriod("Weekly", Date(2024, 6, 12)) == Range(Date(2024, 6, 10), Date(2024, 6, 16))
  {
    var d := Date(2024, 6, 12);
    assert EpochDay(d) == 19886;
    assert DayOfWeek(d) == 3;
    assert PreviousOrSame(d, Monday) == MinusDays(d, 2) == Date(2024, 6, 10);
    assert NextOrSame(d, Sunday) == PlusDays(d, 4) == Date(2024, 6, 16);
  }

  lemma YearExample()
    ensures ResolvePeriod("Yearly", Date(2023, 7, 4)) == Range(Date(2023, 1, 1), Date(2023, 12, 31))
  {
  }

  // ---------------------------------------------------------------------------
  // Aggregation

  /** Sum of the amounts greater than zero. */
  function CreditsTotal(s: seq<Transaction>): int {
    if s == [] then 0
    else CreditsTotal(s[..|s| - 1]) + (if s[|s| - 1].amount > 0 then s[|s| - 1].amount else 0)
  }

  /** Sum of the amounts not greater than zero; a zero amount counts here. */
  function DebitsTotal(s: seq<Transaction>): int {
    if s == [] then 0
    else DebitsTotal(s[..|s| - 1]) + (if s[|s| - 1].amount > 0 then 0 else s[|s| - 1].amount)
  }

  /** Sum of all amounts. */
  function AmountTotal(s: seq<Transaction>): int {
    if s == [] then 0 else AmountTotal(s[..|s| - 1]) + s[|s| - 1].amount
  }

  /** Credits are never negative, debits never positive, and together they are the net. */
  lemma {:induction false} TotalsSplit(s: seq<Transaction>)
    ensures CreditsTotal(s) >= 0
    ensures DebitsTotal(s) <= 0
    ensures CreditsTotal(s) + DebitsTotal(s) == AmountTotal(s)
  {
    if s != [] {
      TotalsSplit(s[..|s| - 1]);
    }
  }

  lemma {:induction false} TotalsConcat(a: seq<Transaction>, b: seq<Transaction>)
    ensures CreditsTotal(a + b) == CreditsTotal(a) + CreditsTotal(b)
    ensures DebitsTotal(a + b) == DebitsTotal(a) + DebitsTotal(b)
    ensures AmountTotal(a + b) == AmountTotal(a) + AmountTotal(b)
    decreases |b|
  {
    if b == [] {
      assert a + b == a;
    } else {
      assert (a + b)[..|a + b| - 1] == a + b[..|b| - 1];
      TotalsConcat(a, b[..|b| - 1]);
    }
  }

  /** Taking the element at k out of a sequence takes its share out of each total. */
  lemma TotalsRemove(b: seq<Transaction>, k: int)
    requires 0 <= k < |b|
    ensures CreditsTotal(b) == CreditsTotal(b[..k] + b[k + 1..]) + CreditsTotal([b[k]])
    ensures DebitsTotal(b) == DebitsTotal(b[..k] + b[k + 1..]) + DebitsTotal([b[k]])
    ensures AmountTotal(b) == AmountTotal(b[..k] + b[k + 1..]) + AmountTotal([b[k]])
  {
    assert b[..k] + [b[k]] == b[..k + 1];
    assert b == b[..k + 1] + b[k + 1..];
    TotalsConcat(b[..k + 1], b[k + 1..]);
    TotalsConcat(b[..k], [b[k]]);
    TotalsConcat(b[..k], b[k + 1..]);
  }

  /** Removing the last element of a and an equal element of b keeps the two
      sequences permutations of each other. */
  lemma RemoveBoth(a: seq<Transaction>, b: seq<Transaction>, k: int)
    requires multiset(a) == multiset(b) && a != [] && 0 <= k < |b| && b[k] == a[|a| - 1]
    ensures multiset(a[..|a| - 1]) == multiset(b[..k] + b[k + 1..])
  {
    var x := b[k];
    assert a == a[..|a| - 1] + [x];
    assert b == b[..k] + [x] + b[k + 1..];
    assert multiset(b) == multiset(b[..k]) + multiset{x} + multiset(b[k + 1..]);
    assert multiset(a[..|a| - 1]) == multiset(a) - multiset{x};
  }

  /** The totals do not depend on the order of the transactions. */
  lemma {:induction false} TotalsPermutation(a: seq<Transaction>, b: seq<Transaction>)
    requires multiset(a) == multiset(b)
    ensures CreditsTotal(a) == CreditsTotal(b)
    ensures DebitsTotal(a) == DebitsTotal(b)
    ensures AmountTotal(a) == AmountTotal(b)
    decreases |a|
  {
    if a != [] {
      var x := a[|a| - 1];
      var a' := a[..|a| - 1];
      assert a == a' + [x];
      assert x in multiset(b);
      var k :| 0 <= k < |b| && b[k] == x;
      var b' := b[..k] + b[k + 1..];
      RemoveBoth(a, b, k);
      TotalsPermutation(a', b');
      TotalsRemove(b, k);
      TotalsConcat(a', [x]);
    }
  }

  // ---------------------------------------------------------------------------
  // The report

  /** What the reporting screen shows: the period and its range, the three totals
      and the transactions of the range. */
  datatype FinancialReport = FinancialReport(
    period: string, start: Date, end: Date,
    totalCredits: int, totalDebits: int, netBalance: int,
    transactions: seq<Transaction>, count: nat)

  /** The aggregation loop: positive amounts go to the credits, all others to the debits. */
  method Aggregate(transactions: seq<Transaction>) returns (totalCredits: int, totalDebits: int)
    ensures totalCredits == CreditsTotal(transactions)
    ensures totalDebits == DebitsTotal(transactions)
    ensures totalCredits >= 0 && totalDebits <= 0
    ensures totalCredits + totalDebits == AmountTotal(transactions)
  {
    totalCredits, totalDebits := 0, 0;
    for i := 0 to |transactions|
      invariant totalCredits == CreditsTotal(transactions[..i])
      invariant totalDebits == DebitsTotal(transactions[..i])
    {
      assert transactions[..i + 1][..i] == transactions[..i];
      var t := transactions[i];
      if t.amount > 0 {
        totalCredits := totalCredits + t.amount;
      } else {
        totalDebits := totalDebits + t.amount;
      }
    }
    assert transactions[..|transactions|] == transactions;
    TotalsSplit(transactions);
  }

  /** Resolves the period on `now`, queries the store and totals the result. */
  method GenerateReport(storage: TransactionStorage, period: string, now: Date)
    returns (report: FinancialReport)
    requires ValidDate(now)
    ensures Range(report.start, report.end) == ResolvePeriod(period, now)
    ensures report.period == period
    ensures report.transactions == storage.TransactionsForPeriod(report.start, report.end)
    ensures report.count == |report.transactions|
    ensures report.totalCredits == CreditsTotal(report.transactions) >= 0
    ensures report.totalDebits == DebitsTotal(report.transactions) <= 0
    ensures report.netBalance == report.totalCredits + report.totalDebits
    ensures report.netBalance == AmountTotal(Filter(storage.transactions, report.start, report.end))
    ensures report.count == 0 ==> report.totalCredits == 0 && report.totalDebits == 0 && report.netBalance == 0
  {
    var range := ResolvePeriod(period, now);
    var transactions := storage.TransactionsForPeriod(range.start, range.end);
    var totalCredits, totalDebits := Aggregate(transactions);
    TotalsPermutation(transactions, Filter(storage.transactions, range.start, range.end));
    var netBalance := totalCredits + totalDebits;
    report := FinancialReport(period, range.start, range.end, totalCredits, totalDebits,
                              netBalance, transactions, |transactions|);
  }
}
