/** Clients of the entry form and the report: the worked examples of the
    application's behaviour, checked against the contracts alone. */
module Scenarios {
  import opened Calendar
  import opened Ledger
  import opened Entry
  import opened Report

  const Salary := Transaction(Date(2024, 3, 1), 10000, Credit, "Salary")
  const Groceries := Transaction(Date(2024, 3, 15), -4000, Debit, NoDescription)
  const Refund := Transaction(Date(2024, 4, 1), 5000, Credit, "Refund")

  /** Monthly on March 10, 2024 covers March 1 to March 31. */
  lemma MarchRange()
    ensures ResolvePeriod("Monthly", Date(2024, 3, 10)) == Range(Date(2024, 3, 1), Date(2024, 3, 31))
  {
  }

  /** The March query keeps the two March entries, already in date order. */
  lemma MarchQuery()
    ensures Filter([Salary, Groceries, Refund], Date(2024, 3, 1), Date(2024, 3, 31)) == [Salary, Groceries]
    ensures SortByDate([Salary, Groceries]) == [Salary, Groceries]
  {
    var start, end := Date(2024, 3, 1), Date(2024, 3, 31);
    assert [Salary, Groceries, Refund][1..] == [Groceries, Refund];
    assert [Groceries, Refund][1..] == [Refund];
    assert [Refund][1..] == [];
    assert Filter([Refund], start, end) == [];
    assert Filter([Groceries, Refund], start, end) == [Groceries];
    assert Filter([Salary, Groceries, Refund], start, end) == [Salary] + [Groceries];
    assert [Salary, Groceries][1..] == [Groceries];
    assert [Groceries][1..] == [];
    assert SortByDate([Groceries]) == [Groceries];
  }

  /** The March entries total 10000 in credits and -4000 in debits. */
  lemma MarchTotals()
    ensures CreditsTotal([Salary, Groceries]) == 10000
    ensures DebitsTotal([Salary, Groceries]) == -4000
  {
    assert [Salary, Groceries][..1] == [Salary];
    assert [Salary][..0] == [];
    assert CreditsTotal([Salary]) == 10000;
    assert DebitsTotal([Salary]) == 0;
  }

  /** Two March entries and one April entry; the March report sees only the first two. */
  method MarchReport() {
    var storage := new TransactionStorage();
    SubmitTransaction(storage, Date(2024, 3, 1), "Salary", 10000, true);
    SubmitTransaction(storage, Date(2024, 3, 15), "", 4000, false);
    SubmitTransaction(storage, Date(2024, 4, 1), "Refund", 5000, true);
    assert storage.transactions == [Salary, Groceries, Refund];

    MarchRange();
    MarchQuery();
    MarchTotals();
    var report := GenerateReport(storage, "Monthly", Date(2024, 3, 10));
    assert report.start == Date(2024, 3, 1) && report.end == Date(2024, 3, 31);
    assert report.transactions == SortByDate(Filter([Salary, Groceries, Refund], report.start, report.end));
    assert report.transactions == [Salary, Groceries];
    assert report.count == 2;
    assert report.totalCredits == 10000 && report.totalDebits == -4000 && report.netBalance == 6000;
  }

  /** A report over an empty store is all zeros. */
  method EmptyReport(period: string, now: Date)
    requires ValidDate(now)
  {
    var storage := new TransactionStorage();
    var report := GenerateReport(storage, period, now);
    assert report.count == 0;
    assert report.totalCredits == 0 && report.totalDebits == 0 && report.netBalance == 0;
  }
}
