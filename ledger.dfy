/** The transaction record and the in-memory ledger: append is its only
    mutation, and the period query returns the transactions dated inside an
    inclusive range, stably sorted by date. */
module Ledger {
  import opened Calendar

  /** Credit or Debit, as chosen on the entry form. */
  datatype Kind = Credit | Debit

  /** One recorded movement of money. The amount is in cents and carries the
      sign: positive for money in, negative for money out. */
  datatype Transaction = Transaction(date: Date, amount: int, kind: Kind, description: string)

  /** Not being earlier is transitive. */
  lemma NotBeforeTransitive(a: Date, b: Date, c: Date)
    requires !IsBefore(a, b) && !IsBefore(b, c)
    ensures !IsBefore(a, c)
  {
  }

  /** The query's range test: the date is neither before start nor after end. */
  predicate InPeriod(d: Date, start: Date, end: Date) {
    !IsBefore(d, start) && !IsAfter(d, end)
  }

  // ---------------------------------------------------------------------------
  // Filtering

  /** The transactions of s dated within [start, end], in their stored order. */
  function Filter(s: seq<Transaction>, start: Date, end: Date): seq<Transaction> {
    if s == [] then []
    else (if InPeriod(s[0].date, start, end) then [s[0]] else []) + Filter(s[1..], start, end)
  }

  /** Filtering keeps every in-period transaction as often as it is stored, and no other. */
  lemma {:induction false} FilterCount(s: seq<Transaction>, start: Date, end: Date, t: Transaction)
    ensures multiset(Filter(s, start, end))[t] == if InPeriod(t.date, start, end) then multiset(s)[t] else 0
  {
    if s != [] {
      assert s == [s[0]] + s[1..];
      FilterCount(s[1..], start, end, t);
    }
  }

  lemma {:induction false} FilterAppend(s: seq<Transaction>, t: Transaction, start: Date, end: Date)
    ensures Filter(s + [t], start, end)
         == Filter(s, start, end) + (if InPeriod(t.date, start, end) then [t] else [])
  {
    if s == [] {
      assert [t][1..] == [];
      assert s + [t] == [t];
    } else {
      var h := if InPeriod(s[0].date, start, end) then [s[0]] else [];
      assert (s + [t])[0] == s[0];
      assert (s + [t])[1..] == s[1..] + [t];
      assert Filter(s + [t], start, end) == h + Filter(s[1..] + [t], start, end);
      FilterAppend(s[1..], t, start, end);
      assert Filter(s, start, end) == h + Filter(s[1..], start, end);
    }
  }

  /** Filtering keeps everything when everything is in the period. */
  lemma {:induction false} FilterAll(s: seq<Transaction>, start: Date, end: Date)
    requires forall i :: 0 <= i < |s| ==> InPeriod(s[i].date, start, end)
    ensures Filter(s, start, end) == s
  {
    if s != [] {
      assert InPeriod(s[0].date, start, end);
      FilterAll(s[1..], start, end);
      assert s == [s[0]] + s[1..];
    }
  }

  // ---------------------------------------------------------------------------
  // Transactions of one date

  /** The transactions of s dated d, in their order in s. */
  function OnDate(s: seq<Transaction>, d: Date): seq<Transaction> {
    if s == [] then [] else (if s[0].date == d then [s[0]] else []) + OnDate(s[1..], d)
  }

  lemma {:induction false} OnDateConcat(a: seq<Transaction>, b: seq<Transaction>, d: Date)
    ensures OnDate(a + b, d) == OnDate(a, d) + OnDate(b, d)
  {
    if a == [] {
      assert a + b == b;
    } else {
      assert (a + b)[1..] == a[1..] + b;
      OnDateConcat(a[1..], b, d);
    }
  }

  lemma {:induction false} OnDateCons(t: Transaction, s: seq<Transaction>, d: Date)
    ensures OnDate([t] + s, d) == if t.date == d then [t] + OnDate(s, d) else OnDate(s, d)
  {
    assert ([t] + s)[1..] == s;
  }

  /** Filtering by period, then by date, is filtering by date when the date is in the period. */
  lemma {:induction false} FilterOnDate(s: seq<Transaction>, start: Date, end: Date, d: Date)
    ensures OnDate(Filter(s, start, end), d) == if InPeriod(d, start, end) then OnDate(s, d) else []
  {
    if s != [] {
      var h := if InPeriod(s[0].date, start, end) then [s[0]] else [];
      OnDateConcat(h, Filter(s[1..], start, end), d);
      FilterOnDate(s[1..], start, end, d);
    }
  }

  /** A transaction occurs among those of its own date exactly as often as in s. */
  lemma {:induction false} OnDateCount(s: seq<Transaction>, t: Transaction)
    ensures multiset(OnDate(s, t.date))[t] == multiset(s)[t]
  {
    if s != [] {
      assert s == [s[0]] + s[1..];
      OnDateCount(s[1..], t);
    }
  }

  // ---------------------------------------------------------------------------
  // Stable sort by date

  /** Ascending by date; equal dates may appear in any order. */
  predicate SortedByDate(s: seq<Transaction>) {
    forall i, j :: 0 <= i < j < |s| ==> !IsBefore(s[j].date, s[i].date)
  }

  /** No transaction of s is dated before d. */
  predicate NoneBefore(d: Date, s: seq<Transaction>) {
    forall x :: x in s ==> !IsBefore(x.date, d)
  }

  lemma SortedCons(x: Transaction, s: seq<Transaction>)
    requires SortedByDate(s) && NoneBefore(x.date, s)
    ensures SortedByDate([x] + s)
  {
    var r := [x] + s;
    forall i, j | 0 <= i < j < |r| ensures !IsBefore(r[j].date, r[i].date) {
      if i == 0 {
        assert r[j] == s[j - 1];
        assert r[j] in s;
      } else {
        assert r[i] == s[i - 1] && r[j] == s[j - 1];
      }
    }
  }

  lemma SortedTail(s: seq<Transaction>)
    requires SortedByDate(s) && s != []
    ensures SortedByDate(s[1..]) && NoneBefore(s[0].date, s[1..])
  {
    forall x | x in s[1..] ensures !IsBefore(x.date, s[0].date) {
      var k :| 0 <= k < |s[1..]| && s[1..][k] == x;
      assert s[k + 1] == x;
    }
  }

  /** Puts t before the first transaction of s that is not strictly earlier. */
  function Insert(t: Transaction, s: seq<Transaction>): (r: seq<Transaction>)
    ensures multiset(r) == multiset(s) + multiset{t}
    ensures SortedByDate(s) ==> SortedByDate(r)
  {
    if s == [] then [t]
    else if !IsBefore(s[0].date, t.date) then
      assert SortedByDate(s) ==> SortedByDate([t] + s) by {
        if SortedByDate(s) {
          SortedTail(s);
          forall x | x in s ensures !IsBefore(x.date, t.date) {
            if x != s[0] {
              assert x in s[1..] by { assert s == [s[0]] + s[1..]; }
            }
          }
          SortedCons(t, s);
        }
      }
      [t] + s
    else
      var rest := Insert(t, s[1..]);
      assert s == [s[0]] + s[1..];
      assert SortedByDate(s) ==> SortedByDate([s[0]] + rest) by {
        if SortedByDate(s) {
          SortedTail(s);
          forall x | x in rest ensures !IsBefore(x.date, s[0].date) {
            assert x in multiset(rest);
            assert x == t || x in multiset(s[1..]);
          }
          SortedCons(s[0], rest);
        }
      }
      [s[0]] + rest
  }

  /** Inserting t adds it in front of the other transactions of its date. */
  lemma {:induction false} InsertOnDate(t: Transaction, s: seq<Transaction>, d: Date)
    ensures OnDate(Insert(t, s), d) == if t.date == d then [t] + OnDate(s, d) else OnDate(s, d)
  {
    if s == [] {
      assert Insert(t, s) == [t] + [];
      OnDateCons(t, [], d);
    } else if !IsBefore(s[0].date, t.date) {
      assert Insert(t, s) == [t] + s;
      OnDateCons(t, s, d);
    } else {
      var rest := Insert(t, s[1..]);
      assert Insert(t, s) == [s[0]] + rest;
      assert s == [s[0]] + s[1..];
      InsertOnDate(t, s[1..], d);
      OnDateCons(s[0], rest, d);
      OnDateCons(s[0], s[1..], d);
    }
  }

  /** Insertion sort by date. */
  function SortByDate(s: seq<Transaction>): (r: seq<Transaction>)
    ensures multiset(r) == multiset(s)
    ensures SortedByDate(r)
  {
    if s == [] then []
    else
      assert s == [s[0]] + s[1..];
      Insert(s[0], SortByDate(s[1..]))
  }

  /** The sort is stable: the transactions of each date keep their order in s. */
  lemma {:induction false} SortByDateOnDate(s: seq<Transaction>, d: Date)
    ensures OnDate(SortByDate(s), d) == OnDate(s, d)
  {
    if s != [] {
      SortByDateOnDate(s[1..], d);
      InsertOnDate(s[0], SortByDate(s[1..]), d);
      OnDateCons(s[0], s[1..], d);
      assert s == [s[0]] + s[1..];
    }
  }

  /** A sequence sorted by date is determined by its per-date subsequences: there is
      exactly one stable sort. */
  lemma {:induction false} SortedByDateUnique(a: seq<Transaction>, b: seq<Transaction>)
    requires SortedByDate(a) && SortedByDate(b)
    requires forall d :: OnDate(a, d) == OnDate(b, d)
    ensures a == b
    decreases |a|
  {
    SameDatesSameLength(a, b);
    if a != [] {
      SameDatesSameHead(a, b);
      forall d ensures OnDate(a[1..], d) == OnDate(b[1..], d) {
        OnDateCons(a[0], a[1..], d);
        OnDateCons(b[0], b[1..], d);
        assert a == [a[0]] + a[1..];
        assert b == [b[0]] + b[1..];
        var od := OnDate(a, d);
        assert od == OnDate(b, d);
        if a[0].date == d {
          assert od[1..] == OnDate(a[1..], d);
          assert od[1..] == OnDate(b[1..], d);
        }
      }
      SortedTail(a);
      SortedTail(b);
      SortedByDateUnique(a[1..], b[1..]);
      assert a == [a[0]] + a[1..];
      assert b == [b[0]] + b[1..];
    }
  }

  lemma SameDatesSameLength(a: seq<Transaction>, b: seq<Transaction>)
    requires forall d :: OnDate(a, d) == OnDate(b, d)
    ensures multiset(a) == multiset(b) && |a| == |b|
  {
    forall t ensures multiset(a)[t] == multiset(b)[t] {
      OnDateCount(a, t);
      OnDateCount(b, t);
    }
    assert multiset(a) == multiset(b);
    assert |a| == |multiset(a)| == |multiset(b)| == |b|;
  }

  lemma SameDatesSameHead(a: seq<Transaction>, b: seq<Transaction>)
    requires SortedByDate(a) && SortedByDate(b) && a != [] && b != []
    requires forall d :: OnDate(a, d) == OnDate(b, d)
    ensures a[0] == b[0]
  {
    SameDatesSameLength(a, b);
    SortedHeadsSameDate(a, b);
    var m := a[0].date;
    var om := OnDate(a, m);
    assert om == OnDate(b, m);
    OnDateCons(a[0], a[1..], m);
    OnDateCons(b[0], b[1..], m);
    assert a == [a[0]] + a[1..];
    assert b == [b[0]] + b[1..];
    assert om[0] == a[0];
  }

  lemma SortedHeadsSameDate(a: seq<Transaction>, b: seq<Transaction>)
    requires SortedByDate(a) && SortedByDate(b) && a != [] && b != []
    requires multiset(a) == multiset(b)
    ensures a[0].date == b[0].date
  {
    assert b[0] in multiset(a) && a[0] in multiset(b);
    HeadIsEarliest(a, b[0]);
    HeadIsEarliest(b, a[0]);
  }

  lemma HeadIsEarliest(s: seq<Transaction>, x: Transaction)
    requires SortedByDate(s) && x in s
    ensures !IsBefore(x.date, s[0].date)
  {
  }

  // ---------------------------------------------------------------------------
  // The store

  /** The in-memory transaction store (TransactionStorage). */
  class TransactionStorage {
    /** All transactions in the order they were added. */
    var transactions: seq<Transaction>

    constructor ()
      ensures transactions == []
    {
      transactions := [];
    }

    /** Appends t; nothing is validated, deduplicated or removed. */
    method AddTransaction(t: Transaction)
      modifies this
      ensures transactions == old(transactions) + [t]
      ensures forall start, end ::
        multiset(TransactionsForPeriod(start, end))
        == old(multiset(TransactionsForPeriod(start, end)))
           + (if InPeriod(t.date, start, end) then multiset{t} else multiset{})
    {
      transactions := transactions + [t];
      forall start, end ensures
        multiset(TransactionsForPeriod(start, end))
        == old(multiset(TransactionsForPeriod(start, end)))
           + (if InPeriod(t.date, start, end) then multiset{t} else multiset{})
      {
        FilterAppend(old(transactions), t, start, end);
      }
    }

    /** The stored transactions dated within [start, end], ascending by date,
        transactions of the same date in the order they were added. */
    function TransactionsForPeriod(start: Date, end: Date): (r: seq<Transaction>)
      reads this
      ensures forall i :: 0 <= i < |r| ==> InPeriod(r[i].date, start, end)
      ensures forall t :: multiset(r)[t] == if InPeriod(t.date, start, end) then multiset(transactions)[t] else 0
      ensures multiset(r) == multiset(Filter(transactions, start, end))
      ensures SortedByDate(r)
      ensures forall d :: OnDate(r, d) == if InPeriod(d, start, end) then OnDate(transactions, d) else []
    {
      SortedFilterInPeriod(transactions, start, end);
      SortedFilterCount(transactions, start, end);
      SortedFilterOnDate(transactions, start, end);
      SortByDate(Filter(transactions, start, end))
    }
  }

  /** Every transaction the query returns is dated in the period. */
  lemma SortedFilterInPeriod(s: seq<Transaction>, start: Date, end: Date)
    ensures var r := SortByDate(Filter(s, start, end));
      forall i :: 0 <= i < |r| ==> InPeriod(r[i].date, start, end)
  {
    var r := SortByDate(Filter(s, start, end));
    forall i | 0 <= i < |r| ensures InPeriod(r[i].date, start, end) {
      assert r[i] in multiset(Filter(s, start, end));
      FilterCount(s, start, end, r[i]);
    }
  }

  /** The query returns each in-period transaction as often as it is stored, and no other. */
  lemma SortedFilterCount(s: seq<Transaction>, start: Date, end: Date)
    ensures var r := SortByDate(Filter(s, start, end));
      forall t :: multiset(r)[t] == if InPeriod(t.date, start, end) then multiset(s)[t] else 0
  {
    forall t: Transaction
      ensures multiset(SortByDate(Filter(s, start, end)))[t]
           == if InPeriod(t.date, start, end) then multiset(s)[t] else 0
    {
      FilterCount(s, start, end, t);
    }
  }

  /** The query lists the transactions of each date of the period in stored order. */
  lemma SortedFilterOnDate(s: seq<Transaction>, start: Date, end: Date)
    ensures var r := SortByDate(Filter(s, start, end));
      forall d :: OnDate(r, d) == if InPeriod(d, start, end) then OnDate(s, d) else []
  {
    forall d
      ensures OnDate(SortByDate(Filter(s, start, end)), d)
           == if InPeriod(d, start, end) then OnDate(s, d) else []
    {
      SortByDateOnDate(Filter(s, start, end), d);
      FilterOnDate(s, start, end, d);
    }
  }

  /** Narrowing the period never adds transactions to the query result. */
  lemma NarrowerPeriodNoMore(storage: TransactionStorage, start0: Date, end0: Date, start1: Date, end1: Date)
    requires !IsBefore(start1, start0) && !IsAfter(end1, end0)
    ensures multiset(storage.TransactionsForPeriod(start1, end1))
         <= multiset(storage.TransactionsForPeriod(start0, end0))
  {
    var r0 := storage.TransactionsForPeriod(start0, end0);
    var r1 := storage.TransactionsForPeriod(start1, end1);
    forall t: Transaction ensures multiset(r1)[t] <= multiset(r0)[t] {
      if InPeriod(t.date, start1, end1) {
        NotBeforeTransitive(t.date, start1, start0);
        NotBeforeTransitive(end0, end1, t.date);
      }
    }
  }

  /** The query result is the only sequence that is sorted by date and lists, for
      each date of the period, the stored transactions of that date in the order
      they were added. */
  lemma PeriodQueryUnique(storage: TransactionStorage, start: Date, end: Date, r: seq<Transaction>)
    requires SortedByDate(r)
    requires forall d :: OnDate(r, d) == if InPeriod(d, start, end) then OnDate(storage.transactions, d) else []
    ensures r == storage.TransactionsForPeriod(start, end)
  {
    SortedByDateUnique(r, storage.TransactionsForPeriod(start, end));
  }

  /** When every stored transaction is in the period, the query returns all of them. */
  lemma WholeLedgerQuery(storage: TransactionStorage, start: Date, end: Date)
    requires forall i :: 0 <= i < |storage.transactions| ==> InPeriod(storage.transactions[i].date, start, end)
    ensures multiset(storage.TransactionsForPeriod(start, end)) == multiset(storage.transactions)
    ensures storage.TransactionsForPeriod(start, end) == SortByDate(storage.transactions)
  {
    FilterAll(storage.transactions, start, end);
  }
}
