/** Manual entry: the sign and description conventions applied to a submitted
    transaction before it is stored. */
module Entry {
  import opened Calendar
  import opened Ledger

  /** Stored in place of an empty description. */
  const NoDescription: string := "(No description)"

  function Abs(x: int): (r: int)
    ensures r >= 0 && (r == x || r == -x)
  {
    if x < 0 then -x else x
  }

  /** The +/- convention: a debit is stored as -|amount|, anything else as |amount|. */
  function SignedAmount(kind: Kind, amount: int): (r: int)
    ensures kind == Debit ==> r <= 0
    ensures kind != Debit ==> r >= 0
    ensures Abs(r) == Abs(amount)
  {
    if kind == Debit then -Abs(amount) else Abs(amount)
  }

  /** A description is never left blank; a non-empty one is kept as typed. */
  function DescriptionOrPlaceholder(description: string): (r: string)
    ensures r != []
    ensures description != [] ==> r == description
    ensures description == [] ==> r == NoDescription
  {
    if description == [] then NoDescription else description
  }

  /** The transaction built from the form's parsed fields; the Credit radio button
      selects Credit, otherwise the entry is a Debit. */
  function NewTransaction(date: Date, description: string, amount: int, creditSelected: bool): (t: Transaction)
    ensures t.date == date
    ensures t.kind == (if creditSelected then Credit else Debit)
    ensures t.kind == Credit ==> t.amount >= 0
    ensures t.kind == Debit ==> t.amount <= 0
    ensures t.amount != 0 ==> (t.kind == Credit <==> t.amount > 0)
    ensures Abs(t.amount) == Abs(amount)
    ensures t.description != [] && (description != [] ==> t.description == description)
    ensures description == [] ==> t.description == NoDescription
  {
    var kind := if creditSelected then Credit else Debit;
    Transaction(date, SignedAmount(kind, amount), kind, DescriptionOrPlaceholder(description))
  }

  /** Normalises the submitted fields and appends the transaction to the store. */
  method SubmitTransaction(storage: TransactionStorage, date: Date, description: string,
                           amount: int, creditSelected: bool)
    modifies storage
    ensures storage.transactions
         == old(storage.transactions) + [NewTransaction(date, description, amount, creditSelected)]
  {
    var t := NewTransaction(date, description, amount, creditSelected);
    storage.AddTransaction(t);
  }
}
