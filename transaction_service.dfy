/**
 * `TransactionService`: a user's transactions, newest first; adding and deleting them; and
 * the user's totals.
 */
module TransactionService {
  import opened Store
  import opened Ordering
  import opened Money

  /** `orderBy: { date: 'desc' }`: `a` may come before `b` when it is not older. */
  predicate NewestFirst(a: Transaction, b: Transaction) {
    a.date >= b.date
  }

  lemma NewestFirstIsTotalPreorder()
    ensures Total(NewestFirst) && Transitive(NewestFirst)
  {
  }

  /**
   * `findAll(userId)`: exactly the user's transactions, newest first. Rows with the same
   * date may come in any order; this model fixes one.
   */
  function FindAll(rows: map<nat, Transaction>, nextId: nat, userId: nat): (r: seq<Transaction>)
    ensures SortedBy(r, NewestFirst)
    ensures multiset(r) == multiset(Owned(rows, nextId, TransactionOwner, userId))
  {
    NewestFirstIsTotalPreorder();
    SortBy(Owned(rows, nextId, TransactionOwner, userId), NewestFirst)
  }

  /** In a table keyed below its counter, the listing holds every row of the user and no other row. */
  lemma FindAllHoldsOwnRows(rows: map<nat, Transaction>, nextId: nat, userId: nat)
    requires KeyedBelow(rows, TransactionId, nextId)
    ensures forall t :: t in FindAll(rows, nextId, userId) <==> t in rows.Values && t.userId == userId
  {
    forall t | t in rows.Values && t.userId == userId ensures t in FindAll(rows, nextId, userId) {
      var k :| k in rows && rows[k] == t;
      assert t in multiset(Owned(rows, nextId, TransactionOwner, userId));
    }
    forall t | t in FindAll(rows, nextId, userId) ensures t in rows.Values && t.userId == userId {
      assert t in multiset(Owned(rows, nextId, TransactionOwner, userId));
    }
  }

  /** The fields of a `create` request. */
  datatype TransactionInput = TransactionInput(
    description: string, amount: real, date: int, categoryId: nat, paymentMethodId: nat)

  /** The row `create(userId, input)` inserts under key `id`: the input, stamped with its owner. */
  function NewTransaction(id: nat, userId: nat, input: TransactionInput): Transaction {
    Transaction(id, input.description, input.amount, input.date, input.categoryId, input.paymentMethodId, userId)
  }

  /** `create(userId, input)`: inserts the row under the next key and returns it. */
  method Create(table: TransactionTable, userId: nat, input: TransactionInput) returns (t: Transaction)
    requires table.Valid()
    modifies table
    ensures table.Valid()
    ensures t == NewTransaction(old(table.nextId), userId, input)
    ensures table.rows == old(table.rows)[t.id := t] && table.nextId == old(table.nextId) + 1
  {
    t := NewTransaction(table.nextId, userId, input);
    table.rows := table.rows[t.id := t];
    table.nextId := table.nextId + 1;
  }

  /** A created transaction joins its owner's listing, and every other listing stays as it was. */
  lemma CreateListsNewRow(rows: map<nat, Transaction>, nextId: nat, userId: nat, input: TransactionInput, viewer: nat)
    requires KeyedBelow(rows, TransactionId, nextId)
    ensures
      var t := NewTransaction(nextId, userId, input);
      multiset(FindAll(rows[nextId := t], nextId + 1, viewer)) ==
        multiset(FindAll(rows, nextId, viewer)) + (if viewer == userId then multiset{t} else multiset{})
  {
    var t := NewTransaction(nextId, userId, input);
    OwnedAfterInsert(rows, nextId, TransactionId, TransactionOwner, t, viewer);
  }

  /** `deleteById(userId, id)`: deletes the row only when the user owns it, and answers the count. */
  method DeleteById(table: TransactionTable, userId: nat, transactionId: nat) returns (count: nat)
    requires table.Valid()
    modifies table
    ensures table.Valid()
    ensures count == DeletedCount(old(table.rows), TransactionOwner, userId, transactionId)
    ensures table.rows == DeleteOwned(old(table.rows), TransactionOwner, userId, transactionId)
    ensures table.nextId == old(table.nextId)
  {
    count := DeletedCount(table.rows, TransactionOwner, userId, transactionId);
    table.rows := DeleteOwned(table.rows, TransactionOwner, userId, transactionId);
  }

  /**
   * After `deleteById(owner, id)` the owner's listing loses exactly the row with that id,
   * and nobody else's listing changes; in particular nobody can delete another user's row.
   */
  lemma DeleteListing(rows: map<nat, Transaction>, nextId: nat, owner: nat, id: nat, viewer: nat)
    requires KeyedBelow(rows, TransactionId, nextId)
    ensures viewer != owner ==>
      FindAll(DeleteOwned(rows, TransactionOwner, owner, id), nextId, viewer) == FindAll(rows, nextId, viewer)
    ensures forall t :: t in FindAll(DeleteOwned(rows, TransactionOwner, owner, id), nextId, viewer) <==>
      t in FindAll(rows, nextId, viewer) && !(t.id == id && t.userId == owner)
  {
    var after := DeleteOwned(rows, TransactionOwner, owner, id);
    OwnedAfterDelete(rows, nextId, TransactionId, TransactionOwner, owner, id, viewer);
    forall t ensures t in FindAll(after, nextId, viewer) <==> t in Owned(after, nextId, TransactionOwner, viewer) {
      assert t in FindAll(after, nextId, viewer) <==> t in multiset(Owned(after, nextId, TransactionOwner, viewer));
    }
    forall t ensures t in FindAll(rows, nextId, viewer) <==> t in Owned(rows, nextId, TransactionOwner, viewer) {
      assert t in FindAll(rows, nextId, viewer) <==> t in multiset(Owned(rows, nextId, TransactionOwner, viewer));
    }
  }

  // ---------------------------------------------------------------------------
  // totals

  /** What `getSummary` answers. */
  datatype Summary = Summary(balance: real, count: nat, income: real, expense: real)

  function Amount(t: Transaction): real { t.amount }

  /** `amount: { gt: 0 }`. */
  predicate IsIncome(t: Transaction) { t.amount > 0.0 }

  /** `amount: { lt: 0 }`. */
  predicate IsExpense(t: Transaction) { t.amount < 0.0 }

  function IncomePart(t: Transaction): real { Positive(t.amount) }
  function ExpensePart(t: Transaction): real { Negative(t.amount) }

  /** The three aggregates, re-expressed as sums of the income and expense parts of each row. */
  lemma {:induction false} AggregatesByParts(ts: seq<Transaction>)
    ensures SumOf(Where(ts, IsIncome), Amount) == SumOf(ts, IncomePart)
    ensures SumOf(Where(ts, IsExpense), Amount) == SumOf(ts, ExpensePart)
    ensures SumOf(ts, Amount) == SumOf(ts, IncomePart) + SumOf(ts, ExpensePart)
    ensures SumOf(ts, IncomePart) >= 0.0 && SumOf(ts, ExpensePart) <= 0.0
  {
    SumOfWhere(ts, IsIncome, Amount, IncomePart);
    SumOfWhere(ts, IsExpense, Amount, ExpensePart);
    SumOfSplit(ts, Amount, IncomePart, ExpensePart);
    SumOfNonNegative(ts, IncomePart);
    SumOfNonPositive(ts, ExpensePart);
  }

  /**
   * `getSummary(userId)`: the sum of all the user's amounts, their number, the sum of the
   * positive ones and the sum of the negative ones (an empty sum is 0). So the balance is
   * income plus expense, income is never negative and expense never positive.
   */
  function GetSummary(rows: map<nat, Transaction>, nextId: nat, userId: nat): (s: Summary)
    ensures s.balance == s.income + s.expense
    ensures s.income >= 0.0 && s.expense <= 0.0
    ensures s.count == |FindAll(rows, nextId, userId)|
    ensures s.income == SumOf(FindAll(rows, nextId, userId), IncomePart)
    ensures s.expense == SumOf(FindAll(rows, nextId, userId), ExpensePart)
    ensures FindAll(rows, nextId, userId) == [] ==> s == Summary(0.0, 0, 0.0, 0.0)
  {
    var owned := Owned(rows, nextId, TransactionOwner, userId);
    AggregatesByParts(owned);
    SumOfPermutation(owned, FindAll(rows, nextId, userId), IncomePart);
    SumOfPermutation(owned, FindAll(rows, nextId, userId), ExpensePart);
    assert |owned| == |multiset(owned)| == |multiset(FindAll(rows, nextId, userId))|;
    Summary(SumOf(owned, Amount), |owned|, SumOf(Where(owned, IsIncome), Amount), SumOf(Where(owned, IsExpense), Amount))
  }
}
