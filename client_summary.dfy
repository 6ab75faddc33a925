/**
 * The client's `TransactionService.calculateSummary`: the dashboard's totals, computed in
 * the browser from the transactions the server listed.
 */
module ClientSummary {
  import opened Store
  import opened Money
  import TransactionService

  /** `{ income, expense, balance }`; here `expense` is a magnitude, never negative. */
  datatype DashboardSummary = DashboardSummary(balance: real, income: real, expense: real)

  /** What the client adds to `expense` for a transaction: `Math.abs` of an amount that is not positive. */
  function ClientExpensePart(t: Transaction): real {
    AbsNonPositive(t.amount)
  }

  /**
   * `calculateSummary(transactions)`: income sums the positive amounts, expense sums the
   * magnitudes of the others, and the balance is their difference.
   */
  method CalculateSummary(transactions: seq<Transaction>) returns (s: DashboardSummary)
    ensures s.income == SumOf(transactions, TransactionService.IncomePart)
    ensures s.expense == SumOf(transactions, ClientExpensePart)
    ensures s.balance == s.income - s.expense
    ensures s.balance == SumOf(transactions, TransactionService.Amount)
    ensures s.income >= 0.0 && s.expense >= 0.0
  {
    var income := 0.0;
    var expense := 0.0;
    var i := 0;
    while i < |transactions|
      invariant 0 <= i <= |transactions|
      invariant income == SumOf(transactions[..i], TransactionService.IncomePart)
      invariant expense == SumOf(transactions[..i], ClientExpensePart)
    {
      var t := transactions[i];
      if t.amount > 0.0 {
        income := income + t.amount;
      } else {
        expense := expense + Abs(t.amount);
      }
      assert transactions[..i + 1][..i] == transactions[..i];
      i := i + 1;
    }
    assert transactions[..i] == transactions;
    SumOfNonNegative(transactions, TransactionService.IncomePart);
    SumOfNonNegative(transactions, ClientExpensePart);
    SumOfSplit(transactions, TransactionService.Amount, TransactionService.IncomePart, TransactionService.ExpensePart);
    SumOfNegated(transactions, ClientExpensePart, TransactionService.ExpensePart);
    s := DashboardSummary(income - expense, income, expense);
  }

  /**
   * The client's totals over the server's listing agree with the server's summary: the
   * same income and balance, and the server's (negative) expense with its sign flipped. The
   * order of the listing does not matter.
   */
  lemma {:induction false} ClientAgreesWithServer(rows: map<nat, Transaction>, nextId: nat, userId: nat, listed: seq<Transaction>)
    requires multiset(listed) == multiset(TransactionService.FindAll(rows, nextId, userId))
    ensures var server := TransactionService.GetSummary(rows, nextId, userId);
      SumOf(listed, TransactionService.IncomePart) == server.income &&
      SumOf(listed, ClientExpensePart) == -server.expense &&
      SumOf(listed, TransactionService.IncomePart) - SumOf(listed, ClientExpensePart) == server.balance
  {
    var found := TransactionService.FindAll(rows, nextId, userId);
    SumOfPermutation(listed, found, TransactionService.IncomePart);
    SumOfPermutation(listed, found, TransactionService.ExpensePart);
    SumOfNegated(listed, ClientExpensePart, TransactionService.ExpensePart);
  }

  /** Reordering the transactions does not change the totals. */
  lemma SummaryOrderInvariant(ts: seq<Transaction>, us: seq<Transaction>)
    requires multiset(ts) == multiset(us)
    ensures SumOf(ts, TransactionService.IncomePart) == SumOf(us, TransactionService.IncomePart)
    ensures SumOf(ts, ClientExpensePart) == SumOf(us, ClientExpensePart)
  {
    SumOfPermutation(ts, us, TransactionService.IncomePart);
    SumOfPermutation(ts, us, ClientExpensePart);
  }
}
