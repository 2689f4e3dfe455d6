/** `storage/TransactionStorage.kt`: the legacy per-category sum over a list of transactions
    (loading the list from preferences is I/O and is not modelled; the list is a parameter). */
module TransactionStorage {
  import opened Models
  import opened Aggregation

  /** `calculateCategorySpending`: one `forEach` pass, bumping `spendingMap[category]`
      by every amount, expense and income alike. */
  method CalculateCategorySpending(transactions: seq<Transaction>) returns (spendingMap: map<string, int>)
    ensures spendingMap == Totals(transactions)
  {
    spendingMap := map[];
    FoldStart(transactions);
    var i := 0;
    while i < |transactions|
      invariant 0 <= i <= |transactions|
      invariant spendingMap == Totals(transactions[..i])
    {
      var t := transactions[i];
      FoldStep(transactions, i);
      var spent := ValueOr(spendingMap, t.category, 0);
      spendingMap := spendingMap[t.category := spent + t.amount];
      i := i + 1;
    }
    assert transactions[..i] == transactions;
  }

  lemma FoldStart(ts: seq<Transaction>)
    ensures Totals(ts[..0]) == map[]
  {
    assert ts[..0] == [];
    EmptyListEmptyMap();
  }

  /** One pass of the loop body keeps `spendingMap == Totals(ts[..i])`. */
  lemma FoldStep(ts: seq<Transaction>, i: nat)
    requires i < |ts|
    ensures Totals(ts[..i + 1])
            == Totals(ts[..i])[ts[i].category := ValueOr(Totals(ts[..i]), ts[i].category, 0) + ts[i].amount]
  {
    assert ts[..i + 1] == ts[..i] + [ts[i]];
    TotalsAppend(ts[..i], ts[i]);
  }

  /** A category is a key exactly when some transaction names it, and its value is the sum
      of the amounts of the transactions naming it. */
  lemma KeysAreNamedCategories(ts: seq<Transaction>, c: string)
    ensures c in Totals(ts) <==> exists t :: t in ts && t.category == c
    ensures c in Totals(ts) ==> Totals(ts)[c] == SumFor(ts, c, Amount)
  {
    InGroups(ts, c);
  }

  /** The map of an empty list is empty. */
  lemma EmptyListEmptyMap()
    ensures Totals([]) == map[]
  {
    assert Groups([]) == [];
  }
}
