/** `CategoryAdapter.kt`: what one row of the category list shows. An expense category
    shows its budget, what was spent, what remains and a progress bar; an income category
    shows only what came in. */
module BudgetView {
  import opened Models
  import opened Numbers

  /** The progress divisor: the budget when there is one, otherwise 1, so that there is
      never a division by zero. */
  function Divisor(c: Category): (d: int)
    ensures d > 0
    ensures d == c.allocatedAmount || (c.allocatedAmount <= 0 && d == 1)
  {
    if c.allocatedAmount > 0 then c.allocatedAmount else 1
  }

  /** What is left of the budget; below zero once the category is overspent. */
  function Remaining(c: Category): int {
    c.allocatedAmount - c.spentAmount
  }

  /** The bar's value: `(spent / divisor * 100).toInt()`, capped at 100 from above only. */
  function Progress(c: Category): int {
    var p := PercentToInt(c.spentAmount, Divisor(c));
    if p > 100 then 100 else p
  }

  /** One row of the list. */
  datatype CategoryView =
    | ExpenseView(name: string, budget: int, spent: int, remaining: int, progress: int)
    | IncomeView(name: string, received: int)

  function View(c: Category): CategoryView {
    if c.isExpense then
      ExpenseView(c.name, c.allocatedAmount, c.spentAmount, Remaining(c), Progress(c))
    else
      IncomeView(c.name, c.spentAmount)
  }

  /** More spent on the same budget never moves the bar back. */
  lemma ProgressMonotone(c: Category, spent: int)
    requires c.spentAmount <= spent
    ensures Progress(c) <= Progress(c.(spentAmount := spent))
  {
    TruncDivMonotone(c.spentAmount * 100, spent * 100, Divisor(c));
  }

  /** The bar never passes 100 and never goes below zero for a non-negative total; with a
      budget it reads 100 exactly when the budget is used up, and otherwise the whole
      per-cent of the budget spent, rounded down. Without a budget any money spent fills the
      bar. A negative total is not raised to zero. */
  lemma ProgressFacts(c: Category)
    ensures Progress(c) <= 100
    ensures c.spentAmount >= 0 ==> Progress(c) >= 0
    ensures c.spentAmount < 0 ==> Progress(c) <= 0
    ensures c.allocatedAmount > 0 && c.spentAmount >= 0 ==>
              (Progress(c) == 100 <==> c.spentAmount >= c.allocatedAmount)
    ensures c.allocatedAmount > 0 && 0 <= c.spentAmount < c.allocatedAmount ==>
              Progress(c) * c.allocatedAmount <= c.spentAmount * 100 < (Progress(c) + 1) * c.allocatedAmount
    ensures c.allocatedAmount <= 0 ==>
              (c.spentAmount > 0 ==> Progress(c) == 100) && (c.spentAmount == 0 ==> Progress(c) == 0)
  {
    var d, n := Divisor(c), c.spentAmount * 100;
    if c.spentAmount >= 0 {
      DivAtLeast(n, d, 0);
      if c.spentAmount >= d {
        DivAtLeast(n, d, 100);
      } else {
        DivBetween(n, d, 0, 100);
        var q := n / d;
        assert n == q * d + n % d;
      }
    } else {
      DivAtLeast(-n, d, 0);
    }
  }

  /** With a budget and a non-negative total, the row shows nothing left (or a deficit)
      exactly when the bar is full. */
  lemma RemainingFacts(c: Category)
    ensures Remaining(c) + c.spentAmount == c.allocatedAmount
    ensures Remaining(c) < 0 <==> c.spentAmount > c.allocatedAmount
    ensures c.allocatedAmount > 0 && c.spentAmount >= 0 ==> (Remaining(c) <= 0 <==> Progress(c) == 100)
  {
    ProgressFacts(c);
  }

  /** An expense row carries the budget, spent, remaining and progress figures; an income
      row only the name and the total received. */
  lemma ViewFacts(c: Category)
    ensures View(c).ExpenseView? <==> c.isExpense
    ensures View(c).name == c.name
    ensures View(c).ExpenseView? ==>
              && View(c).spent == c.spentAmount && View(c).budget == c.allocatedAmount
              && View(c).remaining + View(c).spent == View(c).budget
              && View(c).progress == Progress(c) <= 100
    ensures View(c).IncomeView? ==> View(c).received == c.spentAmount
  {
    ProgressFacts(c);
  }
}
