/** The records of the ledger: `models/Transaction.kt`, `models/Category.kt` and the report
    row `CategoryReportItem`. Amounts are whole dong, so they are integers here. */
module Models {

  datatype Option<T> = None | Some(value: T) {
    /** Kotlin's `?:` on a nullable value. */
    function GetOr(default: T): T {
      if Some? then value else default
    }
  }

  /** A ledger entry. `id` is 0 until the store assigns one; `category` refers to a
      category by its name, not by its id; `date` is the text the user picked. */
  datatype Transaction = Transaction(
    id: int,
    title: string,
    amount: int,
    category: string,
    date: string,
    isExpense: bool)

  /** A budget bucket. `spentAmount` is a cache of the aggregated total; `key` is present
      only on the built-in categories and never changes. */
  datatype Category = Category(
    id: int,
    name: string,
    allocatedAmount: int,
    spentAmount: int,
    isExpense: bool,
    key: Option<string>)

  /** One row of the per-category report. */
  datatype CategoryReportItem = CategoryReportItem(
    categoryName: string,
    totalAmount: int,
    transactionCount: int)

  /** Kotlin's `key.isNullOrEmpty()`. */
  predicate IsNullOrEmpty(key: Option<string>) {
    key.None? || key.value == ""
  }

  /** A built-in (seeded) category: one whose key is neither null nor empty. */
  predicate IsBuiltIn(c: Category) {
    !IsNullOrEmpty(c.key)
  }

  /** Kotlin's `m[k] ?: default` on a map. */
  function ValueOr(m: map<string, int>, k: string, default: int): int {
    if k in m then m[k] else default
  }

  /** The names of a list of categories, in order (`map { it.name }`). */
  function NamesOf(cs: seq<Category>): (r: seq<string>)
    ensures |r| == |cs|
    ensures forall i :: 0 <= i < |cs| ==> r[i] == cs[i].name
  {
    seq(|cs|, i requires 0 <= i < |cs| => cs[i].name)
  }
}
