/** `DatabaseHelper.kt`: the SQLite database as an in-memory store of two tables, kept in
    row (insertion) order. Each `AUTOINCREMENT` counter is the largest id handed out. */
module Store {
  import opened Models
  import opened Seqs
  import opened Text
  import opened Aggregation

  /** What `update()` on the categories table yields: the number of rows changed, or a
      constraint failure (a thrown `SQLiteConstraintException`) when the new name is
      already taken by another row. */
  datatype UpdateOutcome = Changed(rows: nat) | Rejected

  /** `ORDER BY name ASC`. */
  predicate NameOrder(a: Category, b: Category) {
    LexLeq(a.name, b.name)
  }

  /** `ORDER BY date DESC`, on the raw date text. */
  predicate LaterDateText(a: Transaction, b: Transaction) {
    LexLeq(b.date, a.date)
  }

  lemma NameOrderIsTotalPreorder()
    ensures TotalPreorder(NameOrder)
  {
    forall a: Category, b: Category ensures NameOrder(a, b) || NameOrder(b, a) {
      LexLeqTotal(a.name, b.name);
    }
    forall a: Category, b: Category, c: Category | NameOrder(a, b) && NameOrder(b, c)
      ensures NameOrder(a, c)
    {
      LexLeqTransitive(a.name, b.name, c.name);
    }
  }

  lemma LaterDateTextIsTotalPreorder()
    ensures TotalPreorder(LaterDateText)
  {
    forall a: Transaction, b: Transaction ensures LaterDateText(a, b) || LaterDateText(b, a) {
      LexLeqTotal(a.date, b.date);
    }
    forall a: Transaction, b: Transaction, c: Transaction | LaterDateText(a, b) && LaterDateText(b, c)
      ensures LaterDateText(a, c)
    {
      LexLeqTransitive(c.date, b.date, a.date);
    }
  }

  /** `WHERE is_expense_category = ?`. */
  function HasType(isExpense: bool): Category -> bool {
    (c: Category) => c.isExpense == isExpense
  }

  /** `WHERE id != ?`: what survives a delete by id. */
  function IdOtherThan(id: int): Transaction -> bool {
    (t: Transaction) => t.id != id
  }

  /** `WHERE name != ?`: what survives a delete by name. */
  function NameOtherThan(name: string): Category -> bool {
    (c: Category) => c.name != name
  }

  /** `UPDATE transactions SET category = to WHERE category = from`. */
  function Migrated(ts: seq<Transaction>, from: string, to: string): (r: seq<Transaction>)
    ensures |r| == |ts|
    ensures forall i :: 0 <= i < |ts| && ts[i].category == from ==> r[i] == ts[i].(category := to)
    ensures forall i :: 0 <= i < |ts| && ts[i].category != from ==> r[i] == ts[i]
  {
    if ts == [] then []
    else
      var last := ts[|ts| - 1];
      Migrated(ts[..|ts| - 1], from, to) + [if last.category == from then last.(category := to) else last]
  }

  /** Migrating hands the whole sum of `from` over to `to` and leaves `from` with nothing. */
  lemma {:induction false} MigratedSums(ts: seq<Transaction>, from: string, to: string, m: Measure)
    requires from != to
    ensures SumFor(Migrated(ts, from, to), to, m) == SumFor(ts, to, m) + SumFor(ts, from, m)
    ensures SumFor(Migrated(ts, from, to), from, m) == 0
  {
    if ts != [] {
      var p := ts[..|ts| - 1];
      var last := ts[|ts| - 1];
      var mp := Migrated(p, from, to);
      MigratedSums(p, from, to, m);
      var moved := if last.category == from then last.(category := to) else last;
      assert Migrated(ts, from, to) == mp + [moved];
      SumForAppend(mp, moved, to, m);
      SumForAppend(mp, moved, from, m);
      assert ts == p + [last];
      SumForAppend(p, last, to, m);
      SumForAppend(p, last, from, m);
    }
  }

  /** The cursor loop of `calculateCategorySpending`/`calculateCategoryIncome` over the rows
      of `SELECT category, SUM(amount) … GROUP BY category`: `map[category] = total` for every
      row. SQL leaves the group order open; the rows are taken in first-occurrence order, and
      the map built from them does not depend on it. */
  method ReadGroupedSums(ts: seq<Transaction>) returns (sums: map<string, int>)
    ensures sums == Totals(ts)
  {
    var rows := GroupSums(ts);
    var g := Groups(ts);
    sums := map[];
    var i := 0;
    while i < |rows|
      invariant 0 <= i <= |rows|
      invariant sums == map c | c in g[..i] :: SumFor(ts, c, Amount)
    {
      GroupedSumsStep(ts, sums, i);
      sums := sums[rows[i].0 := rows[i].1];
      i := i + 1;
    }
    assert g[..i] == g;
  }

  /** One cursor row adds its category's sum to the map of the rows before it. */
  lemma GroupedSumsStep(ts: seq<Transaction>, sums: map<string, int>, i: int)
    requires 0 <= i < |Groups(ts)|
    requires sums == map c | c in Groups(ts)[..i] :: SumFor(ts, c, Amount)
    ensures sums[Groups(ts)[i] := SumFor(ts, Groups(ts)[i], Amount)]
            == map c | c in Groups(ts)[..i + 1] :: SumFor(ts, c, Amount)
  {
    assert Groups(ts)[..i + 1] == Groups(ts)[..i] + [Groups(ts)[i]];
  }

  /** The spending map has a key exactly for the categories of expense rows, valued at the
      sum of their amounts. */
  lemma SpendingMapKeys(ts: seq<Transaction>, c: string)
    ensures c in Totals(Select(ts, Expense)) <==> exists t :: t in ts && t.isExpense && t.category == c
    ensures c in Totals(Select(ts, Expense)) ==> Totals(Select(ts, Expense))[c] == SumFor(Select(ts, Expense), c, Amount)
  {
    InGroups(Select(ts, Expense), c);
    forall t | t in ts ensures t in Select(ts, Expense) <==> t.isExpense {
      InSelect(ts, Expense, t);
    }
    forall t | t in Select(ts, Expense) ensures t in ts {
      InSelect(ts, Expense, t);
    }
  }

  /** The income map has a key exactly for the categories of income rows. */
  lemma IncomeMapKeys(ts: seq<Transaction>, c: string)
    ensures c in Totals(Select(ts, Income)) <==> exists t :: t in ts && !t.isExpense && t.category == c
  {
    InGroups(Select(ts, Income), c);
    forall t | t in ts ensures t in Select(ts, Income) <==> !t.isExpense {
      InSelect(ts, Income, t);
    }
    forall t | t in Select(ts, Income) ensures t in ts {
      InSelect(ts, Income, t);
    }
  }

  /** An income row leaves the spending map as it is. */
  lemma IncomeRowIgnoredBySpending(ts: seq<Transaction>, t: Transaction)
    requires !t.isExpense
    ensures Totals(Select(ts + [t], Expense)) == Totals(Select(ts, Expense))
  {
    SelectUnchanged(ts, t, Expense);
  }

  /** An expense row leaves the income map as it is. */
  lemma ExpenseRowIgnoredByIncome(ts: seq<Transaction>, t: Transaction)
    requires t.isExpense
    ensures Totals(Select(ts + [t], Income)) == Totals(Select(ts, Income))
  {
    SelectUnchanged(ts, t, Income);
  }

  /** Ordering by the date text is not chronological: `"31 Dec 2025"` sorts ahead of the
      later `"01 Jan 2026"`, because `'3'` follows `'0'`. */
  lemma DateTextOrderIsNotChronological(a: Transaction, b: Transaction)
    requires a.date == "01 Jan 2026" && b.date == "31 Dec 2025"
    ensures Sort([a, b], LaterDateText) == [b, a]
  {
    assert !LaterDateText(a, b);
    assert LaterDateText(b, a);
    assert Sort([b], LaterDateText) == [b];
    assert [a, b][1..] == [b];
  }

  /** The rows after `UPDATE … WHERE id = ?`: the row with that id takes every field of `t`
      but its id; every other row is kept. */
  function Rewritten(ts: seq<Transaction>, id: int, t: Transaction): (r: seq<Transaction>)
    ensures |r| == |ts|
    ensures forall i :: 0 <= i < |ts| ==> r[i] == if ts[i].id == id then t.(id := id) else ts[i]
  {
    seq(|ts|, i requires 0 <= i < |ts| => if ts[i].id == id then t.(id := id) else ts[i])
  }

  /** The rows other than the one rewritten come through in order. */
  lemma {:induction false} RewrittenKeepsOthers(ts: seq<Transaction>, id: int, t: Transaction)
    ensures Filter(Rewritten(ts, id, t), IdOtherThan(id)) == Filter(ts, IdOtherThan(id))
  {
    if ts != [] {
      RewrittenKeepsOthers(ts[1..], id, t);
      assert Rewritten(ts, id, t)[1..] == Rewritten(ts[1..], id, t);
    }
  }

  lemma RewrittenHits(ts: seq<Transaction>, id: int, t: Transaction)
    ensures (exists r :: r in ts && r.id == id) ==> t.(id := id) in Rewritten(ts, id, t)
  {
    if exists r :: r in ts && r.id == id {
      var r :| r in ts && r.id == id;
      var i :| 0 <= i < |ts| && ts[i] == r;
      assert Rewritten(ts, id, t)[i] == t.(id := id);
    }
  }

  lemma RewrittenMisses(ts: seq<Transaction>, id: int, t: Transaction)
    ensures (forall r :: r in ts ==> r.id != id) ==> Rewritten(ts, id, t) == ts
  {
    if forall r :: r in ts ==> r.id != id {
      forall i | 0 <= i < |ts| ensures Rewritten(ts, id, t)[i] == ts[i] {
        assert ts[i] in ts;
      }
    }
  }

  lemma RewrittenValid(ts: seq<Transaction>, id: int, t: Transaction, cs: seq<Category>, lt: int, lc: int)
    requires TablesValid(ts, cs, lt, lc)
    ensures TablesValid(Rewritten(ts, id, t), cs, lt, lc)
  {
    var w := Rewritten(ts, id, t);
    assert forall i :: 0 <= i < |ts| ==> w[i].id == ts[i].id;
  }

  /** An update by id keeps every row's id and the order and contents of the other rows;
      the new contents appear exactly when some row has the id, and otherwise nothing
      changes; a valid table stays valid. */
  lemma RewrittenFacts(ts: seq<Transaction>, id: int, t: Transaction, cs: seq<Category>, lt: int, lc: int)
    ensures forall i :: 0 <= i < |ts| ==> Rewritten(ts, id, t)[i].id == ts[i].id
    ensures Filter(Rewritten(ts, id, t), IdOtherThan(id)) == Filter(ts, IdOtherThan(id))
    ensures (exists r :: r in ts && r.id == id) ==> t.(id := id) in Rewritten(ts, id, t)
    ensures (forall r :: r in ts ==> r.id != id) ==> Rewritten(ts, id, t) == ts
    ensures TablesValid(ts, cs, lt, lc) ==> TablesValid(Rewritten(ts, id, t), cs, lt, lc)
  {
    RewrittenKeepsOthers(ts, id, t);
    RewrittenHits(ts, id, t);
    RewrittenMisses(ts, id, t);
    if TablesValid(ts, cs, lt, lc) {
      RewrittenValid(ts, id, t, cs, lt, lc);
    }
  }

  /** Ids are unique and within the counter; category names are unique (`name TEXT UNIQUE`). */
  predicate TablesValid(ts: seq<Transaction>, cs: seq<Category>, lastTransactionId: int, lastCategoryId: int) {
    && (forall i, j :: 0 <= i < j < |ts| ==> ts[i].id != ts[j].id)
    && 0 <= lastTransactionId && 0 <= lastCategoryId
    && (forall i :: 0 <= i < |ts| ==> 0 < ts[i].id <= lastTransactionId)
    && (forall i, j :: 0 <= i < j < |cs| ==> cs[i].id != cs[j].id && cs[i].name != cs[j].name)
    && (forall i :: 0 <= i < |cs| ==> 0 < cs[i].id <= lastCategoryId)
  }

  class LedgerStore {
    var transactions: seq<Transaction>
    var categories: seq<Category>
    var lastTransactionId: int
    var lastCategoryId: int

    predicate Valid()
      reads this
    {
      TablesValid(transactions, categories, lastTransactionId, lastCategoryId)
    }

    /** A freshly created database: both tables empty. */
    constructor ()
      ensures Valid()
      ensures transactions == [] && categories == []
    {
      transactions := [];
      categories := [];
      lastTransactionId := 0;
      lastCategoryId := 0;
    }

    /** `getAllTransactions`: every row, newest date text first. */
    function GetAllTransactions(): (r: seq<Transaction>)
      reads this
      ensures multiset(r) == multiset(transactions)
      ensures Sorted(r, LaterDateText)
    {
      LaterDateTextIsTotalPreorder();
      SortSorted(transactions, LaterDateText);
      Sort(transactions, LaterDateText)
    }

    /** `insertTransaction`: appends the row under a fresh id, ignoring `t.id`. */
    method InsertTransaction(t: Transaction) returns (id: int)
      requires Valid()
      modifies this
      ensures Valid()
      ensures id == old(lastTransactionId) + 1 && id == lastTransactionId
      ensures id > 0 && forall r :: r in old(transactions) ==> r.id != id
      ensures transactions == old(transactions) + [t.(id := id)]
      ensures categories == old(categories) && lastCategoryId == old(lastCategoryId)
    {
      lastTransactionId := lastTransactionId + 1;
      id := lastTransactionId;
      transactions := transactions + [t.(id := id)];
    }

    /** `deleteTransaction`: removes the row with that id, if any. */
    method DeleteTransaction(id: int)
      requires Valid()
      modifies this
      ensures Valid()
      ensures transactions == Filter(old(transactions), IdOtherThan(id))
      ensures forall r :: r in transactions <==> r in old(transactions) && r.id != id
      ensures categories == old(categories)
      ensures lastTransactionId == old(lastTransactionId) && lastCategoryId == old(lastCategoryId)
    {
      FilterKeepsTransactionsValid(transactions, IdOtherThan(id), categories, lastTransactionId, lastCategoryId);
      transactions := Filter(transactions, IdOtherThan(id));
    }

    /** `updateTransaction`: the row with that id takes every field of `t` but keeps its id. */
    method UpdateTransaction(id: int, t: Transaction)
      requires Valid()
      modifies this
      ensures Valid()
      ensures transactions == Rewritten(old(transactions), id, t)
      ensures categories == old(categories)
      ensures lastTransactionId == old(lastTransactionId) && lastCategoryId == old(lastCategoryId)
    {
      transactions := Rewritten(transactions, id, t);
    }

    /** `migrateTransactions`: renames the category of exactly the rows in `from`. */
    method MigrateTransactions(from: string, to: string)
      requires Valid()
      modifies this
      ensures Valid()
      ensures transactions == Migrated(old(transactions), from, to)
      ensures categories == old(categories)
      ensures lastTransactionId == old(lastTransactionId) && lastCategoryId == old(lastCategoryId)
    {
      transactions := Migrated(transactions, from, to);
    }

    /** `insertCategory`: -1 and no change when the name is taken; otherwise the row is
        appended under a fresh id. */
    method InsertCategory(c: Category) returns (id: int)
      requires Valid()
      modifies this
      ensures Valid()
      ensures c.name in NamesOf(old(categories)) ==>
                id == -1 && categories == old(categories) && lastCategoryId == old(lastCategoryId)
      ensures c.name !in NamesOf(old(categories)) ==>
                && id > 0 && id == old(lastCategoryId) + 1 && id == lastCategoryId && (forall r :: r in old(categories) ==> r.id != id)
                && categories == old(categories) + [c.(id := id)]
      ensures transactions == old(transactions) && lastTransactionId == old(lastTransactionId)
    {
      if c.name in NamesOf(categories) {
        id := -1;
      } else {
        lastCategoryId := lastCategoryId + 1;
        id := lastCategoryId;
        assert forall i :: 0 <= i < |categories| ==> categories[i].name != c.name by {
          forall i | 0 <= i < |categories| ensures categories[i].name != c.name {
            assert NamesOf(categories)[i] == categories[i].name;
          }
        }
        categories := categories + [c.(id := id)];
      }
    }

    /** `getAllCategories`: every row, by name ascending. */
    function GetAllCategories(): (r: seq<Category>)
      reads this
      ensures multiset(r) == multiset(categories)
      ensures Sorted(r, NameOrder)
    {
      NameOrderIsTotalPreorder();
      SortSorted(categories, NameOrder);
      Sort(categories, NameOrder)
    }

    /** `deleteCategory`: removes the rows with that name; transactions are not touched. */
    method DeleteCategory(name: string)
      requires Valid()
      modifies this
      ensures Valid()
      ensures categories == Filter(old(categories), NameOtherThan(name))
      ensures forall c :: c in categories <==> c in old(categories) && c.name != name
      ensures transactions == old(transactions)
      ensures lastTransactionId == old(lastTransactionId) && lastCategoryId == old(lastCategoryId)
    {
      FilterKeepsCategoriesValid(transactions, categories, NameOtherThan(name), lastTransactionId, lastCategoryId);
      categories := Filter(categories, NameOtherThan(name));
    }

    /** `calculateCategorySpending`: the grouped sums of the expense rows. */
    method CalculateCategorySpending() returns (spendingMap: map<string, int>)
      ensures spendingMap == Totals(Select(transactions, Expense))
    {
      spendingMap := ReadGroupedSums(Select(transactions, Expense));
    }

    /** `calculateCategoryIncome`: the grouped sums of the income rows. */
    method CalculateCategoryIncome() returns (incomeMap: map<string, int>)
      ensures incomeMap == Totals(Select(transactions, Income))
    {
      incomeMap := ReadGroupedSums(Select(transactions, Income));
    }

    /** `updateCategory`: matched by id; rewrites name, budget, spent and type, never the key. */
    method UpdateCategory(c: Category) returns (outcome: UpdateOutcome)
      requires Valid()
      modifies this
      ensures Valid()
      ensures |categories| == |old(categories)|
      ensures forall i :: 0 <= i < |categories| ==> categories[i].id == old(categories)[i].id && categories[i].key == old(categories)[i].key
      ensures outcome == Changed(0) <==> forall i :: 0 <= i < |old(categories)| ==> old(categories)[i].id != c.id
      ensures outcome == Rejected <==>
                (exists i :: 0 <= i < |old(categories)| && old(categories)[i].id == c.id)
                && (exists j :: 0 <= j < |old(categories)| && old(categories)[j].id != c.id && old(categories)[j].name == c.name)
      ensures outcome != Changed(1) ==> categories == old(categories)
      ensures outcome == Changed(1) ==> forall i :: 0 <= i < |categories| ==>
                categories[i] == if old(categories)[i].id == c.id then c.(key := old(categories)[i].key) else old(categories)[i]
      ensures outcome == Changed(0) || outcome == Changed(1) || outcome == Rejected
      ensures transactions == old(transactions)
      ensures lastTransactionId == old(lastTransactionId) && lastCategoryId == old(lastCategoryId)
    {
      var matched := exists i | 0 <= i < |categories| :: categories[i].id == c.id;
      var taken := exists j | 0 <= j < |categories| :: categories[j].id != c.id && categories[j].name == c.name;
      if !matched {
        outcome := Changed(0);
      } else if taken {
        outcome := Rejected;
      } else {
        categories := seq(|categories|, i requires 0 <= i < |categories| reads this =>
          if categories[i].id == c.id then c.(key := categories[i].key) else categories[i]);
        outcome := Changed(1);
      }
    }

    /** `getCategoriesByType`: the rows of one type, by name ascending. */
    function GetCategoriesByType(isExpense: bool): (r: seq<Category>)
      reads this
      ensures r == Filter(GetAllCategories(), HasType(isExpense))
      ensures forall c :: c in r <==> c in categories && c.isExpense == isExpense
    {
      ByTypeOrder(categories, isExpense);
      Sort(Filter(categories, HasType(isExpense)), NameOrder)
    }
  }

  /** Sorting the rows of one type is picking that type out of all rows sorted. */
  lemma ByTypeOrder(cs: seq<Category>, isExpense: bool)
    ensures Sort(Filter(cs, HasType(isExpense)), NameOrder) == Filter(Sort(cs, NameOrder), HasType(isExpense))
    ensures forall c :: c in Sort(Filter(cs, HasType(isExpense)), NameOrder) <==> c in cs && c.isExpense == isExpense
  {
    NameOrderIsTotalPreorder();
    SortFilter(cs, NameOrder, HasType(isExpense));
    var f := Filter(cs, HasType(isExpense));
    assert forall c :: c in Sort(f, NameOrder) <==> c in multiset(Sort(f, NameOrder));
  }

  predicate DifferentIds(a: Transaction, b: Transaction) {
    a.id != b.id
  }

  predicate DifferentIdsAndNames(a: Category, b: Category) {
    a.id != b.id && a.name != b.name
  }

  lemma FilterKeepsTransactionsValid(ts: seq<Transaction>, keep: Transaction -> bool, cs: seq<Category>, lt: int, lc: int)
    requires TablesValid(ts, cs, lt, lc)
    ensures TablesValid(Filter(ts, keep), cs, lt, lc)
  {
    assert Sorted(ts, DifferentIds);
    FilterSorted(ts, keep, DifferentIds);
    var f := Filter(ts, keep);
    forall i | 0 <= i < |f| ensures 0 < f[i].id <= lt {
      assert f[i] in f;
    }
  }

  lemma FilterKeepsCategoriesValid(ts: seq<Transaction>, cs: seq<Category>, keep: Category -> bool, lt: int, lc: int)
    requires TablesValid(ts, cs, lt, lc)
    ensures TablesValid(ts, Filter(cs, keep), lt, lc)
  {
    assert Sorted(cs, DifferentIdsAndNames);
    FilterSorted(cs, keep, DifferentIdsAndNames);
    var f := Filter(cs, keep);
    forall i | 0 <= i < |f| ensures 0 < f[i].id <= lc {
      assert f[i] in f;
    }
  }
}
