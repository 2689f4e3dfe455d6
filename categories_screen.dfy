/** `CategoriesFragment.kt`: the displayed category list with its recomputed totals, the
    add-category dialog and the delete rule for user and built-in categories. */
module CategoriesScreen {
  import opened Models
  import opened Seqs
  import opened Text
  import opened Aggregation
  import opened Store

  /** The total a category shows: expense categories read the expense map, income
      categories the income map, 0 when the name is absent. */
  function Synced(c: Category, spendingMap: map<string, int>, incomeMap: map<string, int>): Category {
    c.(spentAmount := if c.isExpense then ValueOr(spendingMap, c.name, 0) else ValueOr(incomeMap, c.name, 0))
  }

  /** The filter of the displayed list: user categories (no key), or a budget, or money. */
  predicate IsActive(c: Category) {
    IsNullOrEmpty(c.key) || c.allocatedAmount > 0 || c.spentAmount > 0
  }

  /** A synced category's total is the sum of the transactions of its own type with its name;
      only the spent total changes. */
  lemma SyncedValue(c: Category, ts: seq<Transaction>)
    ensures Synced(c, Totals(Select(ts, Expense)), Totals(Select(ts, Income))).spentAmount
            == SumFor(Select(ts, if c.isExpense then Expense else Income), c.name, Amount)
    ensures Synced(c, Totals(Select(ts, Expense)), Totals(Select(ts, Income)))
            == c.(spentAmount := SumFor(Select(ts, if c.isExpense then Expense else Income), c.name, Amount))
  {
    var e := Select(ts, if c.isExpense then Expense else Income);
    if c.name !in Groups(e) {
      SumForAbsent(e, c.name, Amount);
    }
  }

  /** User categories are always shown; a built-in one with no budget and no transaction of
      its type under its name is hidden. */
  lemma ActiveCategories(c: Category, ts: seq<Transaction>)
    ensures !IsBuiltIn(c) ==> IsActive(Synced(c, Totals(Select(ts, Expense)), Totals(Select(ts, Income))))
    ensures IsBuiltIn(c) && c.allocatedAmount <= 0
            && (forall t :: t in ts && t.isExpense == c.isExpense ==> t.category != c.name)
            ==> !IsActive(Synced(c, Totals(Select(ts, Expense)), Totals(Select(ts, Income))))
  {
    var e := Select(ts, if c.isExpense then Expense else Income);
    SyncedValue(c, ts);
    if forall t :: t in ts && t.isExpense == c.isExpense ==> t.category != c.name {
      forall t | t in e ensures t.category != c.name {
        InSelect(ts, if c.isExpense then Expense else Income, t);
      }
      InGroups(e, c.name);
      SumForAbsent(e, c.name, Amount);
    }
  }

  /** The outcome of the add dialog. */
  datatype AddOutcome =
    | Invalid     // an empty name, or an expense budget that does not parse
    | Duplicate   // `insertCategory` returned -1
    | Added(id: int)

  /** The category the dialog builds: trimmed name, budget 0 for income, nothing spent, no
      key. */
  function NewCategory(name: string, isExpense: bool, budget: int): Category {
    Category(0, Trim(name), if isExpense then budget else 0, 0, isExpense, None)
  }

  class CategoriesScreen {
    /** The displayed list. */
    var categories: seq<Category>
    const store: LedgerStore

    predicate Valid()
      reads this, store
    {
      store.Valid()
    }

    constructor (store: LedgerStore)
      requires store.Valid()
      ensures Valid() && this.store == store && categories == []
    {
      this.store := store;
      categories := [];
    }

    /** `loadAndSyncCategories`: the listing by name, each entry given its recomputed total
        (on the screen's copy only; the store is not written), then the active ones. */
    method LoadAndSync()
      requires Valid()
      modifies this
      ensures Valid()
      ensures |categories| <= |store.categories|
      ensures categories == Filter(SyncedAll(store.GetAllCategories(), store.transactions), IsActive)
      ensures forall c :: c in categories <==> c in SyncedAll(store.GetAllCategories(), store.transactions) && IsActive(c)
    {
      categories := [];
      var allCategories := store.GetAllCategories();
      var spendingMap := store.CalculateCategorySpending();
      var incomeMap := store.CalculateCategoryIncome();
      for i := 0 to |allCategories|
        invariant |allCategories| == |store.GetAllCategories()|
        invariant forall k :: 0 <= k < |allCategories| ==>
                    allCategories[k] == if k < i then Synced(store.GetAllCategories()[k], spendingMap, incomeMap)
                                        else store.GetAllCategories()[k]
      {
        allCategories := allCategories[i := Synced(allCategories[i], spendingMap, incomeMap)];
      }
      assert allCategories == SyncedAll(store.GetAllCategories(), store.transactions);
      categories := Filter(allCategories, IsActive);
    }

    /** The add dialog's submit: a trimmed, non-empty name and, for an expense category, a
        budget that parsed; then the insert, and a reload only when it succeeded. */
    method AddCategory(name: string, isExpense: bool, budget: Option<int>) returns (outcome: AddOutcome)
      requires Valid()
      modifies this, store
      ensures Valid()
      ensures outcome == Invalid <==> Trim(name) == [] || (isExpense && budget.None?)
      ensures outcome == Invalid || outcome == Duplicate ==>
                store.categories == old(store.categories) && categories == old(categories)
      ensures outcome == Duplicate <==> outcome != Invalid && Trim(name) in NamesOf(old(store.categories))
      ensures outcome.Added? ==>
                && outcome.id > 0
                && store.categories == old(store.categories)
                   + [NewCategory(name, isExpense, if isExpense then budget.value else 0).(id := outcome.id)]
                && categories == Filter(SyncedAll(store.GetAllCategories(), store.transactions), IsActive)
      ensures outcome.Added? ==> outcome.id == old(store.lastCategoryId) + 1 == store.lastCategoryId
      ensures !outcome.Added? ==> store.lastCategoryId == old(store.lastCategoryId)
      ensures store.transactions == old(store.transactions)
      ensures store.lastTransactionId == old(store.lastTransactionId)
    {
      var trimmed := Trim(name);
      var allocation := if isExpense then budget else Some(0);
      if trimmed == [] || allocation.None? {
        return Invalid;
      }
      var c := Category(0, trimmed, allocation.value, 0, isExpense, None);
      assert c == NewCategory(name, isExpense, if isExpense then budget.value else 0);
      var result := store.InsertCategory(c);
      if result != -1 {
        LoadAndSync();
        outcome := Added(result);
      } else {
        outcome := Duplicate;
      }
    }

    /** Deleting a category (after the confirmation): a built-in one is refused with no
        change; a user one first hands its transactions to the fallback category, then its
        row is deleted by name, then the list is reloaded. */
    method DeleteCategory(category: Category, fallback: string) returns (refused: bool)
      requires Valid()
      modifies this, store
      ensures Valid()
      ensures refused <==> IsBuiltIn(category)
      ensures refused ==> store.transactions == old(store.transactions) && store.categories == old(store.categories)
                          && categories == old(categories)
      ensures !refused ==>
                && store.transactions == Migrated(old(store.transactions), category.name, fallback)
                && store.categories == Filter(old(store.categories), NameOtherThan(category.name))
                && categories == Filter(SyncedAll(store.GetAllCategories(), store.transactions), IsActive)
      ensures store.lastTransactionId == old(store.lastTransactionId)
      ensures store.lastCategoryId == old(store.lastCategoryId)
    {
      if !IsNullOrEmpty(category.key) {
        return true;
      }
      store.MigrateTransactions(category.name, fallback);
      store.DeleteCategory(category.name);
      LoadAndSync();
      refused := false;
    }
  }

  /** Every listed category with its recomputed total. */
  function SyncedAll(cs: seq<Category>, ts: seq<Transaction>): (r: seq<Category>)
    ensures |r| == |cs|
    ensures forall k :: 0 <= k < |cs| ==> r[k] == Synced(cs[k], Totals(Select(ts, Expense)), Totals(Select(ts, Income)))
  {
    seq(|cs|, k requires 0 <= k < |cs| => Synced(cs[k], Totals(Select(ts, Expense)), Totals(Select(ts, Income))))
  }

  /** The recomputed list keeps every category in its place, with only its total changed:
      the sum of the transactions of its own type under its name. */
  lemma SyncedAllValues(cs: seq<Category>, ts: seq<Transaction>)
    ensures |SyncedAll(cs, ts)| == |cs|
    ensures forall k :: 0 <= k < |cs| ==>
              SyncedAll(cs, ts)[k]
              == cs[k].(spentAmount := SumFor(Select(ts, if cs[k].isExpense then Expense else Income), cs[k].name, Amount))
  {
    forall k | 0 <= k < |cs|
      ensures SyncedAll(cs, ts)[k]
              == cs[k].(spentAmount := SumFor(Select(ts, if cs[k].isExpense then Expense else Income), cs[k].name, Amount))
    {
      SyncedValue(cs[k], ts);
    }
  }

  /** After deleting a user category, no transaction and no category has its name, and the
      fallback holds the migrated transactions' whole sum. */
  lemma DeletedNameIsGone(ts: seq<Transaction>, cs: seq<Category>, name: string, fallback: string)
    requires name != fallback
    ensures forall t :: t in Migrated(ts, name, fallback) ==> t.category != name
    ensures forall c :: c in Filter(cs, NameOtherThan(name)) ==> c.name != name
    ensures SumFor(Migrated(ts, name, fallback), fallback, Amount) == SumFor(ts, fallback, Amount) + SumFor(ts, name, Amount)
    ensures Total(Migrated(ts, name, fallback), Amount) == Total(ts, Amount)
  {
    MigratedSums(ts, name, fallback, Amount);
    MigratedTotal(ts, name, fallback);
  }

  /** Migration moves transactions between categories and loses no amount. */
  lemma {:induction false} MigratedTotal(ts: seq<Transaction>, from: string, to: string)
    ensures Total(Migrated(ts, from, to), Amount) == Total(ts, Amount)
  {
    if ts != [] {
      var p := ts[..|ts| - 1];
      MigratedTotal(p, from, to);
      assert Migrated(ts, from, to)[..|ts| - 1] == Migrated(p, from, to);
    }
  }
}
