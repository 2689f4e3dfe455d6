/** `TransactionsFragment.kt`: the in-memory transaction list kept beside the store, the
    add/edit dialog's validation, delete, the recompute of every category's spent cache,
    the category choice list and the budget alert tiers. */
module TransactionsScreen {
  import opened Models
  import opened Numbers
  import opened Seqs
  import opened Text
  import opened Aggregation
  import opened Store

  // ---------------------------------------------------------------------------------------
  // The spent cache (`updateCategorySpending`)

  /** The expense map `calculateCategorySpending` reads from a transactions table. */
  function SpendingOf(ts: seq<Transaction>): map<string, int> {
    Totals(Select(ts, Expense))
  }

  /** A category with its spent cache set from a map: `spendingMap[name] ?: 0`. */
  function WithSpent(c: Category, m: map<string, int>): Category {
    c.(spentAmount := ValueOr(m, c.name, 0))
  }

  /** Every row with its spent cache set from the map, in row order. */
  function Respent(cs: seq<Category>, m: map<string, int>): (r: seq<Category>)
    ensures |r| == |cs|
    ensures forall k :: 0 <= k < |cs| ==> r[k] == WithSpent(cs[k], m)
  {
    seq(|cs|, k requires 0 <= k < |cs| => WithSpent(cs[k], m))
  }

  /** After a recompute every category's cache is its expense total, income categories
      included, and nothing else about a category changes. */
  lemma RespentValues(cs: seq<Category>, ts: seq<Transaction>, k: int)
    requires 0 <= k < |cs|
    ensures Respent(cs, SpendingOf(ts))[k].spentAmount == SumFor(Select(ts, Expense), cs[k].name, Amount)
    ensures Respent(cs, SpendingOf(ts))[k] == cs[k].(spentAmount := Respent(cs, SpendingOf(ts))[k].spentAmount)
  {
    var e := Select(ts, Expense);
    if cs[k].name !in Groups(e) {
      SumForAbsent(e, cs[k].name, Amount);
    }
  }

  /** Recomputing twice is recomputing once. */
  lemma RespentIdempotent(cs: seq<Category>, m: map<string, int>)
    ensures Respent(Respent(cs, m), m) == Respent(cs, m)
  {
  }

  /** One pass of the recompute loop: the row whose id the updated category carries takes
      the new cache, every other row stays as it is. */
  lemma RecomputeStep(before: seq<Category>, cur: seq<Category>, next: seq<Category>,
                      snapshot: seq<Category>, i: int, m: map<string, int>)
    requires 0 <= i < |snapshot|
    requires multiset(snapshot) == multiset(before)
    requires forall a, b :: 0 <= a < b < |before| ==> before[a].id != before[b].id && before[a].name != before[b].name
    requires |cur| == |before| && |next| == |before|
    requires forall k :: 0 <= k < |before| ==>
               cur[k] == if before[k] in snapshot[..i] then WithSpent(before[k], m) else before[k]
    requires forall k :: 0 <= k < |before| ==>
               next[k] == if cur[k].id == snapshot[i].id then WithSpent(snapshot[i], m).(key := cur[k].key) else cur[k]
    ensures forall k :: 0 <= k < |before| ==>
              next[k] == if before[k] in snapshot[..i + 1] then WithSpent(before[k], m) else before[k]
  {
    assert snapshot[..i + 1] == snapshot[..i] + [snapshot[i]];
    assert snapshot[i] in multiset(before);
    forall k | 0 <= k < |before|
      ensures next[k] == if before[k] in snapshot[..i + 1] then WithSpent(before[k], m) else before[k]
    {
      assert cur[k].id == before[k].id && cur[k].key == before[k].key;
      if before[k].id == snapshot[i].id {
        var k0 :| 0 <= k0 < |before| && before[k0] == snapshot[i];
        assert k0 == k;
      } else {
        assert before[k] != snapshot[i];
      }
    }
  }

  /** Each snapshot row is still in the table under its id and name while the loop runs, so
      its update matches one row and clashes with none. */
  lemma RecomputeMatches(before: seq<Category>, cur: seq<Category>, snapshot: seq<Category>, i: int, m: map<string, int>)
    requires 0 <= i < |snapshot|
    requires multiset(snapshot) == multiset(before)
    requires forall a, b :: 0 <= a < b < |before| ==> before[a].id != before[b].id && before[a].name != before[b].name
    requires |cur| == |before|
    requires forall k :: 0 <= k < |before| ==>
               cur[k] == if before[k] in snapshot[..i] then WithSpent(before[k], m) else before[k]
    ensures exists k :: 0 <= k < |cur| && cur[k].id == snapshot[i].id
    ensures !exists j :: 0 <= j < |cur| && cur[j].id != snapshot[i].id && cur[j].name == snapshot[i].name
  {
    assert snapshot[i] in multiset(before);
    var k0 :| 0 <= k0 < |before| && before[k0] == snapshot[i];
    assert cur[k0].id == snapshot[i].id;
    forall j | 0 <= j < |cur| && cur[j].name == snapshot[i].name ensures cur[j].id == snapshot[i].id {
      assert cur[j].name == before[j].name;
      assert j == k0;
    }
  }

  // ---------------------------------------------------------------------------------------
  // The screen

  /** The add/edit dialog's defaults, ahead of the stored names. */
  const DefaultChoices: seq<string> := ["Food", "Transport", "Bills", "Entertainment"]

  /** `(defaultCategories + userCategories).distinct()`. */
  function ChoiceList(storedNames: seq<string>): seq<string> {
    Distinct(DefaultChoices + storedNames)
  }

  /** The choice list starts with the four defaults, holds every stored name and no name
      twice, in first-occurrence order. */
  lemma ChoiceListFacts(storedNames: seq<string>)
    ensures |ChoiceList(storedNames)| >= 4 && ChoiceList(storedNames)[..4] == DefaultChoices
    ensures forall n :: n in ChoiceList(storedNames) <==> n in DefaultChoices || n in storedNames
    ensures NoDuplicates(ChoiceList(storedNames))
    ensures InFirstOccurrenceOrder(ChoiceList(storedNames), DefaultChoices + storedNames)
  {
    DistinctOfPrefix(DefaultChoices, storedNames);
    DistinctFirstOccurrenceOrder(DefaultChoices + storedNames);
  }

  /** What the dialog enters: trimmed title and date, the parsed amount, id 0. */
  function Entered(title: string, amount: int, category: string, date: string, isExpense: bool): Transaction {
    Transaction(0, Trim(title), amount, category, Trim(date), isExpense)
  }

  class TransactionsScreen {
    /** The list the screen shows; it is loaded from the store and then edited in place. */
    var transactions: seq<Transaction>
    const store: LedgerStore

    predicate Valid()
      reads this, store
    {
      store.Valid()
    }

    constructor (store: LedgerStore)
      requires store.Valid()
      ensures Valid() && this.store == store
      ensures transactions == store.GetAllTransactions()
    {
      this.store := store;
      transactions := store.GetAllTransactions();
    }

    /** `loadTransactions`: the list is replaced by the store's listing. */
    method LoadTransactions()
      requires Valid()
      modifies this
      ensures Valid()
      ensures transactions == store.GetAllTransactions()
    {
      transactions := store.GetAllTransactions();
    }

    /** The category choice list of the dialog, from the stored names by name order. */
    function Choices(): (r: seq<string>)
      reads this, store
      ensures forall n :: n in r <==> n in DefaultChoices || n in NamesOf(store.categories)
    {
      var stored := NamesOf(store.GetAllCategories());
      ChoiceListFacts(stored);
      SameNames(store.GetAllCategories(), store.categories);
      ChoiceList(stored)
    }

    /** `updateCategorySpending`: every category of the name-ordered listing gets its expense
        total (0 if absent) and is written back by id. */
    method UpdateCategorySpending()
      requires Valid()
      modifies store
      ensures Valid()
      ensures store.categories == Respent(old(store.categories), SpendingOf(store.transactions))
      ensures store.transactions == old(store.transactions)
      ensures store.lastTransactionId == old(store.lastTransactionId)
      ensures store.lastCategoryId == old(store.lastCategoryId)
    {
      var spendingMap := store.CalculateCategorySpending();
      var categories := store.GetAllCategories();
      ghost var before := store.categories;
      for i := 0 to |categories|
        invariant store.Valid()
        invariant store.transactions == old(store.transactions)
        invariant store.lastTransactionId == old(store.lastTransactionId)
        invariant store.lastCategoryId == old(store.lastCategoryId)
        invariant |store.categories| == |before|
        invariant forall k :: 0 <= k < |before| ==>
                    store.categories[k] == if before[k] in categories[..i] then WithSpent(before[k], spendingMap) else before[k]
      {
        var category := WithSpent(categories[i], spendingMap);
        ghost var cur := store.categories;
        RecomputeMatches(before, cur, categories, i, spendingMap);
        var outcome := store.UpdateCategory(category);
        RecomputeStep(before, cur, store.categories, categories, i, spendingMap);
      }
      forall k | 0 <= k < |before| ensures before[k] in categories {
        assert before[k] in multiset(categories);
      }
      assert categories[..|categories|] == categories;
    }

    /** The submit button. Nothing happens unless the trimmed title and date are non-empty
        and the amount parsed. Editing (both an existing transaction and its position given)
        rewrites the store row by its id and replaces the list entry; adding inserts a row
        and appends the entry. The list entry carries id 0 either way. Then the spent cache
        is recomputed. */
    method Submit(title: string, amount: Option<int>, category: string, date: string, isExpense: bool,
                  existing: Option<Transaction>, position: Option<int>)
      returns (accepted: bool)
      requires Valid()
      requires existing.Some? && position.Some? ==> 0 <= position.value < |transactions|
      modifies this, store
      ensures Valid()
      ensures accepted <==> Trim(title) != [] && amount.Some? && Trim(date) != []
      ensures !accepted ==> transactions == old(transactions) && store.transactions == old(store.transactions)
                            && store.categories == old(store.categories)
      ensures accepted && existing.Some? && position.Some? ==>
                && transactions == old(transactions)[position.value := Entered(title, amount.value, category, date, isExpense)]
                && store.transactions == Rewritten(old(store.transactions), existing.value.id,
                                                   Entered(title, amount.value, category, date, isExpense))
      ensures accepted && !(existing.Some? && position.Some?) ==>
                && transactions == old(transactions) + [Entered(title, amount.value, category, date, isExpense)]
                && store.lastTransactionId > 0
                && (forall r :: r in old(store.transactions) ==> r.id != store.lastTransactionId)
                && store.transactions == old(store.transactions)
                   + [Entered(title, amount.value, category, date, isExpense).(id := store.lastTransactionId)]
      ensures accepted ==> store.categories == Respent(old(store.categories), SpendingOf(store.transactions))
      ensures store.lastTransactionId
              == if accepted && !(existing.Some? && position.Some?) then old(store.lastTransactionId) + 1
                 else old(store.lastTransactionId)
      ensures store.lastCategoryId == old(store.lastCategoryId)
    {
      var t := Trim(title);
      var d := Trim(date);
      if t == [] || amount.None? || d == [] {
        return false;
      }
      var transaction := Transaction(0, t, amount.value, category, d, isExpense);
      if existing.Some? && position.Some? {
        store.UpdateTransaction(existing.value.id, transaction);
        transactions := transactions[position.value := transaction];
      } else {
        var _ := store.InsertTransaction(transaction);
        transactions := transactions + [transaction];
      }
      UpdateCategorySpending();
      accepted := true;
    }

    /** "Delete" in the options dialog: the store row with the entry's id goes, the entry at
        `position` goes, and the spent cache is recomputed. */
    method Delete(position: int)
      requires Valid()
      requires 0 <= position < |transactions|
      modifies this, store
      ensures Valid()
      ensures transactions == old(transactions)[..position] + old(transactions)[position + 1..]
      ensures store.transactions == Filter(old(store.transactions), IdOtherThan(old(transactions)[position].id))
      ensures store.categories == Respent(old(store.categories), SpendingOf(store.transactions))
      ensures store.lastTransactionId == old(store.lastTransactionId)
      ensures store.lastCategoryId == old(store.lastCategoryId)
    {
      store.DeleteTransaction(transactions[position].id);
      transactions := transactions[..position] + transactions[position + 1..];
      UpdateCategorySpending();
    }
  }

  lemma SameNames(a: seq<Category>, b: seq<Category>)
    requires multiset(a) == multiset(b)
    ensures forall n :: n in NamesOf(a) <==> n in NamesOf(b)
  {
    forall n ensures n in NamesOf(a) <==> n in NamesOf(b) {
      NamesOfPermutation(a, b, n);
    }
  }

  /** The names of a permutation of the categories are the same names. */
  lemma NamesOfPermutation(a: seq<Category>, b: seq<Category>, n: string)
    requires multiset(a) == multiset(b)
    ensures n in NamesOf(a) <==> n in NamesOf(b)
  {
    if n in NamesOf(a) {
      var i := IndexOf(NamesOf(a), n);
      assert a[i] in multiset(b);
      var j :| 0 <= j < |b| && b[j] == a[i];
      assert NamesOf(b)[j] == n;
    }
    if n in NamesOf(b) {
      var j := IndexOf(NamesOf(b), n);
      assert b[j] in multiset(a);
      var i :| 0 <= i < |a| && a[i] == b[j];
      assert NamesOf(a)[i] == n;
    }
  }

  /** Ids start at 1, so an entry added on this screen (id 0) names no row: deleting or
      editing it before the list is reloaded leaves the store's rows as they are. */
  lemma UnsavedEntryNamesNoRow(ts: seq<Transaction>, cs: seq<Category>, lt: int, lc: int, t: Transaction)
    requires TablesValid(ts, cs, lt, lc)
    ensures Filter(ts, IdOtherThan(0)) == ts
    ensures Rewritten(ts, 0, t) == ts
  {
    FilterKeepAll(ts, IdOtherThan(0));
  }

  // ---------------------------------------------------------------------------------------
  // Budget alerts (`checkSpendingLimits`)

  datatype Alert =
    | Exceeded(overBy: int)     // "budget exceeded", by `percent.toInt() - 100` per cent
    | Nearing(percent: int)     // "nearing limit", at `percent.toInt()` per cent
    | AlmostFull(percent: int)  // "almost full", at `percent.toInt()` per cent

  /** `percentSpent >= k` for `percentSpent = spent / budget * 100` in floating point:
      exact comparison when the budget is non-zero; with a zero budget the quotient is
      +Infinity (spent > 0, every test holds), NaN (spent = 0, no test holds) or -Infinity. */
  predicate PercentAtLeast(spent: int, budget: int, k: int) {
    if budget > 0 then spent * 100 >= k * budget
    else if budget < 0 then spent * 100 <= k * budget
    else spent > 0
  }

  /** The `when` of `checkSpendingLimits` for one category. */
  function SpendingAlert(c: Category): Option<Alert> {
    var s := c.spentAmount;
    var a := c.allocatedAmount;
    if PercentAtLeast(s, a, 100) then Some(Exceeded(PercentToInt(s, a) - 100))
    else if PercentAtLeast(s, a, 90) then Some(Nearing(PercentToInt(s, a)))
    else if PercentAtLeast(s, a, 80) then Some(AlmostFull(PercentToInt(s, a)))
    else None
  }

  /** `checkSpendingLimits(categoryList)`: at most one alert per category, in list order. */
  function SpendingAlerts(cs: seq<Category>): (r: seq<(string, Alert)>)
    ensures |r| <= |cs|
  {
    if cs == [] then []
    else
      var rest := SpendingAlerts(cs[..|cs| - 1]);
      match SpendingAlert(cs[|cs| - 1])
      case Some(alert) => rest + [(cs[|cs| - 1].name, alert)]
      case None => rest
  }

  /** With a positive budget, the tiers in whole numbers: spent reaches the budget, reaches
      90 per cent, reaches 80 per cent, or stays below. */
  lemma AlertTiers(c: Category)
    requires c.allocatedAmount > 0
    ensures SpendingAlert(c).Some? && SpendingAlert(c).value.Exceeded? <==> c.spentAmount >= c.allocatedAmount
    ensures SpendingAlert(c).Some? && SpendingAlert(c).value.Nearing? <==>
              10 * c.spentAmount >= 9 * c.allocatedAmount && c.spentAmount < c.allocatedAmount
    ensures SpendingAlert(c).Some? && SpendingAlert(c).value.AlmostFull? <==>
              5 * c.spentAmount >= 4 * c.allocatedAmount && 10 * c.spentAmount < 9 * c.allocatedAmount
    ensures SpendingAlert(c).None? <==> 5 * c.spentAmount < 4 * c.allocatedAmount
  {
  }

  /** The per cent a warning reports agrees with its tier and is the whole per cent spent,
      rounded down; an excess is never negative, is that per cent less 100 while it fits
      an `Int`, and saturates beyond. */
  lemma AlertPercents(c: Category)
    requires c.allocatedAmount > 0
    ensures SpendingAlert(c).Some? && SpendingAlert(c).value.Nearing? ==> 90 <= SpendingAlert(c).value.percent <= 99
    ensures SpendingAlert(c).Some? && SpendingAlert(c).value.AlmostFull? ==> 80 <= SpendingAlert(c).value.percent <= 89
    ensures SpendingAlert(c).Some? && SpendingAlert(c).value.Exceeded? ==> SpendingAlert(c).value.overBy >= 0
    ensures SpendingAlert(c).Some? && !SpendingAlert(c).value.Exceeded? ==>
              SpendingAlert(c).value.percent * c.allocatedAmount <= c.spentAmount * 100
              < (SpendingAlert(c).value.percent + 1) * c.allocatedAmount
    ensures SpendingAlert(c).Some? && SpendingAlert(c).value.Exceeded? && c.spentAmount * 100 < (IntMax + 1) * c.allocatedAmount ==>
              (SpendingAlert(c).value.overBy + 100) * c.allocatedAmount <= c.spentAmount * 100
              < (SpendingAlert(c).value.overBy + 101) * c.allocatedAmount
    ensures SpendingAlert(c).Some? && SpendingAlert(c).value.Exceeded? && c.spentAmount * 100 >= (IntMax + 1) * c.allocatedAmount ==>
              SpendingAlert(c).value.overBy == IntMax - 100
  {
    var s := c.spentAmount;
    var a := c.allocatedAmount;
    AlertTiers(c);
    PercentToIntValue(s, a);
    if 10 * s >= 9 * a && s < a {
      DivBetween(s * 100, a, 90, 100);
    } else if 5 * s >= 4 * a && 10 * s < 9 * a {
      DivBetween(s * 100, a, 80, 90);
    } else if s >= a {
      DivAtLeast(s * 100, a, 100);
    }
  }

  /** A zero budget (the division has no guard): any spending reads as +Infinity per cent,
      an alert with the saturated excess; none at all reads as NaN, no alert. */
  lemma ZeroBudgetAlert(c: Category)
    requires c.allocatedAmount == 0
    ensures c.spentAmount > 0 ==> SpendingAlert(c) == Some(Exceeded(IntMax - 100))
    ensures c.spentAmount <= 0 ==> SpendingAlert(c) == None
  {
  }

  /** The rank of a tier: none, almost full, nearing, exceeded. */
  function Level(a: Option<Alert>): int {
    match a
    case None => 0
    case Some(AlmostFull(_)) => 1
    case Some(Nearing(_)) => 2
    case Some(Exceeded(_)) => 3
  }

  /** The tier only rises with spending, for a fixed positive budget. */
  lemma AlertMonotone(c: Category, more: int)
    requires c.allocatedAmount > 0 && c.spentAmount <= more
    ensures Level(SpendingAlert(c)) <= Level(SpendingAlert(c.(spentAmount := more)))
  {
  }

  /** A budget of 1000: 799 raises nothing, 800 and 899 "almost full", 900 "nearing",
      1000 "exceeded by 0", 1500 "exceeded by 50". */
  lemma AlertBoundaries(c: Category)
    requires c.allocatedAmount == 1000
    ensures c.spentAmount == 799 ==> SpendingAlert(c) == None
    ensures c.spentAmount == 800 ==> SpendingAlert(c) == Some(AlmostFull(80))
    ensures c.spentAmount == 899 ==> SpendingAlert(c) == Some(AlmostFull(89))
    ensures c.spentAmount == 900 ==> SpendingAlert(c) == Some(Nearing(90))
    ensures c.spentAmount == 1000 ==> SpendingAlert(c) == Some(Exceeded(0))
    ensures c.spentAmount == 1500 ==> SpendingAlert(c) == Some(Exceeded(50))
  {
  }

  /** A category gets an alert exactly when its tier says so; each alert carries its name. */
  lemma {:induction false} SpendingAlertsFor(cs: seq<Category>, name: string, alert: Alert)
    ensures (name, alert) in SpendingAlerts(cs) <==> exists c :: c in cs && c.name == name && SpendingAlert(c) == Some(alert)
  {
    if cs != [] {
      var p := cs[..|cs| - 1];
      var last := cs[|cs| - 1];
      assert cs == p + [last];
      SpendingAlertsFor(p, name, alert);
      if (exists c :: c in cs && c.name == name && SpendingAlert(c) == Some(alert)) {
        var c :| c in cs && c.name == name && SpendingAlert(c) == Some(alert);
        if c != last {
          assert c in p;
        }
      }
    }
  }
}
