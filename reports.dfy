/** `ReportsFragment.kt`: the time-window filter, the two six-month trend series, the
    income/expense summary, the top-5 spending list and the per-category report with its
    drill-down. "Now" is the month of the reference instant, a parameter. */
module Reports {
  import opened Models
  import opened Seqs
  import opened Dates
  import opened Aggregation

  // ---------------------------------------------------------------------------------------
  // Time window (`filterDataByTime`)

  /** The month before `now`, written out: January wraps to December of the year before. */
  function PreviousMonth(now: YearMonth): YearMonth {
    if now.month == 0 then YearMonth(now.year - 1, 11) else YearMonth(now.year, now.month - 1)
  }

  /** Which dates each spinner position keeps: 0 this month, 1 last month, 2 this year,
      anything else every date. */
  predicate InWindow(d: Date, option: int, now: YearMonth) {
    if option == 0 then d.year == now.year && d.month == now.month
    else if option == 1 then d.year == PreviousMonth(now).year && d.month == PreviousMonth(now).month
    else if option == 2 then d.year == now.year
    else true
  }

  /** The selection criterion behind each spinner position (`true` for the catch-all). */
  function WindowCriterion(p: Parsers, option: int, now: YearMonth): Criterion
    requires 0 <= option <= 2
  {
    if option == 0 then DatedIn(p, now)
    else if option == 1 then DatedIn(p, AddMonths(now, -1))
    else DatedInYear(p, now.year)
  }

  /** `filterDataByTime(optionIndex)`, on the list loaded from the store. */
  function FilterByTime(p: Parsers, ts: seq<Transaction>, option: int, now: YearMonth): (r: seq<Transaction>)
    ensures |r| <= |ts|
  {
    if 0 <= option <= 2 then Select(ts, WindowCriterion(p, option, now)) else ts
  }

  /** The criterion of a spinner position keeps exactly the dates in its window. */
  lemma WindowCriterionMeets(p: Parsers, option: int, now: YearMonth, t: Transaction)
    requires 0 <= option <= 2
    ensures Meets(t, WindowCriterion(p, option, now)) <==> InWindow(ParseDate(p, t.date), option, now)
  {
    PreviousMonthWraps(now);
  }

  /** The filter keeps every transaction dated in the window, as often as it occurs, and
      nothing else. */
  lemma {:induction false} FilterByTimeKeeps(p: Parsers, ts: seq<Transaction>, option: int, now: YearMonth)
    ensures forall t :: multiset(FilterByTime(p, ts, option, now))[t]
                        == if InWindow(ParseDate(p, t.date), option, now) then multiset(ts)[t] else 0
  {
    if 0 <= option <= 2 {
      SelectMultiset(ts, WindowCriterion(p, option, now));
      forall t: Transaction
        ensures Meets(t, WindowCriterion(p, option, now)) <==> InWindow(ParseDate(p, t.date), option, now)
      {
        WindowCriterionMeets(p, option, now, t);
      }
    }
  }

  /** The filter keeps the order of the transactions it keeps: it is the list filter. */
  lemma {:induction false} FilterByTimeIsFilter(p: Parsers, ts: seq<Transaction>, option: int, now: YearMonth)
    ensures FilterByTime(p, ts, option, now) == Filter(ts, (t: Transaction) => InWindow(ParseDate(p, t.date), option, now))
  {
    var keep := (t: Transaction) => InWindow(ParseDate(p, t.date), option, now);
    if 0 <= option <= 2 {
      forall t: Transaction ensures Meets(t, WindowCriterion(p, option, now)) == keep(t) {
        WindowCriterionMeets(p, option, now, t);
      }
      SelectIsFilter(ts, WindowCriterion(p, option, now), keep);
    } else {
      FilterKeepAll(ts, keep);
    }
  }

  /** `Select` is `Filter` with the same test. */
  lemma {:induction false} SelectIsFilter(ts: seq<Transaction>, c: Criterion, keep: Transaction -> bool)
    requires forall t :: Meets(t, c) == keep(t)
    ensures Select(ts, c) == Filter(ts, keep)
  {
    if ts != [] {
      var p := ts[..|ts| - 1];
      var t := ts[|ts| - 1];
      assert ts == p + [t];
      SelectIsFilter(p, c, keep);
      FilterAppend(p, t, keep);
    }
  }

  /** Unparsable dates are dated 1 January 1970, so they fall outside every window that
      does not reach back to January 1970. */
  lemma UnparsableDateOutsideRecentWindows(p: Parsers, ts: seq<Transaction>, option: int, now: YearMonth, t: Transaction)
    requires p.english(t.date).None? && p.vietnamese(t.date).None?
    requires now.year > 1970 && 0 <= option <= 2
    ensures t !in FilterByTime(p, ts, option, now)
  {
    InSelect(ts, WindowCriterion(p, option, now), t);
    WindowCriterionMeets(p, option, now, t);
  }

  // ---------------------------------------------------------------------------------------
  // The six-month trends (`setupTrendBarChart`, `setupTrendLineChart`)

  /** `setupTrendBarChart`: starting five months back, one bucket per month, each with the
      income and the expense total of the transactions dated in it. The month labels are
      presentation and are not modelled. */
  method TrendBarSeries(p: Parsers, ts: seq<Transaction>, now: YearMonth)
    returns (months: seq<YearMonth>, income: seq<int>, expense: seq<int>)
    ensures |months| == 6 && |income| == 6 && |expense| == 6
    ensures forall i :: 0 <= i < 6 ==> MonthIndex(months[i]) == MonthIndex(now) - 5 + i
    ensures months[5] == now
    ensures forall i :: 0 <= i < 5 ==> months[i + 1] == AddMonths(months[i], 1)
    ensures forall i :: 0 <= i < 6 ==>
              income[i] == Total(Select(Select(ts, DatedIn(p, months[i])), Income), Amount)
    ensures forall i :: 0 <= i < 6 ==>
              expense[i] == Total(Select(Select(ts, DatedIn(p, months[i])), Expense), Amount)
  {
    var calendar := AddMonths(now, -5);
    months, income, expense := [], [], [];
    for i := 0 to 6
      invariant |months| == i && |income| == i && |expense| == i
      invariant MonthIndex(calendar) == MonthIndex(now) - 5 + i
      invariant forall j :: 0 <= j < i ==> MonthIndex(months[j]) == MonthIndex(now) - 5 + j
      invariant forall j :: 0 <= j < i ==>
                  income[j] == Total(Select(Select(ts, DatedIn(p, months[j])), Income), Amount)
      invariant forall j :: 0 <= j < i ==>
                  expense[j] == Total(Select(Select(ts, DatedIn(p, months[j])), Expense), Amount)
    {
      var inMonth := Select(ts, DatedIn(p, calendar));
      months := months + [calendar];
      income := income + [Total(Select(inMonth, Income), Amount)];
      expense := expense + [Total(Select(inMonth, Expense), Amount)];
      calendar := AddMonths(calendar, 1);
    }
    MonthIndexInjective(months[5], now);
    forall i | 0 <= i < 5 ensures months[i + 1] == AddMonths(months[i], 1) {
      MonthIndexInjective(months[i + 1], AddMonths(months[i], 1));
    }
  }

  /** The filter of the category trend: dated in the month, exactly that category, and an
      expense. */
  function CategoryInMonth(p: Parsers, m: YearMonth, name: string): Criterion {
    Both(DatedIn(p, m), Both(Named(name), Expense))
  }

  /** `setupTrendLineChart(categoryName)`: the same six months, each with the expense total
      of the one category. */
  method CategoryTrendSeries(p: Parsers, ts: seq<Transaction>, now: YearMonth, name: string)
    returns (months: seq<YearMonth>, spent: seq<int>)
    ensures |months| == 6 && |spent| == 6
    ensures forall i :: 0 <= i < 6 ==> MonthIndex(months[i]) == MonthIndex(now) - 5 + i
    ensures months[5] == now
    ensures forall i :: 0 <= i < 6 ==> spent[i] == Total(Select(ts, CategoryInMonth(p, months[i], name)), Amount)
  {
    var calendar := AddMonths(now, -5);
    months, spent := [], [];
    for i := 0 to 6
      invariant |months| == i && |spent| == i
      invariant MonthIndex(calendar) == MonthIndex(now) - 5 + i
      invariant forall j :: 0 <= j < i ==> MonthIndex(months[j]) == MonthIndex(now) - 5 + j
      invariant forall j :: 0 <= j < i ==> spent[j] == Total(Select(ts, CategoryInMonth(p, months[j], name)), Amount)
    {
      months := months + [calendar];
      spent := spent + [Total(Select(ts, CategoryInMonth(p, calendar, name)), Amount)];
      calendar := AddMonths(calendar, 1);
    }
    MonthIndexInjective(months[5], now);
  }

  /** A category's trend point is that category's share of the same month's expense bar, so
      the category points of a month add up to its expense bar (`GroupsPartition`). */
  lemma CategoryPointIsShareOfExpenseBar(p: Parsers, ts: seq<Transaction>, m: YearMonth, name: string)
    ensures Total(Select(ts, CategoryInMonth(p, m, name)), Amount)
            == SumFor(Select(Select(ts, DatedIn(p, m)), Expense), name, Amount)
  {
    var d := DatedIn(p, m);
    var e := Select(Select(ts, d), Expense);
    SumForIsTotalOfSelect(e, name, Amount);
    SelectBoth(ts, d, Expense);
    SelectBoth(ts, Both(d, Expense), Named(name));
    SelectSameMeets(ts, Both(Both(d, Expense), Named(name)), CategoryInMonth(p, m, name));
  }

  // ---------------------------------------------------------------------------------------
  // The summary (`updateReportUI`)

  /** What the reports screen shows for a filtered list. */
  datatype ReportView = ReportView(
    income: int,
    expense: int,
    balance: int,
    expenses: seq<Transaction>,
    topSpending: seq<(string, int)>,
    categoryReport: seq<CategoryReportItem>)

  /** `updateReportUI(transactions)`: the totals, the balance, and the two lists built from
      the expense transactions. */
  function UpdateReport(ts: seq<Transaction>): (v: ReportView)
    ensures v.balance == v.income - v.expense
  {
    var expenses := Select(ts, Expense);
    var income := Total(Select(ts, Income), Amount);
    var expense := Total(expenses, Amount);
    ReportView(income, expense, income - expense, expenses, TopSpending(expenses), CategoryReport(expenses))
  }

  /** The summary is consistent: income and expense make up the whole list, so the
      balance is the list total less twice the expense; the expense list is exactly the
      expense transactions, both charts are built from it, and the category report adds up
      to the expense total and the number of expense transactions. */
  lemma {:induction false} UpdateReportConsistent(ts: seq<Transaction>)
    ensures UpdateReport(ts).income + UpdateReport(ts).expense == Total(ts, Amount)
    ensures forall t :: t in UpdateReport(ts).expenses <==> t in ts && t.isExpense
    ensures SumBy(UpdateReport(ts).categoryReport, ItemMeasure(Amount)) == UpdateReport(ts).expense
    ensures SumBy(UpdateReport(ts).categoryReport, ItemMeasure(Count)) == |UpdateReport(ts).expenses|
    ensures UpdateReport(ts).balance == Total(ts, Amount) - 2 * UpdateReport(ts).expense
    ensures UpdateReport(ts).topSpending == TopSpending(UpdateReport(ts).expenses)
    ensures UpdateReport(ts).categoryReport == CategoryReport(UpdateReport(ts).expenses)
  {
    var e := Select(ts, Expense);
    IncomePlusExpense(ts, Amount);
    forall t ensures t in e <==> t in ts && t.isExpense {
      InSelect(ts, Expense, t);
    }
    CategoryReportSums(e, Amount);
    CategoryReportSums(e, Count);
    CountIsLength(e);
  }

  // ---------------------------------------------------------------------------------------
  // Top spending (`setupTopSpendingChart`)

  /** `sortedByDescending { it.second }`. */
  predicate HeavierFirst(a: (string, int), b: (string, int)) {
    a.1 >= b.1
  }

  lemma HeavierFirstIsTotalPreorder()
    ensures TotalPreorder(HeavierFirst)
  {
  }

  /** The category sums, heaviest first; equal sums keep their first-occurrence order. */
  function Ranked(expenses: seq<Transaction>): seq<(string, int)> {
    Sort(GroupSums(expenses), HeavierFirst)
  }

  /** `groupBy`, sum, `sortedByDescending`, `take(5)`, `reversed()`; an empty expense list
      shows no chart. */
  function TopSpending(expenses: seq<Transaction>): (r: seq<(string, int)>)
    ensures |r| <= 5
  {
    if expenses == [] then [] else Reversed(Take(Ranked(expenses), 5))
  }

  /** The bar labels of the top-spending chart. */
  function Labels(r: seq<(string, int)>): (names: seq<string>)
    ensures |names| == |r|
    ensures forall i :: 0 <= i < |r| ==> names[i] == r[i].0
  {
    seq(|r|, i requires 0 <= i < |r| => r[i].0)
  }

  /** The rows of `GroupSums` are distinct, each a category with its sum. */
  lemma GroupSumsRows(e: seq<Transaction>)
    ensures NoDuplicates(GroupSums(e))
    ensures forall x :: x in GroupSums(e) ==> x.0 in Groups(e) && x.1 == SumFor(e, x.0, Amount)
    ensures forall g :: g in Groups(e) ==> (g, SumFor(e, g, Amount)) in GroupSums(e)
  {
    var gs := GroupSums(e);
    var g := Groups(e);
    forall i, j | 0 <= i < j < |gs| ensures gs[i] != gs[j] {
      assert gs[i].0 == g[i] != g[j] == gs[j].0;
    }
    forall c | c in g ensures (c, SumFor(e, c, Amount)) in gs {
      var k := IndexOf(g, c);
      assert gs[k] == (c, SumFor(e, c, Amount));
    }
  }

  /** Each rank holds a category of the expenses with its sum. */
  lemma RankedEntry(e: seq<Transaction>, k: int)
    requires 0 <= k < |Ranked(e)|
    ensures Ranked(e)[k].0 in Groups(e) && Ranked(e)[k].1 == SumFor(e, Ranked(e)[k].0, Amount)
  {
    var x := Ranked(e)[k];
    assert multiset(Ranked(e))[x] == multiset(GroupSums(e))[x];
    GroupSumsRows(e);
  }

  /** Every category of the expenses is ranked. */
  lemma RankedHas(e: seq<Transaction>, g: string)
    requires g in Groups(e)
    ensures (g, SumFor(e, g, Amount)) in Ranked(e)
  {
    var x := (g, SumFor(e, g, Amount));
    GroupSumsRows(e);
    assert multiset(Ranked(e))[x] == multiset(GroupSums(e))[x];
  }

  /** The ranking holds each category once. */
  lemma RankedNoDuplicates(e: seq<Transaction>)
    ensures NoDuplicates(Ranked(e))
  {
    GroupSumsRows(e);
    NoDuplicatesPermutation(GroupSums(e), Ranked(e));
  }

  /** The ranking is heaviest first. */
  lemma RankedSorted(e: seq<Transaction>)
    ensures Sorted(Ranked(e), HeavierFirst)
  {
    HeavierFirstIsTotalPreorder();
    SortSorted(GroupSums(e), HeavierFirst);
  }

  /** Bar `i` is rank `|r| - 1 - i`. */
  lemma TopAt(e: seq<Transaction>, i: int)
    requires 0 <= i < |TopSpending(e)|
    ensures e != [] && |TopSpending(e)| <= |Ranked(e)|
    ensures TopSpending(e)[i] == Ranked(e)[|TopSpending(e)| - 1 - i]
  {
    var r := TopSpending(e);
    assert r[i] == Take(Ranked(e), 5)[|r| - 1 - i];
  }

  /** There is no chart exactly when there are no expenses; otherwise it has five bars, or
      one per category when there are fewer. */
  lemma TopSpendingSize(e: seq<Transaction>)
    ensures TopSpending(e) == [] <==> e == []
    ensures e != [] ==> |TopSpending(e)| == if |Groups(e)| < 5 then |Groups(e)| else 5
  {
    if e != [] {
      InGroups(e, e[0].category);
    }
  }

  /** Each bar is a category of the expenses, valued at its sum. */
  lemma TopSpendingEntries(e: seq<Transaction>)
    ensures forall i :: 0 <= i < |TopSpending(e)| ==>
              TopSpending(e)[i].0 in Groups(e) && TopSpending(e)[i].1 == SumFor(e, TopSpending(e)[i].0, Amount)
  {
    var r := TopSpending(e);
    forall i | 0 <= i < |r| ensures r[i].0 in Groups(e) && r[i].1 == SumFor(e, r[i].0, Amount) {
      TopAt(e, i);
      RankedEntry(e, |r| - 1 - i);
    }
  }

  /** No category has two bars. */
  lemma TopSpendingDistinct(e: seq<Transaction>)
    ensures NoDuplicates(Labels(TopSpending(e)))
  {
    var r := TopSpending(e);
    forall i, j | 0 <= i < j < |r| ensures Labels(r)[i] != Labels(r)[j] {
      TopSpendingDistinctPair(e, i, j);
    }
  }

  lemma TopSpendingDistinctPair(e: seq<Transaction>, i: int, j: int)
    requires 0 <= i < j < |TopSpending(e)|
    ensures TopSpending(e)[i].0 != TopSpending(e)[j].0
  {
    var r := TopSpending(e);
    var s := Ranked(e);
    TopAt(e, i);
    TopAt(e, j);
    RankedEntry(e, |r| - 1 - i);
    RankedEntry(e, |r| - 1 - j);
    RankedNoDuplicates(e);
    assert s[|r| - 1 - j] != s[|r| - 1 - i];
  }

  /** After `reversed()` the bars ascend: the largest is last, drawn on top. */
  lemma TopSpendingAscending(e: seq<Transaction>)
    ensures forall i, j :: 0 <= i < j < |TopSpending(e)| ==> TopSpending(e)[i].1 <= TopSpending(e)[j].1
  {
    var r := TopSpending(e);
    forall i, j | 0 <= i < j < |r| ensures r[i].1 <= r[j].1 {
      TopAt(e, i);
      TopAt(e, j);
      RankedSorted(e);
      assert HeavierFirst(Ranked(e)[|r| - 1 - j], Ranked(e)[|r| - 1 - i]);
    }
  }

  /** A category without a bar is ranked below every bar. */
  lemma LeftOutRankedBelow(e: seq<Transaction>, g: string)
    requires g in Groups(e) && g !in Labels(TopSpending(e))
    ensures (g, SumFor(e, g, Amount)) in Ranked(e)
    ensures IndexOf(Ranked(e), (g, SumFor(e, g, Amount))) >= |TopSpending(e)|
  {
    var r := TopSpending(e);
    RankedHas(e, g);
    var k := IndexOf(Ranked(e), (g, SumFor(e, g, Amount)));
    if k < |r| {
      TopAt(e, |r| - 1 - k);
      assert false;
    }
  }

  /** The chart holds the largest sums: a category left out sums to no more than any bar. */
  lemma TopSpendingHoldsLargest(e: seq<Transaction>, g: string, i: int)
    requires g in Groups(e) && g !in Labels(TopSpending(e))
    requires 0 <= i < |TopSpending(e)|
    ensures SumFor(e, g, Amount) <= TopSpending(e)[i].1
  {
    var r := TopSpending(e);
    var s := Ranked(e);
    LeftOutRankedBelow(e, g);
    var k := IndexOf(s, (g, SumFor(e, g, Amount)));
    TopAt(e, i);
    RankedSorted(e);
    assert HeavierFirst(s[|r| - 1 - i], s[k]);
  }

  // ---------------------------------------------------------------------------------------
  // The category report (`updateCategoryReportList`, `showCategoryDetailDialog`)

  /** The report row of one category: its total amount and its number of transactions. */
  function Item(e: seq<Transaction>, name: string): CategoryReportItem {
    CategoryReportItem(name, SumFor(e, name, Amount), SumFor(e, name, Count))
  }

  function ItemsFor(e: seq<Transaction>, names: seq<string>): (r: seq<CategoryReportItem>)
    ensures |r| == |names|
    ensures forall i :: 0 <= i < |names| ==> r[i] == Item(e, names[i])
  {
    seq(|names|, i requires 0 <= i < |names| => Item(e, names[i]))
  }

  /** `sortedByDescending { it.totalAmount }`. */
  predicate LargerTotalFirst(a: CategoryReportItem, b: CategoryReportItem) {
    a.totalAmount >= b.totalAmount
  }

  lemma LargerTotalFirstIsTotalPreorder()
    ensures TotalPreorder(LargerTotalFirst)
  {
  }

  /** `groupBy { it.category }`, one item per group, `sortedByDescending`. */
  function CategoryReport(expenses: seq<Transaction>): (r: seq<CategoryReportItem>)
    ensures |r| == |Groups(expenses)|
  {
    Sort(ItemsFor(expenses, Groups(expenses)), LargerTotalFirst)
  }

  /** The value of a report item under a measure: its total or its count. */
  function ItemMeasure(m: Measure): CategoryReportItem -> int {
    (it: CategoryReportItem) => if m == Amount then it.totalAmount else it.transactionCount
  }

  /** The report has one item per category of the expense list, each with that category's
      total and count, sorted by total, largest first. */
  lemma CategoryReportItems(e: seq<Transaction>)
    ensures Sorted(CategoryReport(e), LargerTotalFirst)
    ensures forall it :: it in CategoryReport(e) ==> it.categoryName in Groups(e) && it == Item(e, it.categoryName)
    ensures forall g :: g in Groups(e) ==> Item(e, g) in CategoryReport(e)
  {
    var items := ItemsFor(e, Groups(e));
    LargerTotalFirstIsTotalPreorder();
    SortSorted(items, LargerTotalFirst);
    forall it | it in CategoryReport(e) ensures it.categoryName in Groups(e) && it == Item(e, it.categoryName) {
      assert multiset(CategoryReport(e))[it] == multiset(items)[it];
      assert it in items;
    }
    forall g | g in Groups(e) ensures Item(e, g) in CategoryReport(e) {
      var k := IndexOf(Groups(e), g);
      assert items[k] == Item(e, g);
      assert multiset(CategoryReport(e))[Item(e, g)] == multiset(items)[Item(e, g)];
    }
  }

  lemma {:induction false} ItemsForSum(e: seq<Transaction>, names: seq<string>, m: Measure)
    ensures SumBy(ItemsFor(e, names), ItemMeasure(m)) == SumOverNames(e, names, m)
  {
    if names != [] {
      var p := names[..|names| - 1];
      assert ItemsFor(e, names)[..|names| - 1] == ItemsFor(e, p);
      ItemsForSum(e, p, m);
    }
  }

  /** The report's totals add up to the expense total, and its counts to the number of
      expense transactions (`Total(e, Count) == |e|`). */
  lemma CategoryReportSums(e: seq<Transaction>, m: Measure)
    ensures SumBy(CategoryReport(e), ItemMeasure(m)) == Total(e, m)
  {
    var items := ItemsFor(e, Groups(e));
    SumByPermutation(items, CategoryReport(e), ItemMeasure(m));
    ItemsForSum(e, Groups(e), m);
    GroupsPartition(e, m);
  }

  /** The drill-down of an item: the expense transactions with exactly its name. */
  function Drilldown(expenses: seq<Transaction>, name: string): seq<Transaction> {
    Select(expenses, Named(name))
  }

  /** The drill-down holds exactly the transactions of the category; its total (the dialog's
      `sumOf`) is the item's total and its size the item's count. */
  lemma DrilldownMatchesItem(e: seq<Transaction>, it: CategoryReportItem)
    requires it in CategoryReport(e)
    ensures forall t :: t in Drilldown(e, it.categoryName) <==> t in e && t.category == it.categoryName
    ensures Total(Drilldown(e, it.categoryName), Amount) == it.totalAmount
    ensures |Drilldown(e, it.categoryName)| == it.transactionCount
  {
    var name := it.categoryName;
    CategoryReportItems(e);
    forall t ensures t in Drilldown(e, name) <==> t in e && t.category == name {
      InSelect(e, Named(name), t);
    }
    SumForIsTotalOfSelect(e, name, Amount);
    SumForIsTotalOfSelect(e, name, Count);
    CountIsLength(Drilldown(e, name));
  }
}
