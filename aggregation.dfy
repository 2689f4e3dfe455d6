/** The aggregation rules shared by every screen: filtering transactions, summing amounts,
    and grouping by the category name (exact string equality, no normalisation). */
module Aggregation {
  import opened Models
  import opened Seqs
  import opened Dates

  /** The conditions the Kotlin `filter { … }` lambdas test. */
  datatype Criterion =
    | Expense
    | Income
    | Named(name: string)
    | DatedIn(parsers: Parsers, period: YearMonth)
    | DatedInYear(parsers: Parsers, year: int)
    | Both(left: Criterion, right: Criterion)

  predicate Meets(t: Transaction, c: Criterion) {
    match c
    case Expense => t.isExpense
    case Income => !t.isExpense
    case Named(n) => t.category == n
    case DatedIn(p, ym) => MonthOf(ParseDate(p, t.date)) == ym
    case DatedInYear(p, y) => ParseDate(p, t.date).year == y
    case Both(l, r) => Meets(t, l) && Meets(t, r)
  }

  /** Kotlin's `filter`: the transactions meeting `c`, in their original order. */
  function Select(ts: seq<Transaction>, c: Criterion): (r: seq<Transaction>)
    ensures |r| <= |ts|
  {
    if ts == [] then []
    else
      var p := ts[..|ts| - 1];
      assert ts == p + [ts[|ts| - 1]];
      Select(p, c) + if Meets(ts[|ts| - 1], c) then [ts[|ts| - 1]] else []
  }

  lemma SelectAppend(ts: seq<Transaction>, t: Transaction, c: Criterion)
    ensures Select(ts + [t], c) == Select(ts, c) + if Meets(t, c) then [t] else []
  {
    assert (ts + [t])[..|ts|] == ts;
  }

  /** A transaction the condition rejects leaves the selection as it is. */
  lemma SelectUnchanged(ts: seq<Transaction>, t: Transaction, c: Criterion)
    requires !Meets(t, c)
    ensures Select(ts + [t], c) == Select(ts, c)
  {
    SelectAppend(ts, t, c);
    assert Select(ts, c) + [] == Select(ts, c);
  }

  /** `filter` keeps exactly the transactions meeting the condition. */
  lemma {:induction false} InSelect(ts: seq<Transaction>, c: Criterion, t: Transaction)
    ensures t in Select(ts, c) <==> t in ts && Meets(t, c)
  {
    if ts != [] {
      var p := ts[..|ts| - 1];
      assert ts == p + [ts[|ts| - 1]];
      InSelect(p, c, t);
    }
  }

  /** `filter` keeps every copy of a row that meets the condition and drops every other. */
  lemma {:induction false} SelectMultiset(ts: seq<Transaction>, c: Criterion)
    ensures forall t :: multiset(Select(ts, c))[t] == if Meets(t, c) then multiset(ts)[t] else 0
  {
    if ts != [] {
      var p := ts[..|ts| - 1];
      var last := ts[|ts| - 1];
      assert ts == p + [last];
      SelectMultiset(p, c);
      SelectAppend(p, last, c);
    }
  }

  /** What is summed: the amount (`sumOf { it.amount }`) or one per row (`size`). */
  datatype Measure = Amount | Count

  function Weight(t: Transaction, m: Measure): int {
    if m == Amount then t.amount else 1
  }

  /** `sumOf { it.amount }` for `Amount`, the list size for `Count`. */
  function Total(ts: seq<Transaction>, m: Measure): int {
    if ts == [] then 0 else Total(ts[..|ts| - 1], m) + Weight(ts[|ts| - 1], m)
  }

  lemma TotalAppend(a: seq<Transaction>, b: seq<Transaction>, m: Measure)
    ensures Total(a + b, m) == Total(a, m) + Total(b, m)
    decreases |b|
  {
    if b == [] {
      assert a + b == a;
    } else {
      assert (a + b)[..|a + b| - 1] == a + b[..|b| - 1];
      TotalAppend(a, b[..|b| - 1], m);
    }
  }

  /** Counting rows is the length of the list. */
  lemma {:induction false} CountIsLength(ts: seq<Transaction>)
    ensures Total(ts, Count) == |ts|
  {
    if ts != [] {
      CountIsLength(ts[..|ts| - 1]);
    }
  }

  /** Any list splits into its income part and its expense part. */
  lemma {:induction false} IncomePlusExpense(ts: seq<Transaction>, m: Measure)
    ensures Total(Select(ts, Income), m) + Total(Select(ts, Expense), m) == Total(ts, m)
  {
    if ts != [] {
      var p := ts[..|ts| - 1];
      var t := ts[|ts| - 1];
      IncomePlusExpense(p, m);
      TotalAppend(Select(p, Income), if Meets(t, Income) then [t] else [], m);
      TotalAppend(Select(p, Expense), if Meets(t, Expense) then [t] else [], m);
    }
  }

  /** The category names of the transactions, in order. */
  function CategoryNames(ts: seq<Transaction>): (r: seq<string>)
    ensures |r| == |ts|
    ensures forall i :: 0 <= i < |ts| ==> r[i] == ts[i].category
  {
    seq(|ts|, i requires 0 <= i < |ts| => ts[i].category)
  }

  /** The keys of `groupBy { it.category }`, in order of first occurrence. */
  function Groups(ts: seq<Transaction>): (r: seq<string>)
    ensures NoDuplicates(r)
    ensures forall c :: c in r <==> c in CategoryNames(ts)
  {
    Distinct(CategoryNames(ts))
  }

  /** A name is a group key exactly when some transaction carries it. */
  lemma InGroups(ts: seq<Transaction>, c: string)
    ensures c in Groups(ts) <==> exists t :: t in ts && t.category == c
  {
    if c in Groups(ts) {
      var i :| 0 <= i < |ts| && CategoryNames(ts)[i] == c;
      assert ts[i] in ts;
    }
    if exists t :: t in ts && t.category == c {
      var t :| t in ts && t.category == c;
      var i :| 0 <= i < |ts| && ts[i] == t;
      assert CategoryNames(ts)[i] == c;
    }
  }

  lemma GroupsAppend(ts: seq<Transaction>, t: Transaction)
    ensures Groups(ts + [t]) == if t.category in Groups(ts) then Groups(ts) else Groups(ts) + [t.category]
  {
    var all := ts + [t];
    assert CategoryNames(all)[..|all| - 1] == CategoryNames(ts);
  }

  /** The measure of the transactions named `name` (one `groupBy` bucket). */
  function SumFor(ts: seq<Transaction>, name: string, m: Measure): int {
    if ts == [] then 0
    else SumFor(ts[..|ts| - 1], name, m) + if ts[|ts| - 1].category == name then Weight(ts[|ts| - 1], m) else 0
  }

  lemma SumForAppend(ts: seq<Transaction>, t: Transaction, name: string, m: Measure)
    ensures SumFor(ts + [t], name, m) == SumFor(ts, name, m) + if t.category == name then Weight(t, m) else 0
  {
    assert (ts + [t])[..|ts|] == ts;
  }

  /** A bucket's sum is the sum of the transactions `filter { it.category == name }` keeps. */
  lemma {:induction false} SumForIsTotalOfSelect(ts: seq<Transaction>, name: string, m: Measure)
    ensures SumFor(ts, name, m) == Total(Select(ts, Named(name)), m)
  {
    if ts != [] {
      var p := ts[..|ts| - 1];
      var last := ts[|ts| - 1];
      assert ts == p + [last];
      SumForIsTotalOfSelect(p, name, m);
      SelectAppend(p, last, Named(name));
      TotalAppend(Select(p, Named(name)), if last.category == name then [last] else [], m);
    }
  }

  /** A name no transaction carries sums to zero. */
  lemma {:induction false} SumForAbsent(ts: seq<Transaction>, name: string, m: Measure)
    requires name !in Groups(ts)
    ensures SumFor(ts, name, m) == 0
  {
    if ts != [] {
      var p := ts[..|ts| - 1];
      assert ts == p + [ts[|ts| - 1]];
      assert name !in Groups(p);
      SumForAbsent(p, name, m);
      SumForAppend(p, ts[|ts| - 1], name, m);
    }
  }

  /** The sum of `SumFor` over a list of names. */
  function SumOverNames(ts: seq<Transaction>, names: seq<string>, m: Measure): int {
    if names == [] then 0
    else SumOverNames(ts, names[..|names| - 1], m) + SumFor(ts, names[|names| - 1], m)
  }

  lemma {:induction false} SumOverNamesAppend(ts: seq<Transaction>, t: Transaction, names: seq<string>, m: Measure)
    requires NoDuplicates(names)
    ensures SumOverNames(ts + [t], names, m)
            == SumOverNames(ts, names, m) + if t.category in names then Weight(t, m) else 0
  {
    if names != [] {
      var p := names[..|names| - 1];
      assert NoDuplicates(p);
      assert names == p + [names[|names| - 1]];
      SumOverNamesAppend(ts, t, p, m);
      SumForAppend(ts, t, names[|names| - 1], m);
    }
  }

  /** Partition step for a transaction whose category already has a group. */
  lemma PartitionStepKnown(p: seq<Transaction>, t: Transaction, m: Measure)
    requires t.category in Groups(p)
    requires SumOverNames(p, Groups(p), m) == Total(p, m)
    ensures SumOverNames(p + [t], Groups(p + [t]), m) == Total(p + [t], m)
  {
    GroupsAppend(p, t);
    SumOverNamesAppend(p, t, Groups(p), m);
    assert (p + [t])[..|p|] == p;
  }

  /** Partition step for a transaction that opens a new group at the end. */
  lemma PartitionStepNew(p: seq<Transaction>, t: Transaction, m: Measure)
    requires t.category !in Groups(p)
    requires SumOverNames(p, Groups(p), m) == Total(p, m)
    ensures SumOverNames(p + [t], Groups(p + [t]), m) == Total(p + [t], m)
  {
    var g, c, q := Groups(p), t.category, p + [t];
    calc {
      SumOverNames(q, Groups(q), m);
    == { GroupsAppend(p, t); }
      SumOverNames(q, g + [c], m);
    == { assert (g + [c])[..|g|] == g; }
      SumOverNames(q, g, m) + SumFor(q, c, m);
    == { SumOverNamesAppend(p, t, g, m); }
      SumOverNames(p, g, m) + SumFor(q, c, m);
    == { SumForAppend(p, t, c, m); SumForAbsent(p, c, m); }
      Total(p, m) + Weight(t, m);
    == { assert q[..|p|] == p; }
      Total(q, m);
    }
  }

  /** Partition: the groups of `groupBy { it.category }` add up to the whole list. */
  lemma {:induction false} GroupsPartition(ts: seq<Transaction>, m: Measure)
    ensures SumOverNames(ts, Groups(ts), m) == Total(ts, m)
  {
    if ts != [] {
      var p := ts[..|ts| - 1];
      var t := ts[|ts| - 1];
      assert ts == p + [t];
      GroupsPartition(p, m);
      if t.category in Groups(p) {
        PartitionStepKnown(p, t, m);
      } else {
        PartitionStepNew(p, t, m);
      }
    }
  }

  /** `map[category] = sum of amounts`, for every category that occurs. */
  function Totals(ts: seq<Transaction>): (r: map<string, int>)
    ensures forall c :: c in r <==> c in Groups(ts)
    ensures forall c :: c in r ==> r[c] == SumFor(ts, c, Amount)
  {
    map c | c in Groups(ts) :: SumFor(ts, c, Amount)
  }

  /** The per-key half of `TotalsAppend`. */
  lemma TotalsAppendAt(ts: seq<Transaction>, t: Transaction, c: string)
    requires c in Groups(ts + [t])
    ensures Totals(ts + [t])[c] == ValueOr(Totals(ts), c, 0) + if c == t.category then t.amount else 0
  {
    SumForAppend(ts, t, c, Amount);
    if c !in Groups(ts) {
      SumForAbsent(ts, c, Amount);
    }
  }

  /** One step of the `forEach` fold: adding a transaction bumps its category only. */
  lemma TotalsAppend(ts: seq<Transaction>, t: Transaction)
    ensures Totals(ts + [t]) == Totals(ts)[t.category := ValueOr(Totals(ts), t.category, 0) + t.amount]
  {
    var before := Totals(ts);
    var after := Totals(ts + [t]);
    var m := before[t.category := ValueOr(before, t.category, 0) + t.amount];
    GroupsAppend(ts, t);
    assert after.Keys == m.Keys;
    forall c | c in m ensures after[c] == m[c] {
      TotalsAppendAt(ts, t, c);
    }
  }

  /** The values of `m` at `keys`, added up. */
  function SumValues(m: map<string, int>, keys: seq<string>): int
    requires forall k :: k in keys ==> k in m
  {
    if keys == [] then 0 else SumValues(m, keys[..|keys| - 1]) + m[keys[|keys| - 1]]
  }

  lemma {:induction false} SumValuesOfTotals(ts: seq<Transaction>, names: seq<string>)
    requires forall k :: k in names ==> k in Totals(ts)
    ensures SumValues(Totals(ts), names) == SumOverNames(ts, names, Amount)
  {
    if names != [] {
      SumValuesOfTotals(ts, names[..|names| - 1]);
    }
  }

  /** The values of the per-category map add up to the sum of all amounts. */
  lemma TotalsSumToTotal(ts: seq<Transaction>)
    ensures SumValues(Totals(ts), Groups(ts)) == Total(ts, Amount)
  {
    SumValuesOfTotals(ts, Groups(ts));
    GroupsPartition(ts, Amount);
  }

  /** The `(category, sum)` pairs of `groupBy { it.category }` followed by summing each
      bucket, in first-occurrence order. */
  function GroupSums(ts: seq<Transaction>): (rows: seq<(string, int)>)
    ensures |rows| == |Groups(ts)|
    ensures forall i :: 0 <= i < |rows| ==> rows[i] == (Groups(ts)[i], SumFor(ts, Groups(ts)[i], Amount))
  {
    seq(|Groups(ts)|, i requires 0 <= i < |Groups(ts)| => (Groups(ts)[i], SumFor(ts, Groups(ts)[i], Amount)))
  }

  /** Two conditions met by the same transactions select the same list. */
  lemma {:induction false} SelectSameMeets(ts: seq<Transaction>, a: Criterion, b: Criterion)
    requires forall t :: Meets(t, a) == Meets(t, b)
    ensures Select(ts, a) == Select(ts, b)
  {
    if ts != [] {
      SelectSameMeets(ts[..|ts| - 1], a, b);
    }
  }

  /** Filtering twice is filtering once by both conditions. */
  lemma {:induction false} SelectBoth(ts: seq<Transaction>, a: Criterion, b: Criterion)
    ensures Select(Select(ts, a), b) == Select(ts, Both(a, b))
  {
    if ts != [] {
      var p := ts[..|ts| - 1];
      var t := ts[|ts| - 1];
      SelectBoth(p, a, b);
      assert ts == p + [t];
      SelectAppend(p, t, a);
      SelectAppend(p, t, Both(a, b));
      if Meets(t, a) {
        SelectAppend(Select(p, a), t, b);
      } else {
        assert Select(ts, a) == Select(p, a);
      }
    }
  }
}
