/** `HomeFragment.kt`: the five most recent transactions and the expense pie with its
    legend. The default-locale `dd MMM yyyy` parser is a parameter, and so is today's date
    (`Date()` is the moment of the refresh, some time after today's midnight). */
module Home {
  import opened Models
  import opened Seqs
  import opened Dates
  import opened Aggregation
  import opened Store

  /** The sort key of the recent list, as a moment counted in half days: a parsed date is
      its midnight, and an unparsable one is "now", later than today's midnight and
      earlier than tomorrow's. */
  function Moment(parse: string -> Option<Date>, today: Date, t: Transaction): int {
    match parse(t.date)
    case Some(d) => 2 * DayNumber(d)
    case None => 2 * DayNumber(today) + 1
  }

  /** `sortedByDescending { moment }`: the newer transaction goes first. */
  function NewerFirst(parse: string -> Option<Date>, today: Date): (Transaction, Transaction) -> bool {
    (a: Transaction, b: Transaction) => Moment(parse, today, a) >= Moment(parse, today, b)
  }

  lemma NewerFirstIsTotalPreorder(parse: string -> Option<Date>, today: Date)
    ensures TotalPreorder(NewerFirst(parse, today))
  {
  }

  /** The listing sorted newest first. */
  function ByMoment(parse: string -> Option<Date>, today: Date, ts: seq<Transaction>): seq<Transaction> {
    Sort(ts, NewerFirst(parse, today))
  }

  /** `sortedByDescending { … }.take(5)`. */
  function Recent(parse: string -> Option<Date>, today: Date, ts: seq<Transaction>): seq<Transaction> {
    Take(ByMoment(parse, today, ts), 5)
  }

  /** The recent list holds five transactions (all of them when there are fewer), newest
      first; with the ones left out it makes up the whole ledger, and none left out is newer
      than one shown. */
  lemma RecentAreNewest(parse: string -> Option<Date>, today: Date, ts: seq<Transaction>)
    ensures |Recent(parse, today, ts)| == if |ts| < 5 then |ts| else 5
    ensures Sorted(Recent(parse, today, ts), NewerFirst(parse, today))
    ensures multiset(Recent(parse, today, ts)) + multiset(ByMoment(parse, today, ts)[|Recent(parse, today, ts)|..])
            == multiset(ts)
    ensures forall i, j :: 0 <= i < |Recent(parse, today, ts)| <= j < |ts| ==>
              Moment(parse, today, Recent(parse, today, ts)[i]) >= Moment(parse, today, ByMoment(parse, today, ts)[j])
  {
    var s := ByMoment(parse, today, ts);
    var r := Recent(parse, today, ts);
    NewerFirstIsTotalPreorder(parse, today);
    SortSorted(ts, NewerFirst(parse, today));
    assert s == r + s[|r|..];
    assert multiset(s) == multiset(r) + multiset(s[|r|..]);
    forall i, j | 0 <= i < |r| <= j < |ts|
      ensures Moment(parse, today, r[i]) >= Moment(parse, today, s[j])
    {
      assert NewerFirst(parse, today)(s[i], s[j]);
    }
  }

  /** In the sorted listing a strictly newer transaction always comes first; in particular
      one with an unparsable date comes ahead of every transaction dated today or
      earlier (the reports screen does the opposite and dates it to 1970). */
  lemma UnparsableSortsAsNow(parse: string -> Option<Date>, today: Date, ts: seq<Transaction>, i: int, j: int)
    requires 0 <= i < |ts| && 0 <= j < |ts|
    requires parse(ByMoment(parse, today, ts)[i].date).None?
    requires parse(ByMoment(parse, today, ts)[j].date).Some?
    requires DayNumber(parse(ByMoment(parse, today, ts)[j].date).value) <= DayNumber(today)
    ensures i < j
  {
    NewerFirstIsTotalPreorder(parse, today);
    SortSorted(ts, NewerFirst(parse, today));
  }

  // ---------------------------------------------------------------------------------------
  // The pie and its legend

  /** One pie slice: a category and its total. */
  function SliceValue(entry: (string, int)): int {
    entry.1
  }

  /** The pie: nothing without expenses, otherwise `groupBy { it.category }` of the expense
      transactions with each group's sum, in first-occurrence order. */
  function PieEntries(ts: seq<Transaction>): seq<(string, int)> {
    var expenses := Select(ts, Expense);
    if expenses == [] then [] else GroupSums(expenses)
  }

  /** Rows pairing each name with its sum add up to the sum over the names. */
  lemma {:induction false} RowsSum(e: seq<Transaction>, names: seq<string>, rows: seq<(string, int)>)
    requires |rows| == |names|
    requires forall i :: 0 <= i < |rows| ==> rows[i].1 == SumFor(e, names[i], Amount)
    ensures SumBy(rows, SliceValue) == SumOverNames(e, names, Amount)
  {
    if names != [] {
      var n := |names| - 1;
      RowsSum(e, names[..n], rows[..n]);
    }
  }

  /** One slice per expense category, in first-occurrence order, each valued at that
      category's expense total; the slices add up to the total expense; no slices exactly
      when there is no expense. */
  lemma PieEntriesFacts(ts: seq<Transaction>)
    ensures PieEntries(ts) == [] <==> forall t :: t in ts ==> !t.isExpense
    ensures |PieEntries(ts)| == |Groups(Select(ts, Expense))|
    ensures forall i :: 0 <= i < |PieEntries(ts)| ==>
              && PieEntries(ts)[i].0 == Groups(Select(ts, Expense))[i]
              && PieEntries(ts)[i].1 == SumFor(Select(ts, Expense), PieEntries(ts)[i].0, Amount)
    ensures forall c :: c in Groups(Select(ts, Expense)) <==> exists t :: t in ts && t.isExpense && t.category == c
    ensures InFirstOccurrenceOrder(Groups(Select(ts, Expense)), CategoryNames(Select(ts, Expense)))
    ensures SumBy(PieEntries(ts), SliceValue) == Total(Select(ts, Expense), Amount)
  {
    var e := Select(ts, Expense);
    forall t | t in ts ensures t in e <==> t.isExpense {
      InSelect(ts, Expense, t);
    }
    forall t | t in e ensures t in ts {
      InSelect(ts, Expense, t);
    }
    forall c ensures c in Groups(e) <==> exists t :: t in ts && t.isExpense && t.category == c {
      InGroups(e, c);
    }
    DistinctFirstOccurrenceOrder(CategoryNames(e));
    RowsSum(e, Groups(e), PieEntries(ts));
    GroupsPartition(e, Amount);
  }

  /** The pie's palette. */
  const Colors: seq<string> := ["#FF6B6B", "#4ECDC4", "#FFD166", "#118AB2", "#06D6A0", "#7E57C2", "#EF5350"]

  /** A legend row: a colour and a category name. */
  datatype LegendItem = LegendItem(color: string, name: string)

  /** `entries.mapIndexed { index, e -> LegendItem(colors[index % colors.size], e.label) }`. */
  function Legend(entries: seq<(string, int)>): seq<LegendItem> {
    seq(|entries|, i requires 0 <= i < |entries| => LegendItem(Colors[i % |Colors|], entries[i].0))
  }

  /** One legend row per slice, with its name; the palette repeats every seven rows, and
      the first seven rows all have different colours. */
  lemma LegendFacts(entries: seq<(string, int)>)
    ensures |Legend(entries)| == |entries|
    ensures forall i :: 0 <= i < |entries| ==> Legend(entries)[i].name == entries[i].0
    ensures forall i :: 0 <= i < |entries| && i + 7 < |entries| ==> Legend(entries)[i + 7].color == Legend(entries)[i].color
    ensures forall i, j :: 0 <= i < j < |entries| && j < 7 ==> Legend(entries)[i].color != Legend(entries)[j].color
  {
    forall i | 0 <= i < |entries| && i + 7 < |entries|
      ensures Legend(entries)[i + 7].color == Legend(entries)[i].color
    {
      assert (i + 7) % 7 == i % 7;
    }
  }

  class HomeScreen {
    /** The screen's copy of the ledger. */
    var transactions: seq<Transaction>
    const store: LedgerStore

    constructor (store: LedgerStore)
      ensures this.store == store && transactions == []
    {
      this.store := store;
      transactions := [];
    }

    /** `loadDataAndUpdateUI`: refills the copy from the store (`clear` then `addAll`), then
        hands the recent five, the pie slices and the legend to the views. */
    method LoadDataAndUpdateUI(parse: string -> Option<Date>, today: Date)
      returns (recent: seq<Transaction>, pie: seq<(string, int)>, legend: seq<LegendItem>)
      modifies this
      ensures transactions == store.GetAllTransactions()
      ensures recent == Recent(parse, today, transactions)
      ensures pie == PieEntries(transactions) && legend == Legend(pie)
    {
      var allData := store.GetAllTransactions();
      transactions := [];
      transactions := transactions + allData;
      recent := Recent(parse, today, transactions);
      pie := PieEntries(transactions);
      legend := Legend(pie);
    }
  }
}
