# SmartSpend ledger engine in Dafny

SmartSpend is an Android personal-finance app. Users record income and expense
transactions against named categories. Expense categories can carry a budget. The app
shows per-category totals, budget progress, a home pie chart, six-month trends and the
top spending categories. This project models the logic under the screens. Together it
forms a small ledger engine:

- **The ledger store** (`Store`). The SQLite database is an in-memory class
  `LedgerStore`. It holds two tables, kept in row order, and their `AUTOINCREMENT`
  counters. Its operations are the queries and updates of `DatabaseHelper`. It keeps the
  `UNIQUE` name constraint: a duplicate insert returns -1, and an update onto a taken name
  is `Rejected` (the thrown constraint exception).
- **Aggregation** (`Aggregation`, `Dates`, `Text`, `Numbers`, `Seqs`). This part covers
  filtering, sums and `groupBy` over the category name (exact string equality), and
  calendar months. It also models Kotlin's `trim()`, SQLite's text order, and the
  truncating, saturating `Float.toInt()` of a per-cent quotient.
- **The screens' logic**:
  - `Reports`: time window, trends, summary, top 5, category report and drill-down.
  - `Home`: the recent five, the pie and its legend.
  - `TransactionsScreen`: the in-memory list, submit, delete, the spent-cache recompute,
    the choice list and the budget alert tiers.
  - `CategoriesScreen`: sync plus the active filter, add, and the delete rule.
  - `BudgetView`: one row of the category list.
  - `TransactionStorage`: the legacy per-category fold.
- **The launch** (`Startup`). On launch the app renames the built-in categories for the
  current language, seeds the 14-entry catalog, and adds sample transactions.
  - A completed launch leaves the tables in sync, seeded and non-empty.
  - A launch on such tables writes nothing, so a second launch changes nothing.

Amounts are whole đồng and modelled as integers. Dates are `(year, month 0..11, day)`.
Parsing a date is an abstract function returning an `Option`. "Now" is a parameter. So is
the app's string resource lookup (`strings: key -> Option<name>`).

Behaviours of the code a reader may not expect, which the model keeps:

- **Zero budget in the alert tiers.** `checkSpendingLimits` has no zero guard. With a zero
  budget, any spending reads as +Infinity per cent and raises an "exceeded" alert whose
  excess is `Int.MAX_VALUE - 100` (`ZeroBudgetAlert`). No category is exempt. No caller
  of `checkSpendingLimits` appears in the files modelled.
- **Unparsable dates.** The reports screen dates them to 1970. The home screen sorts them
  as "now", ahead of everything dated today or earlier (`UnparsableSortsAsNow`).
  `getAllTransactions` orders by the raw text, which is not chronological
  (`DateTextOrderIsNotChronological`).
- **Name-sync can crash.** `updateCategory` does not catch a `UNIQUE` clash. A built-in
  category whose new localized name is already taken by another row makes name-sync throw,
  and the launch stops.
- **Seeding skips taken names.** Seeding is all-or-nothing only with respect to existing
  built-in rows. Each catalog insert whose name is already taken is refused, skipped
  silently, and does not leave the id counter advanced.
- **Where recomputes happen.**
  - The spent cache is written back only after transaction changes
    (`updateCategorySpending`), and from the expense map even for income categories.
  - The categories screen recomputes totals on its own copy only.
  - The legacy `TransactionStorage` fold sums income and expense alike.
- **Negative budgets.** A category's budget is whatever `toFloatOrNull` parsed, so it may
  be negative.
- **Unsaved ids.** Entries added or edited on the transactions screen keep id 0 until the
  list is reloaded, so deleting or editing them again touches no store row
  (`UnsavedEntryNamesNoRow`).

## Model

Paths are relative to the repository root.

| member | source | states |
|---|---|---|
| Dates.PreviousMonthWraps | app/src/main/java/com/example/smartspend2/ReportsFragment.kt:251-254 | one month back from January is December of the year before; otherwise the month before in the same year |
| Dates.AddMonthsAdd | app/src/main/java/com/example/smartspend2/ReportsFragment.kt:190-211 | stepping the calendar by j then k months is stepping it by j + k |
| Dates.DayNumberOrdersDates | app/src/main/java/com/example/smartspend2/HomeFragment.kt:68-75 | the day number used as sort key orders dates chronologically, in both directions |
| Text.TrimSpec | app/src/main/java/com/example/smartspend2/TransactionsFragment.kt:122-125 | `trim()` yields a contiguous piece of the input with no whitespace at either end, and everything cut away is whitespace |
| Text.TrimEmpty | app/src/main/java/com/example/smartspend2/TransactionsFragment.kt:128 | the trimmed text is empty exactly when the input is all whitespace |
| Text.TrimIdempotent | app/src/main/java/com/example/smartspend2/CategoriesFragment.kt:126 | trimming a trimmed name changes nothing |
| Text.LexLeqAntisymmetric | app/src/main/java/com/example/smartspend2/DatabaseHelper.kt:212 | two names each ordered before the other are equal, so name order ties only equal names |
| Aggregation.InSelect | app/src/main/java/com/example/smartspend2/ReportsFragment.kt:287 | `filter` keeps a transaction exactly when it is in the list and meets the condition |
| Aggregation.SelectMultiset | app/src/main/java/com/example/smartspend2/ReportsFragment.kt:244-270 | `filter` keeps every copy of a matching row and no copy of any other |
| Aggregation.SelectBoth | app/src/main/java/com/example/smartspend2/ReportsFragment.kt:139-146 | filtering by one condition and then another is filtering once by both |
| Aggregation.IncomePlusExpense | app/src/main/java/com/example/smartspend2/ReportsFragment.kt:278-279 | the income part and the expense part of any list add up to the whole list, for sums and for counts |
| Aggregation.CountIsLength | app/src/main/java/com/example/smartspend2/ReportsFragment.kt:373 | counting rows gives the list size |
| Aggregation.Groups | app/src/main/java/com/example/smartspend2/HomeFragment.kt:98 | the `groupBy` keys have no duplicates and are exactly the category names that occur |
| Aggregation.InGroups | app/src/main/java/com/example/smartspend2/ReportsFragment.kt:302 | a name is a group key exactly when some transaction carries it |
| Aggregation.SumForIsTotalOfSelect | app/src/main/java/com/example/smartspend2/ReportsFragment.kt:380 | a group's sum equals the sum of `filter { it.category == name }` |
| Aggregation.SumForAbsent | app/src/main/java/com/example/smartspend2/CategoriesFragment.kt:81-83 | a name no transaction carries sums to 0, the value `?: 0f` fills in |
| Aggregation.GroupsPartition | app/src/main/java/com/example/smartspend2/ReportsFragment.kt:302-303 | the group sums add up to the total of the whole list, for amounts and for counts |
| Aggregation.TotalsAppend | app/src/main/java/com/example/smartspend2/storage/TransactionStorage.kt:35-38 | adding one transaction to the per-category map raises only its own category, by its amount, starting from 0 |
| Aggregation.TotalsSumToTotal | app/src/main/java/com/example/smartspend2/storage/TransactionStorage.kt:31-40 | the values of the per-category map add up to the sum of all amounts |
| Numbers.PercentToIntValue | app/src/main/java/com/example/smartspend2/TransactionsFragment.kt:216-223 | `toInt()` of the per-cent quotient: the per cent truncated toward zero while it fits an `Int`, `Int.MAX_VALUE`/`Int.MIN_VALUE` beyond; with a zero budget `Int.MAX_VALUE` exactly when something was spent and 0 exactly when nothing was; a negative budget flips both signs |
| Numbers.TruncDivMonotone | app/src/main/java/com/example/smartspend2/adapters/CategoryAdapter.kt:32 | division truncating toward zero by a positive divisor never decreases when the dividend grows |
| Store.NameOrderIsTotalPreorder | app/src/main/java/com/example/smartspend2/DatabaseHelper.kt:212 | `ORDER BY name ASC` compares every pair of rows and is transitive |
| Store.LaterDateTextIsTotalPreorder | app/src/main/java/com/example/smartspend2/DatabaseHelper.kt:119 | `ORDER BY date DESC` on the text compares every pair of rows and is transitive |
| Store.DateTextOrderIsNotChronological | app/src/main/java/com/example/smartspend2/DatabaseHelper.kt:119 | the listing puts "31 Dec 2025" ahead of the later "01 Jan 2026" |
| Store.Migrated | app/src/main/java/com/example/smartspend2/DatabaseHelper.kt:182-188 | same length; exactly the rows in the old category get the new one; every other row is unchanged |
| Store.MigratedSums | app/src/main/java/com/example/smartspend2/DatabaseHelper.kt:182-188 | the migration hands the old category's whole sum to the new one and leaves the old one with 0 |
| Store.RewrittenFacts | app/src/main/java/com/example/smartspend2/DatabaseHelper.kt:164-173 | `UPDATE … WHERE id = ?` keeps every row's id and leaves the other rows, in order, as they were; the new contents appear when some row has the id, and with no such row nothing changes; a valid table stays valid |
| Store.ReadGroupedSums | app/src/main/java/com/example/smartspend2/DatabaseHelper.kt:257-261 | the cursor loop over the `GROUP BY` rows builds exactly the per-category sum map |
| Store.SpendingMapKeys | app/src/main/java/com/example/smartspend2/DatabaseHelper.kt:244-264 | the spending map has a key exactly for the categories of expense rows, valued at their sum |
| Store.IncomeMapKeys | app/src/main/java/com/example/smartspend2/DatabaseHelper.kt:270-289 | the income map has a key exactly for the categories of income rows |
| Store.IncomeRowIgnoredBySpending | app/src/main/java/com/example/smartspend2/DatabaseHelper.kt:252 | an income row does not change the spending map |
| Store.ExpenseRowIgnoredByIncome | app/src/main/java/com/example/smartspend2/DatabaseHelper.kt:277 | an expense row does not change the income map |
| Store.ByTypeOrder | app/src/main/java/com/example/smartspend2/DatabaseHelper.kt:315-345 | the rows of one type by name are the name-ordered listing with the other type left out, and hold exactly the rows of that type |
| Store.LedgerStore.constructor | app/src/main/java/com/example/smartspend2/DatabaseHelper.kt:44-64 | a new database has both tables empty and valid |
| Store.LedgerStore.GetAllTransactions | app/src/main/java/com/example/smartspend2/DatabaseHelper.kt:114-137 | every row, each as often as stored, in descending date-text order |
| Store.LedgerStore.InsertTransaction | app/src/main/java/com/example/smartspend2/DatabaseHelper.kt:142-152 | appends exactly one row under the next id, which no existing row has; the categories are untouched |
| Store.LedgerStore.DeleteTransaction | app/src/main/java/com/example/smartspend2/DatabaseHelper.kt:157-159 | removes exactly the rows with that id, keeping the order of the rest; the categories are untouched |
| Store.LedgerStore.UpdateTransaction | app/src/main/java/com/example/smartspend2/DatabaseHelper.kt:164-173 | the table becomes the rewritten table; nothing else changes |
| Store.LedgerStore.MigrateTransactions | app/src/main/java/com/example/smartspend2/DatabaseHelper.kt:182-188 | the table becomes the migrated table; the categories are untouched |
| Store.LedgerStore.InsertCategory | app/src/main/java/com/example/smartspend2/DatabaseHelper.kt:195-205 | a taken name gives -1 and no change; otherwise exactly one row is appended under the next id, which no existing row has |
| Store.LedgerStore.GetAllCategories | app/src/main/java/com/example/smartspend2/DatabaseHelper.kt:210-230 | every row, each as often as stored, in ascending name order |
| Store.LedgerStore.DeleteCategory | app/src/main/java/com/example/smartspend2/DatabaseHelper.kt:235-238 | removes exactly the rows with that name; the transactions are untouched |
| Store.LedgerStore.CalculateCategorySpending | app/src/main/java/com/example/smartspend2/DatabaseHelper.kt:244-264 | the per-category sums of the expense rows |
| Store.LedgerStore.CalculateCategoryIncome | app/src/main/java/com/example/smartspend2/DatabaseHelper.kt:270-289 | the per-category sums of the income rows |
| Store.LedgerStore.UpdateCategory | app/src/main/java/com/example/smartspend2/DatabaseHelper.kt:295-310 | 0 rows when no row has the id; a rejection when another row has the name; otherwise 1 row, where the matched row takes every field but its id and key; ids and keys never change |
| Store.LedgerStore.GetCategoriesByType | app/src/main/java/com/example/smartspend2/DatabaseHelper.kt:315-345 | the name-ordered listing restricted to one type, holding exactly the rows of that type |
| TransactionStorage.CalculateCategorySpending | app/src/main/java/com/example/smartspend2/storage/TransactionStorage.kt:31-40 | the `forEach` fold builds the per-category sum of all the transactions, income included |
| TransactionStorage.KeysAreNamedCategories | app/src/main/java/com/example/smartspend2/storage/TransactionStorage.kt:33-39 | a category is a key exactly when some transaction names it, valued at the sum of their amounts |
| TransactionStorage.EmptyListEmptyMap | app/src/main/java/com/example/smartspend2/storage/TransactionStorage.kt:33-39 | an empty list gives the empty map |
| TransactionsScreen.RespentValues | app/src/main/java/com/example/smartspend2/TransactionsFragment.kt:190-197 | after the recompute each category's cache is the expense total for its name, income categories included, and no other field changes |
| TransactionsScreen.RespentIdempotent | app/src/main/java/com/example/smartspend2/TransactionsFragment.kt:190-197 | recomputing twice is recomputing once |
| TransactionsScreen.ChoiceListFacts | app/src/main/java/com/example/smartspend2/TransactionsFragment.kt:91-97 | the four defaults come first; every stored name is in the list; no name appears twice; first-occurrence order |
| TransactionsScreen.TransactionsScreen.constructor | app/src/main/java/com/example/smartspend2/TransactionsFragment.kt:61 | the screen starts with the store's listing |
| TransactionsScreen.TransactionsScreen.LoadTransactions | app/src/main/java/com/example/smartspend2/TransactionsFragment.kt:70-74 | the list is replaced by the store's listing |
| TransactionsScreen.TransactionsScreen.Choices | app/src/main/java/com/example/smartspend2/TransactionsFragment.kt:91-97 | the choices are exactly the defaults and the stored names |
| TransactionsScreen.TransactionsScreen.UpdateCategorySpending | app/src/main/java/com/example/smartspend2/TransactionsFragment.kt:190-198 | every stored category gets the expense total for its name, 0 when absent; the transactions and counters are untouched |
| TransactionsScreen.TransactionsScreen.Submit | app/src/main/java/com/example/smartspend2/TransactionsFragment.kt:121-150 | nothing changes unless the trimmed title and date are non-empty and the amount parsed; an edit rewrites the row by id and replaces the entry at the position; an add inserts one row under the next id and appends the entry; the entry has id 0; then the caches are recomputed; the transaction counter moves by one on an add only, the category counter never |
| TransactionsScreen.TransactionsScreen.Delete | app/src/main/java/com/example/smartspend2/TransactionsFragment.kt:179-184 | the rows with the entry's id go from the store, the entry at the position goes from the list, and the caches are recomputed; both counters stay |
| TransactionsScreen.UnsavedEntryNamesNoRow | app/src/main/java/com/example/smartspend2/TransactionsFragment.kt:131-144 | an entry with id 0 names no row, so deleting or rewriting by its id leaves the table as it is |
| TransactionsScreen.AlertTiers | app/src/main/java/com/example/smartspend2/TransactionsFragment.kt:214-242 | with a positive budget: exceeded exactly at 100% or more, nearing exactly from 90% to below 100%, almost full exactly from 80% to below 90%, no alert exactly below 80% |
| TransactionsScreen.AlertPercents | app/src/main/java/com/example/smartspend2/TransactionsFragment.kt:223-237 | the per cent a warning reports lies in its tier's range and is the whole per cent spent, rounded down; an excess is never negative, is that per cent less 100 while it fits an `Int`, and `Int.MAX_VALUE - 100` beyond |
| TransactionsScreen.ZeroBudgetAlert | app/src/main/java/com/example/smartspend2/TransactionsFragment.kt:216 | a zero budget with spending gives "exceeded" by `Int.MAX_VALUE - 100`; with none, no alert |
| TransactionsScreen.AlertMonotone | app/src/main/java/com/example/smartspend2/TransactionsFragment.kt:218-240 | for a fixed positive budget, the tier never drops when spending grows |
| TransactionsScreen.AlertBoundaries | app/src/main/java/com/example/smartspend2/TransactionsFragment.kt:218-240 | a budget of 1000: 799 none, 800 and 899 almost full, 900 nearing, 1000 exceeded by 0, 1500 exceeded by 50 |
| TransactionsScreen.SpendingAlertsFor | app/src/main/java/com/example/smartspend2/TransactionsFragment.kt:214-242 | an alert is raised for a name exactly when a category of that name is in the tier that alert belongs to |
| CategoriesScreen.SyncedValue | app/src/main/java/com/example/smartspend2/CategoriesFragment.kt:79-85 | an expense category shows the sum of the expense rows with its name, an income category the sum of the income rows; only the spent field changes |
| CategoriesScreen.SyncedAllValues | app/src/main/java/com/example/smartspend2/CategoriesFragment.kt:79-85 | every listed category keeps its place and all its fields except the total, which becomes the sum of the transactions of its own type under its name |
| CategoriesScreen.ActiveCategories | app/src/main/java/com/example/smartspend2/CategoriesFragment.kt:87-89 | user categories are always shown; a built-in one with no budget and no transaction of its type under its name is hidden |
| CategoriesScreen.CategoriesScreen.LoadAndSync | app/src/main/java/com/example/smartspend2/CategoriesFragment.kt:73-93 | the list is the active categories of the recomputed name-ordered listing, in order; the store is not written |
| CategoriesScreen.CategoriesScreen.AddCategory | app/src/main/java/com/example/smartspend2/CategoriesFragment.kt:125-150 | invalid exactly when the trimmed name is empty or an expense budget did not parse; duplicate exactly when the trimmed name is taken; both change nothing; otherwise one row with the trimmed name, a budget of 0 for income, nothing spent and no key is appended under the next category id, then the list reloads; the transactions and their counter stay |
| CategoriesScreen.CategoriesScreen.DeleteCategory | app/src/main/java/com/example/smartspend2/CategoriesFragment.kt:160-179 | a built-in category is refused with no change; a user one first hands its transactions to the fallback, then its row is deleted by name, then the list reloads; both counters stay |
| CategoriesScreen.DeletedNameIsGone | app/src/main/java/com/example/smartspend2/CategoriesFragment.kt:167-174 | after migrate-then-delete no transaction and no category has the old name, the fallback holds the migrated sum, and the ledger total is unchanged |
| CategoriesScreen.MigratedTotal | app/src/main/java/com/example/smartspend2/CategoriesFragment.kt:170 | migration loses no amount |
| Reports.WindowCriterionMeets | app/src/main/java/com/example/smartspend2/ReportsFragment.kt:238-272 | each spinner position's filter keeps exactly the dates of its window: this month, last month with the January wrap, this year |
| Reports.FilterByTimeKeeps | app/src/main/java/com/example/smartspend2/ReportsFragment.kt:238-272 | the filtered list holds every transaction dated in the window as often as it occurs and nothing else; any other position keeps all |
| Reports.FilterByTimeIsFilter | app/src/main/java/com/example/smartspend2/ReportsFragment.kt:238-272 | the filtered list is the order-keeping filter of the window predicate |
| Reports.UnparsableDateOutsideRecentWindows | app/src/main/java/com/example/smartspend2/ReportsFragment.kt:386-392 | a date neither parser reads falls into no window after 1970 |
| Reports.TrendBarSeries | app/src/main/java/com/example/smartspend2/ReportsFragment.kt:183-211 | six consecutive months, oldest first, ending with the reference month; each with the income sum and the expense sum of the transactions dated in it |
| Reports.CategoryTrendSeries | app/src/main/java/com/example/smartspend2/ReportsFragment.kt:124-151 | the same six months, each with the sum of the expense transactions of exactly that category dated in it |
| Reports.CategoryPointIsShareOfExpenseBar | app/src/main/java/com/example/smartspend2/ReportsFragment.kt:139-147 | a category's trend point is that category's group sum within the same month's expense bar |
| Reports.UpdateReportConsistent | app/src/main/java/com/example/smartspend2/ReportsFragment.kt:276-290 | income plus expense is the list total, so the balance is the list total less twice the expense; the expense list is exactly the expense transactions and both charts are built from it; the report's totals add up to the expense total and its counts to the number of expense transactions |
| Reports.GroupSumsRows | app/src/main/java/com/example/smartspend2/ReportsFragment.kt:302-303 | one distinct row per category, each with that category's sum |
| Reports.TopSpendingSize | app/src/main/java/com/example/smartspend2/ReportsFragment.kt:292-306 | no chart exactly when there are no expenses; otherwise five bars, or one per category when there are fewer |
| Reports.TopSpendingEntries | app/src/main/java/com/example/smartspend2/ReportsFragment.kt:301-306 | each bar is a category of the expenses with its sum |
| Reports.TopSpendingDistinct | app/src/main/java/com/example/smartspend2/ReportsFragment.kt:302 | no category has two bars |
| Reports.TopSpendingAscending | app/src/main/java/com/example/smartspend2/ReportsFragment.kt:304-306 | after `reversed()` the bars ascend |
| Reports.TopSpendingHoldsLargest | app/src/main/java/com/example/smartspend2/ReportsFragment.kt:304-305 | a category without a bar sums to no more than any bar |
| Reports.CategoryReportItems | app/src/main/java/com/example/smartspend2/ReportsFragment.kt:366-376 | one item per expense category with its total and count, sorted by total, largest first |
| Reports.CategoryReportSums | app/src/main/java/com/example/smartspend2/ReportsFragment.kt:366-376 | the item totals add up to the expense total and the counts to the number of expense transactions |
| Reports.DrilldownMatchesItem | app/src/main/java/com/example/smartspend2/ReportsFragment.kt:380-406 | the drill-down holds exactly the expense transactions of the category; its total is the item's total and its size the item's count |
| Startup.CatalogFacts | app/src/main/java/com/example/smartspend2/MainActivity.kt:62-77 | 14 entries with distinct non-empty keys; the first seven are expense categories, the other seven income; the last is `cat_other`, an income category |
| Startup.RenamedChangesOnlyNames | app/src/main/java/com/example/smartspend2/MainActivity.kt:92-103 | the sync changes only the name; user categories are never touched; a built-in whose key names a string takes that string; renaming twice is renaming once |
| Startup.SyncIdempotent | app/src/main/java/com/example/smartspend2/MainActivity.kt:96-101 | a synced table is in sync, and a table is in sync exactly when syncing leaves it as it is |
| Startup.CatalogRowInSync | app/src/main/java/com/example/smartspend2/MainActivity.kt:119-127 | a seeded row is built-in and already carries its synced name |
| Startup.SyncRow | app/src/main/java/com/example/smartspend2/MainActivity.kt:94-102 | a row whose name is already right, or whose key names no string, causes no write; otherwise the row with its id takes the new name, unless another row has that name, which is the crash |
| Startup.SyncDefaultCategoryNames | app/src/main/java/com/example/smartspend2/MainActivity.kt:88-104 | without a crash the table becomes the synced table; a crash happens only when the table was not in sync; every row is either as it was or synced; the transactions and counters are untouched |
| Startup.SeedingKeepsTable | app/src/main/java/com/example/smartspend2/MainActivity.kt:119-128 | the old rows stay first; only built-in rows already in sync are appended; afterwards every catalog name is taken |
| Startup.SeedingAllTaken | app/src/main/java/com/example/smartspend2/MainActivity.kt:119-128 | when every catalog name is taken, seeding leaves the table and counter as they were |
| Startup.SeedingFresh | app/src/main/java/com/example/smartspend2/MainActivity.kt:119-128 | with distinct, untaken names, one row per entry is appended in catalog order under consecutive ids, with budget 0, nothing spent and the entry's key |
| Startup.SeededTable | app/src/main/java/com/example/smartspend2/MainActivity.kt:114-129 | after seeding the table is seeded; a table in sync stays in sync; a seeding that adds rows adds a built-in row |
| Startup.CreateDefaultCategoriesIfNeeded | app/src/main/java/com/example/smartspend2/MainActivity.kt:114-129 | a table with a built-in row is untouched; otherwise the table and counter become the seeding by the catalog; the result is seeded; a seeded table is untouched; the sync is kept |
| Startup.DummyTransactionsTotals | app/src/main/java/com/example/smartspend2/MainActivity.kt:141-148 | five samples: four expenses of 3130000 in all and one income of 10000000 |
| Startup.AddDummyData | app/src/main/java/com/example/smartspend2/MainActivity.kt:138-154 | a ledger with rows is not written; an empty one gets the five samples in order under the next five ids, and the counter advances by five; the categories and their counter are untouched |
| Startup.Launch | app/src/main/java/com/example/smartspend2/MainActivity.kt:40-43 | a launch that does not crash leaves the tables in sync, seeded and with transactions; a launch on such tables does not crash and writes nothing, so a second launch changes nothing |
| Home.NewerFirstIsTotalPreorder | app/src/main/java/com/example/smartspend2/HomeFragment.kt:68-75 | the recent-list comparison orders every pair and is transitive |
| Home.RecentAreNewest | app/src/main/java/com/example/smartspend2/HomeFragment.kt:68-75 | five transactions, or all when there are fewer, newest first; with the ones left out they make up the ledger; none left out is newer than one shown |
| Home.UnparsableSortsAsNow | app/src/main/java/com/example/smartspend2/HomeFragment.kt:69-74 | an unparsable date sorts ahead of every transaction dated today or earlier |
| Home.PieEntriesFacts | app/src/main/java/com/example/smartspend2/HomeFragment.kt:84-103 | no slices exactly when there is no expense; one slice per expense category in first-occurrence order, valued at its sum; the slices add up to the total expense |
| Home.LegendFacts | app/src/main/java/com/example/smartspend2/HomeFragment.kt:108-112 | one legend row per slice with its name; colours repeat every seven rows and the first seven differ |
| Home.HomeScreen.LoadDataAndUpdateUI | app/src/main/java/com/example/smartspend2/HomeFragment.kt:61-82 | the copy is refilled from the store's listing, and the recent list, slices and legend are computed from it |
| BudgetView.Divisor | app/src/main/java/com/example/smartspend2/adapters/CategoryAdapter.kt:31 | the divisor is positive: the budget when it is positive, else 1 |
| BudgetView.ProgressFacts | app/src/main/java/com/example/smartspend2/adapters/CategoryAdapter.kt:31-33 | the bar never passes 100; a non-negative total never goes below 0 and a negative one is not raised; with a budget it reads 100 exactly when the budget is used up, otherwise the whole per cent rounded down; without a budget any spending fills it |
| BudgetView.ProgressMonotone | app/src/main/java/com/example/smartspend2/adapters/CategoryAdapter.kt:31-33 | more spent on the same budget never moves the bar back |
| BudgetView.RemainingFacts | app/src/main/java/com/example/smartspend2/adapters/CategoryAdapter.kt:28 | remaining plus spent is the budget; remaining is negative exactly when overspent; with a budget, nothing remains exactly when the bar is full |
| BudgetView.ViewFacts | app/src/main/java/com/example/smartspend2/adapters/CategoryAdapter.kt:18-42 | an expense row carries the budget, spent, remaining and progress; an income row only the name and the total received |

## Left out

- The Android UI layer is not modelled: views, dialogs, spinners, adapters' view binding,
  chart configuration, month labels and `DecimalFormat` texts. They are presentation only.
- Notifications are not modelled: `sendNotification`, the channel and the permission
  check are platform I/O. Only the tier decision of `checkSpendingLimits` is.
- SQLite plumbing and the schema migrations (`onCreate`/`onUpgrade`) are not modelled; the
  database is the in-memory `LedgerStore`.
- `ORDER BY` ties, and the row order of `GROUP BY`: SQL leaves both open. The model
  promises only what SQL does: the order by the key, the same rows, and maps that do
  not depend on group order.
- SharedPreferences and Gson persistence are not modelled. This covers
  `TransactionStorage.saveTransactions`/`loadTransactions`, `storage/CategoryStorage.kt`
  and the setup screens. The legacy fold takes its list as a parameter.
- Library and platform calls become parameters:
  - `SimpleDateFormat` parsing becomes an abstract parser.
  - `Calendar.getInstance()` and time zones become a reference month or a date.
  - `getIdentifier`/`getString` become the `strings` function.
- Home.Moment: the time of day is not modelled. A parsed date is its midnight, and "now"
  is a fixed moment after today's midnight and before tomorrow's.
- `Float` and `Double` arithmetic is not modelled. Amounts and sums are exact integers,
  per-cent comparisons are exact, and the rounding of large Float sums is ignored.
- BudgetView.Progress: the quotient is exact before truncation, not Float. The
  ProgressBar's own clamping of values below 0 is not modelled.
- TransactionsScreen.SpendingAlert: a negative budget follows IEEE sign rules for the
  comparisons, and the reported per cent is the exact truncated quotient.
- Seqs.Sort: the contracts promise a sorted permutation, not the relative order of equal
  elements (Kotlin's sorts are stable), so which of two equal sums takes the fifth
  top-spending bar, and the tie order of the category report, are not stated.
- Data-quality logging (`Log.e`) is not modelled; it has no effect on results.
