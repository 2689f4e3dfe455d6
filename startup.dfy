/** `MainActivity.kt`: what the app does to the database on every launch — re-sync the
    display names of the built-in categories with the current language, seed the built-in
    catalog when no built-in category exists yet, and add the sample transactions when the
    ledger is empty. The string resources are a parameter `strings`: the display name of a
    resource name in the current language, `None` when the app bundles no such string. */
module Startup {
  import opened Models
  import opened Seqs
  import opened Store

  /** `DefaultCategoryInfo`: the stable key (also the name of its string resource) and the
      type of one built-in category. */
  datatype CatalogEntry = CatalogEntry(key: string, isExpense: bool)

  /** `defaultCategoryDefinitions`, in declaration order. */
  const Catalog: seq<CatalogEntry> := [
    CatalogEntry("cat_food", true),
    CatalogEntry("cat_transport", true),
    CatalogEntry("cat_bills", true),
    CatalogEntry("cat_entertainment", true),
    CatalogEntry("cat_shopping", true),
    CatalogEntry("cat_health", true),
    CatalogEntry("cat_education", true),
    CatalogEntry("cat_salary", false),
    CatalogEntry("cat_bonus", false),
    CatalogEntry("cat_allowance", false),
    CatalogEntry("cat_investment", false),
    CatalogEntry("cat_selling", false),
    CatalogEntry("cat_gifted", false),
    CatalogEntry("cat_other", false)
  ]

  function CatalogKeys(): (r: seq<string>)
    ensures |r| == |Catalog|
    ensures forall j :: 0 <= j < |Catalog| ==> r[j] == Catalog[j].key
  {
    seq(|Catalog|, j requires 0 <= j < |Catalog| => Catalog[j].key)
  }

  /** Fourteen entries under fourteen different non-empty keys: the first seven are expense
      categories, the last seven (`cat_other` last) income categories. */
  lemma CatalogFacts()
    ensures |Catalog| == 14
    ensures NoDuplicates(CatalogKeys())
    ensures forall j :: 0 <= j < |Catalog| ==> Catalog[j].key != ""
    ensures forall j :: 0 <= j < |Catalog| ==> (Catalog[j].isExpense <==> j < 7)
    ensures Catalog[13] == CatalogEntry("cat_other", false)
  {
  }

  /** Every entry's key has its string resource (`R.string.cat_…` exists at build time). */
  predicate HasStrings(entries: seq<CatalogEntry>, strings: string -> Option<string>) {
    forall j :: 0 <= j < |entries| ==> strings(entries[j].key).Some?
  }

  /** The row seeded for a catalog entry: its localized name, nothing budgeted or spent, its
      type and its key. */
  function CatalogRow(e: CatalogEntry, strings: string -> Option<string>): Category
    requires strings(e.key).Some?
  {
    Category(0, strings(e.key).value, 0, 0, e.isExpense, Some(e.key))
  }

  // ---------------------------------------------------------------------------------------
  // Name sync

  /** A category after the sync: a built-in one whose key names a bundled string takes that
      string as its name; every other category is left alone. */
  function Renamed(c: Category, strings: string -> Option<string>): Category {
    if IsBuiltIn(c) && strings(c.key.value).Some? then c.(name := strings(c.key.value).value) else c
  }

  function RenamedAll(cs: seq<Category>, strings: string -> Option<string>): (r: seq<Category>)
    ensures |r| == |cs|
    ensures forall k :: 0 <= k < |cs| ==> r[k] == Renamed(cs[k], strings)
  {
    seq(|cs|, k requires 0 <= k < |cs| => Renamed(cs[k], strings))
  }

  /** Every row already carries the name the sync would give it. */
  predicate InSync(cs: seq<Category>, strings: string -> Option<string>) {
    forall k :: 0 <= k < |cs| ==> Renamed(cs[k], strings) == cs[k]
  }

  /** The sync touches only the name, and only of built-in categories; a second sync with
      the same strings changes nothing. */
  lemma RenamedChangesOnlyNames(c: Category, strings: string -> Option<string>)
    ensures Renamed(c, strings).(name := c.name) == c
    ensures !IsBuiltIn(c) ==> Renamed(c, strings) == c
    ensures IsBuiltIn(c) && strings(c.key.value).Some? ==> Renamed(c, strings).name == strings(c.key.value).value
    ensures Renamed(Renamed(c, strings), strings) == Renamed(c, strings)
  {
  }

  /** A synced table is in sync, and a table is in sync exactly when syncing leaves it as
      it is. */
  lemma {:induction false} SyncIdempotent(cs: seq<Category>, strings: string -> Option<string>)
    ensures InSync(RenamedAll(cs, strings), strings)
    ensures InSync(cs, strings) <==> RenamedAll(cs, strings) == cs
  {
    var r := RenamedAll(cs, strings);
    forall k | 0 <= k < |r| ensures Renamed(r[k], strings) == r[k] {
      RenamedChangesOnlyNames(cs[k], strings);
    }
    if RenamedAll(cs, strings) == cs {
      forall k | 0 <= k < |cs| ensures Renamed(cs[k], strings) == cs[k] {
        assert r[k] == Renamed(cs[k], strings);
      }
    }
  }

  /** A seeded row is already in sync. */
  lemma CatalogRowInSync(e: CatalogEntry, strings: string -> Option<string>, id: int)
    requires strings(e.key).Some? && e.key != ""
    ensures IsBuiltIn(CatalogRow(e, strings).(id := id))
    ensures Renamed(CatalogRow(e, strings).(id := id), strings) == CatalogRow(e, strings).(id := id)
  {
  }

  /** One pass of the sync loop: the row whose id the renamed category carries takes the
      new name, every other row stays as it is. */
  lemma RenameStep(before: seq<Category>, cur: seq<Category>, next: seq<Category>,
                   snapshot: seq<Category>, i: int, strings: string -> Option<string>)
    requires 0 <= i < |snapshot|
    requires snapshot[i] in before
    requires forall a, b :: 0 <= a < b < |before| ==> before[a].id != before[b].id
    requires |cur| == |before| && |next| == |before|
    requires forall k :: 0 <= k < |before| ==>
               cur[k] == if before[k] in snapshot[..i] then Renamed(before[k], strings) else before[k]
    requires forall k :: 0 <= k < |before| ==>
               next[k] == if cur[k].id == snapshot[i].id then Renamed(snapshot[i], strings).(key := cur[k].key) else cur[k]
    ensures forall k :: 0 <= k < |before| ==>
              next[k] == if before[k] in snapshot[..i + 1] then Renamed(before[k], strings) else before[k]
  {
    assert snapshot[..i + 1] == snapshot[..i] + [snapshot[i]];
    forall k | 0 <= k < |before|
      ensures next[k] == if before[k] in snapshot[..i + 1] then Renamed(before[k], strings) else before[k]
    {
      assert cur[k].id == before[k].id && cur[k].key == before[k].key;
      if before[k].id == snapshot[i].id {
        var k0 :| 0 <= k0 < |before| && before[k0] == snapshot[i];
        assert k0 == k;
      } else {
        assert before[k] != snapshot[i];
      }
    }
  }

  /** A pass that writes nothing keeps the loop's picture when the row needs no new name. */
  lemma KeepStep(before: seq<Category>, cur: seq<Category>, snapshot: seq<Category>, i: int,
                 strings: string -> Option<string>)
    requires 0 <= i < |snapshot|
    requires Renamed(snapshot[i], strings) == snapshot[i]
    requires |cur| == |before|
    requires forall k :: 0 <= k < |before| ==>
               cur[k] == if before[k] in snapshot[..i] then Renamed(before[k], strings) else before[k]
    ensures forall k :: 0 <= k < |before| ==>
              cur[k] == if before[k] in snapshot[..i + 1] then Renamed(before[k], strings) else before[k]
  {
    assert snapshot[..i + 1] == snapshot[..i] + [snapshot[i]];
  }

  /** Before a visit: the row is built-in and still in the table under its id, and a row
      that needs a new name shows that the table was not in sync. */
  lemma RowStillThere(before: seq<Category>, cur: seq<Category>, snapshot: seq<Category>, i: int,
                      strings: string -> Option<string>)
    requires 0 <= i < |snapshot|
    requires forall c :: c in snapshot <==> c in before && IsBuiltIn(c)
    requires |cur| == |before|
    requires forall k :: 0 <= k < |before| ==>
               cur[k] == if before[k] in snapshot[..i] then Renamed(before[k], strings) else before[k]
    ensures IsBuiltIn(snapshot[i])
    ensures Renamed(snapshot[i], strings) != snapshot[i] ==>
              (exists k :: 0 <= k < |cur| && cur[k].id == snapshot[i].id) && !InSync(before, strings)
  {
    assert snapshot[i] in snapshot;
    var k0 :| 0 <= k0 < |before| && before[k0] == snapshot[i];
    assert cur[k0].id == snapshot[i].id;
  }

  /** After a visit without a crash, one more row of the snapshot has been synced. */
  lemma RowSynced(before: seq<Category>, cur: seq<Category>, next: seq<Category>,
                  snapshot: seq<Category>, i: int, strings: string -> Option<string>)
    requires 0 <= i < |snapshot|
    requires forall c :: c in snapshot <==> c in before && IsBuiltIn(c)
    requires forall a, b :: 0 <= a < b < |before| ==> before[a].id != before[b].id
    requires |cur| == |before|
    requires forall k :: 0 <= k < |before| ==>
               cur[k] == if before[k] in snapshot[..i] then Renamed(before[k], strings) else before[k]
    requires Renamed(snapshot[i], strings) == snapshot[i] ==> next == cur
    requires Renamed(snapshot[i], strings) != snapshot[i] ==>
               && |next| == |cur|
               && forall k :: 0 <= k < |next| ==>
                    next[k] == if cur[k].id == snapshot[i].id then Renamed(snapshot[i], strings).(key := cur[k].key) else cur[k]
    ensures |next| == |before|
    ensures forall k :: 0 <= k < |before| ==>
              next[k] == if before[k] in snapshot[..i + 1] then Renamed(before[k], strings) else before[k]
  {
    assert snapshot[i] in snapshot;
    if Renamed(snapshot[i], strings) != snapshot[i] {
      RenameStep(before, cur, next, snapshot, i, strings);
    } else {
      KeepStep(before, cur, snapshot, i, strings);
    }
  }

  /** Part way through the loop, every row is as it was or as the sync leaves it. */
  lemma PartlyRenamed(before: seq<Category>, cur: seq<Category>, visited: seq<Category>,
                      strings: string -> Option<string>)
    requires |cur| == |before|
    requires forall k :: 0 <= k < |before| ==>
               cur[k] == if before[k] in visited then Renamed(before[k], strings) else before[k]
    ensures forall k :: 0 <= k < |cur| ==> cur[k] == before[k] || cur[k] == Renamed(before[k], strings)
  {
  }

  /** When every built-in row has been visited, the table is the synced table. */
  lemma RenameDone(before: seq<Category>, cur: seq<Category>, snapshot: seq<Category>,
                   strings: string -> Option<string>)
    requires forall c :: c in snapshot <==> c in before && IsBuiltIn(c)
    requires |cur| == |before|
    requires forall k :: 0 <= k < |before| ==>
               cur[k] == if before[k] in snapshot then Renamed(before[k], strings) else before[k]
    ensures cur == RenamedAll(before, strings)
  {
    forall k | 0 <= k < |before| ensures cur[k] == Renamed(before[k], strings) {
      assert before[k] in before;
    }
  }

  /** The built-in rows of a listing of the table are its built-in rows. */
  lemma BuiltInRows(before: seq<Category>, all: seq<Category>)
    requires multiset(all) == multiset(before)
    ensures forall c :: c in Filter(all, IsBuiltIn) <==> c in before && IsBuiltIn(c)
  {
    forall c ensures c in all <==> c in before {
      assert c in all <==> c in multiset(all);
    }
  }

  /** The body of the sync loop for one built-in row: when its key names a bundled string
      other than its name, the row is written back by id with that name. A clash with
      another row's name throws: `crashed`, and nothing is written. */
  method SyncRow(store: LedgerStore, strings: string -> Option<string>, categoryInDb: Category) returns (crashed: bool)
    requires store.Valid()
    requires IsBuiltIn(categoryInDb)
    requires Renamed(categoryInDb, strings) != categoryInDb ==>
               exists k :: 0 <= k < |store.categories| && store.categories[k].id == categoryInDb.id
    modifies store
    ensures store.Valid()
    ensures crashed ==> Renamed(categoryInDb, strings) != categoryInDb
    ensures crashed || Renamed(categoryInDb, strings) == categoryInDb ==> store.categories == old(store.categories)
    ensures !crashed && Renamed(categoryInDb, strings) != categoryInDb ==>
              && |store.categories| == |old(store.categories)|
              && forall k :: 0 <= k < |store.categories| ==>
                   store.categories[k]
                   == if old(store.categories)[k].id == categoryInDb.id
                      then Renamed(categoryInDb, strings).(key := old(store.categories)[k].key)
                      else old(store.categories)[k]
    ensures store.transactions == old(store.transactions)
    ensures store.lastTransactionId == old(store.lastTransactionId)
    ensures store.lastCategoryId == old(store.lastCategoryId)
  {
    crashed := false;
    match strings(categoryInDb.key.value) {
      case Some(currentName) =>
        if categoryInDb.name != currentName {
          var outcome := store.UpdateCategory(categoryInDb.(name := currentName));
          crashed := outcome == Rejected;
        }
      case None =>
    }
  }

  /** `syncDefaultCategoryNames`: the built-in rows of the name-ordered listing, each
      renamed by id when its key names a bundled string that differs from its name. An
      update that clashes with another row's name throws, which aborts the launch:
      `crashed`. Without a crash the table is the synced table; a table already in sync
      never crashes and is not written. */
  method SyncDefaultCategoryNames(store: LedgerStore, strings: string -> Option<string>) returns (crashed: bool)
    requires store.Valid()
    modifies store
    ensures store.Valid()
    ensures !crashed ==> store.categories == RenamedAll(old(store.categories), strings)
    ensures crashed ==> !InSync(old(store.categories), strings)
    ensures |store.categories| == |old(store.categories)|
    ensures forall k :: 0 <= k < |store.categories| ==>
              store.categories[k] == old(store.categories)[k] || store.categories[k] == Renamed(old(store.categories)[k], strings)
    ensures store.transactions == old(store.transactions)
    ensures store.lastTransactionId == old(store.lastTransactionId)
    ensures store.lastCategoryId == old(store.lastCategoryId)
  {
    var all := store.GetAllCategories();
    var defaults := Filter(all, IsBuiltIn);
    ghost var before := store.categories;
    BuiltInRows(before, all);
    if defaults == [] {
      RenameDone(before, store.categories, defaults, strings);
      return false;
    }
    var i := 0;
    while i < |defaults|
      invariant 0 <= i <= |defaults|
      invariant store.Valid()
      invariant store.transactions == old(store.transactions)
      invariant store.lastTransactionId == old(store.lastTransactionId)
      invariant store.lastCategoryId == old(store.lastCategoryId)
      invariant |store.categories| == |before|
      invariant forall k :: 0 <= k < |before| ==>
                  store.categories[k] == if before[k] in defaults[..i] then Renamed(before[k], strings) else before[k]
    {
      var categoryInDb := defaults[i];
      ghost var cur := store.categories;
      RowStillThere(before, cur, defaults, i, strings);
      crashed := SyncRow(store, strings, categoryInDb);
      if crashed {
        PartlyRenamed(before, store.categories, defaults[..i], strings);
        return;
      }
      RowSynced(before, cur, store.categories, defaults, i, strings);
      i := i + 1;
    }
    assert defaults[..i] == defaults;
    RenameDone(before, store.categories, defaults, strings);
    crashed := false;
  }

  // ---------------------------------------------------------------------------------------
  // Seeding

  /** `any { !it.key.isNullOrEmpty() }`: some built-in category exists. */
  predicate HasDefaults(cs: seq<Category>) {
    exists c :: c in cs && IsBuiltIn(c)
  }

  /** Every catalog name is already taken, so every insert of the seeding is refused. */
  predicate AllCatalogNamesTaken(cs: seq<Category>, strings: string -> Option<string>)
    requires HasStrings(Catalog, strings)
  {
    forall j :: 0 <= j < |Catalog| ==> strings(Catalog[j].key).value in NamesOf(cs)
  }

  /** Nothing is left for the seeding to do: a built-in category exists, or every catalog
      name is taken. */
  predicate Seeded(cs: seq<Category>, strings: string -> Option<string>)
    requires HasStrings(Catalog, strings)
  {
    HasDefaults(cs) || AllCatalogNamesTaken(cs, strings)
  }

  /** `insertCategory` on a table and its counter: refused when the name is taken,
      otherwise appended under the next id. */
  function InsertRow(cs: seq<Category>, last: int, c: Category): (seq<Category>, int) {
    if c.name in NamesOf(cs) then (cs, last) else (cs + [c.(id := last + 1)], last + 1)
  }

  /** The table and counter after inserting the rows of `entries` in order. */
  function Seeding(cs: seq<Category>, last: int, entries: seq<CatalogEntry>, strings: string -> Option<string>)
    : (seq<Category>, int)
    requires HasStrings(entries, strings)
    decreases |entries|
  {
    if entries == [] then (cs, last)
    else
      var p := Seeding(cs, last, entries[..|entries| - 1], strings);
      InsertRow(p.0, p.1, CatalogRow(entries[|entries| - 1], strings))
  }

  /** Seeding keeps the old rows first, appends only built-in rows that are already in
      sync, and leaves every entry's name taken. */
  lemma {:induction false} SeedingKeepsTable(cs: seq<Category>, last: int, entries: seq<CatalogEntry>,
                                             strings: string -> Option<string>)
    requires HasStrings(entries, strings)
    requires forall j :: 0 <= j < |entries| ==> entries[j].key != ""
    ensures |cs| <= |Seeding(cs, last, entries, strings).0|
    ensures Seeding(cs, last, entries, strings).0[..|cs|] == cs
    ensures forall k :: |cs| <= k < |Seeding(cs, last, entries, strings).0| ==>
              && IsBuiltIn(Seeding(cs, last, entries, strings).0[k])
              && Renamed(Seeding(cs, last, entries, strings).0[k], strings) == Seeding(cs, last, entries, strings).0[k]
    ensures forall j :: 0 <= j < |entries| ==> strings(entries[j].key).value in NamesOf(Seeding(cs, last, entries, strings).0)
  {
    if entries != [] {
      var n := |entries| - 1;
      var init := entries[..n];
      SeedingKeepsTable(cs, last, init, strings);
      var p := Seeding(cs, last, init, strings);
      var row := CatalogRow(entries[n], strings);
      var r := InsertRow(p.0, p.1, row);
      assert r == Seeding(cs, last, entries, strings);
      assert r.0[..|p.0|] == p.0;
      assert r.0[..|cs|] == p.0[..|cs|];
      forall j | 0 <= j < |entries| ensures strings(entries[j].key).value in NamesOf(r.0) {
        if j < n {
          assert init[j] == entries[j];
          var k :| 0 <= k < |p.0| && NamesOf(p.0)[k] == strings(entries[j].key).value;
          assert NamesOf(r.0)[k] == NamesOf(p.0)[k];
        } else if row.name !in NamesOf(p.0) {
          assert NamesOf(r.0)[|p.0|] == row.name;
        }
      }
    }
  }

  /** When every entry's name is taken already, seeding writes nothing. */
  lemma {:induction false} SeedingAllTaken(cs: seq<Category>, last: int, entries: seq<CatalogEntry>,
                                           strings: string -> Option<string>)
    requires HasStrings(entries, strings)
    requires forall j :: 0 <= j < |entries| ==> strings(entries[j].key).value in NamesOf(cs)
    ensures Seeding(cs, last, entries, strings) == (cs, last)
  {
    if entries != [] {
      var n := |entries| - 1;
      SeedingAllTaken(cs, last, entries[..n], strings);
    }
  }

  /** When the entries' names are all different and none is taken, seeding appends one row
      per entry, in order, under consecutive ids. */
  lemma {:induction false} SeedingFresh(cs: seq<Category>, last: int, entries: seq<CatalogEntry>,
                                        strings: string -> Option<string>)
    requires HasStrings(entries, strings)
    requires forall i, j :: 0 <= i < j < |entries| ==> strings(entries[i].key).value != strings(entries[j].key).value
    requires forall j :: 0 <= j < |entries| ==> strings(entries[j].key).value !in NamesOf(cs)
    ensures |Seeding(cs, last, entries, strings).0| == |cs| + |entries|
    ensures Seeding(cs, last, entries, strings).1 == last + |entries|
    ensures Seeding(cs, last, entries, strings).0[..|cs|] == cs
    ensures forall j :: 0 <= j < |entries| ==>
              Seeding(cs, last, entries, strings).0[|cs| + j] == CatalogRow(entries[j], strings).(id := last + 1 + j)
  {
    if entries != [] {
      var n := |entries| - 1;
      var init := entries[..n];
      SeedingFresh(cs, last, init, strings);
      var p := Seeding(cs, last, init, strings);
      var row := CatalogRow(entries[n], strings);
      assert row.name !in NamesOf(p.0) by {
        forall k | 0 <= k < |p.0| ensures NamesOf(p.0)[k] != row.name {
          if k < |cs| {
            assert p.0[k] == cs[k];
            assert NamesOf(cs)[k] == cs[k].name;
          } else {
            assert init[k - |cs|] == entries[k - |cs|];
          }
        }
      }
      var r := InsertRow(p.0, p.1, row);
      assert r == Seeding(cs, last, entries, strings);
      assert r.0[..|cs|] == p.0[..|cs|];
      forall j | 0 <= j < |entries| ensures r.0[|cs| + j] == CatalogRow(entries[j], strings).(id := last + 1 + j) {
        if j < n {
          assert init[j] == entries[j];
        }
      }
    }
  }

  /** What `insertCategory` leaves is `InsertRow` of what it found. */
  lemma InsertedRow(cs: seq<Category>, last: int, c: Category, next: seq<Category>, nextLast: int, id: int)
    requires c.name in NamesOf(cs) ==> next == cs && nextLast == last
    requires c.name !in NamesOf(cs) ==> id == last + 1 && nextLast == id && next == cs + [c.(id := id)]
    ensures (next, nextLast) == InsertRow(cs, last, c)
  {
  }

  /** One more entry of the loop: the next row is inserted into what the earlier ones
      left. */
  lemma SeedingStep(cs: seq<Category>, last: int, entries: seq<CatalogEntry>, i: int,
                    strings: string -> Option<string>)
    requires HasStrings(entries, strings)
    requires 0 <= i < |entries|
    ensures HasStrings(entries[..i], strings) && HasStrings(entries[..i + 1], strings)
    ensures Seeding(cs, last, entries[..i + 1], strings)
            == InsertRow(Seeding(cs, last, entries[..i], strings).0, Seeding(cs, last, entries[..i], strings).1,
                         CatalogRow(entries[i], strings))
  {
    assert entries[..i + 1][..i] == entries[..i];
  }

  /** A listing of the table has a built-in row exactly when the table has one. */
  lemma ListingHasDefaults(before: seq<Category>, all: seq<Category>)
    requires multiset(all) == multiset(before)
    ensures (exists c :: c in all && IsBuiltIn(c)) <==> HasDefaults(before)
  {
    forall c ensures c in all <==> c in before {
      assert c in all <==> c in multiset(all);
    }
  }

  /** A table in sync stays in sync when seeded, and a seeding that adds a row adds a
      built-in one. */
  lemma SeededTable(cs: seq<Category>, last: int, strings: string -> Option<string>)
    requires HasStrings(Catalog, strings)
    ensures Seeded(Seeding(cs, last, Catalog, strings).0, strings)
    ensures AllCatalogNamesTaken(cs, strings) ==> Seeding(cs, last, Catalog, strings) == (cs, last)
    ensures InSync(cs, strings) ==> InSync(Seeding(cs, last, Catalog, strings).0, strings)
    ensures |Seeding(cs, last, Catalog, strings).0| > |cs| ==> HasDefaults(Seeding(cs, last, Catalog, strings).0)
  {
    CatalogFacts();
    SeedingKeepsTable(cs, last, Catalog, strings);
    var r := Seeding(cs, last, Catalog, strings).0;
    if AllCatalogNamesTaken(cs, strings) {
      SeedingAllTaken(cs, last, Catalog, strings);
    }
    if InSync(cs, strings) {
      forall k | 0 <= k < |r| ensures Renamed(r[k], strings) == r[k] {
        if k < |cs| {
          assert r[k] == cs[k];
        }
      }
    }
    if |r| > |cs| {
      assert r[|cs|] in r;
    }
  }

  /** `createDefaultCategoriesIfNeeded`: when no built-in category exists, each catalog
      entry is inserted in catalog order (an insert whose name is taken is refused and
      skipped); a table with a built-in row is not written. Afterwards there is nothing
      left to seed. */
  method CreateDefaultCategoriesIfNeeded(store: LedgerStore, strings: string -> Option<string>)
    requires store.Valid()
    requires HasStrings(Catalog, strings)
    modifies store
    ensures store.Valid()
    ensures HasDefaults(old(store.categories)) ==>
              store.categories == old(store.categories) && store.lastCategoryId == old(store.lastCategoryId)
    ensures !HasDefaults(old(store.categories)) ==>
              (store.categories, store.lastCategoryId)
              == Seeding(old(store.categories), old(store.lastCategoryId), Catalog, strings)
    ensures Seeded(store.categories, strings)
    ensures Seeded(old(store.categories), strings) ==>
              store.categories == old(store.categories) && store.lastCategoryId == old(store.lastCategoryId)
    ensures InSync(old(store.categories), strings) ==> InSync(store.categories, strings)
    ensures store.transactions == old(store.transactions)
    ensures store.lastTransactionId == old(store.lastTransactionId)
  {
    ghost var before := store.categories;
    ghost var firstId := store.lastCategoryId;
    var hasDefaults := exists c | c in store.GetAllCategories() :: IsBuiltIn(c);
    ListingHasDefaults(before, store.GetAllCategories());
    if hasDefaults {
      return;
    }
    for i := 0 to |Catalog|
      invariant store.Valid()
      invariant store.transactions == old(store.transactions)
      invariant store.lastTransactionId == old(store.lastTransactionId)
      invariant HasStrings(Catalog[..i], strings)
      invariant (store.categories, store.lastCategoryId) == Seeding(before, firstId, Catalog[..i], strings)
    {
      var info := Catalog[i];
      SeedingStep(before, firstId, Catalog, i, strings);
      ghost var cur := store.categories;
      ghost var curLast := store.lastCategoryId;
      var id := store.InsertCategory(CatalogRow(info, strings));
      InsertedRow(cur, curLast, CatalogRow(info, strings), store.categories, store.lastCategoryId, id);
    }
    assert Catalog[..|Catalog|] == Catalog;
    SeededTable(before, firstId, strings);
  }

  // ---------------------------------------------------------------------------------------
  // Sample data

  /** The sample list of `addDummyData`, in insertion order. */
  const DummyTransactions: seq<Transaction> := [
    Transaction(0, "Phở bò", 45000, "Ăn uống", "14 Jan 2026", true),
    Transaction(0, "Cà phê", 25000, "Ăn uống", "14 Jan 2026", true),
    Transaction(0, "Đổ xăng", 60000, "Di chuyển", "12 Jan 2026", true),
    Transaction(0, "Tiền nhà", 3000000, "Hóa đơn", "01 Jan 2026", true),
    Transaction(0, "Lương tháng", 10000000, "Lương", "05 Jan 2026", false)
  ]

  /** The sample ledger holds four expenses, 3130000 in all, and one income of 10000000. */
  lemma DummyTransactionsTotals()
    ensures |DummyTransactions| == 5
    ensures forall i :: 0 <= i < 5 ==> (DummyTransactions[i].isExpense <==> i < 4)
    ensures DummyTransactions[0].amount + DummyTransactions[1].amount + DummyTransactions[2].amount
            + DummyTransactions[3].amount == 3130000
    ensures DummyTransactions[4].amount == 10000000
  {
  }

  /** `addDummyData`: on an empty ledger, the five sample rows under the next five ids; a
      ledger with rows is not written. */
  method AddDummyData(store: LedgerStore)
    requires store.Valid()
    modifies store
    ensures store.Valid()
    ensures |old(store.transactions)| > 0 ==>
              store.transactions == old(store.transactions) && store.lastTransactionId == old(store.lastTransactionId)
    ensures old(store.transactions) == [] ==>
              && |store.transactions| == |DummyTransactions|
              && store.lastTransactionId == old(store.lastTransactionId) + |DummyTransactions|
              && forall i :: 0 <= i < |DummyTransactions| ==>
                   store.transactions[i] == DummyTransactions[i].(id := old(store.lastTransactionId) + 1 + i)
    ensures |store.transactions| > 0
    ensures store.categories == old(store.categories)
    ensures store.lastCategoryId == old(store.lastCategoryId)
  {
    if |store.GetAllTransactions()| > 0 {
      return;
    }
    assert store.transactions == [] by {
      assert |multiset(store.GetAllTransactions())| == |multiset(store.transactions)|;
    }
    ghost var firstId := store.lastTransactionId;
    for i := 0 to |DummyTransactions|
      invariant store.Valid()
      invariant store.categories == old(store.categories)
      invariant store.lastCategoryId == old(store.lastCategoryId)
      invariant |store.transactions| == i && store.lastTransactionId == firstId + i
      invariant forall k :: 0 <= k < i ==> store.transactions[k] == DummyTransactions[k].(id := firstId + 1 + k)
    {
      var id := store.InsertTransaction(DummyTransactions[i]);
    }
  }

  // ---------------------------------------------------------------------------------------
  // The launch

  /** `onCreate`'s database steps in order: sync, seed, sample data (a crash in the sync
      ends the launch). A launch that completes leaves the tables in sync, seeded and with
      transactions, and a launch on such tables writes nothing: the second of two launches
      in a row adds no category and renames none. */
  method Launch(store: LedgerStore, strings: string -> Option<string>) returns (crashed: bool)
    requires store.Valid()
    requires HasStrings(Catalog, strings)
    modifies store
    ensures store.Valid()
    ensures !crashed ==>
              && InSync(store.categories, strings)
              && Seeded(store.categories, strings)
              && |store.transactions| > 0
    ensures InSync(old(store.categories), strings) && Seeded(old(store.categories), strings)
            && |old(store.transactions)| > 0 ==>
              && !crashed
              && store.categories == old(store.categories) && store.transactions == old(store.transactions)
              && store.lastCategoryId == old(store.lastCategoryId)
              && store.lastTransactionId == old(store.lastTransactionId)
  {
    ghost var first := store.categories;
    crashed := SyncDefaultCategoryNames(store, strings);
    if crashed {
      return;
    }
    SyncIdempotent(first, strings);
    CreateDefaultCategoriesIfNeeded(store, strings);
    AddDummyData(store);
  }
}
