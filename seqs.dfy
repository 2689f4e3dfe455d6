/** Generic sequence operations the Kotlin collection pipelines rely on:
    `distinct()`, `take(n)`, `reversed()` and the stable `sortedBy…` family. */
module Seqs {

  /** True when no element occurs twice. */
  predicate NoDuplicates<T(==)>(s: seq<T>) {
    forall i, j :: 0 <= i < j < |s| ==> s[i] != s[j]
  }

  /** Index of the first occurrence of `x`. */
  function IndexOf<T(==)>(s: seq<T>, x: T): (k: nat)
    requires x in s
    ensures k < |s| && s[k] == x
    ensures forall j :: 0 <= j < k ==> s[j] != x
  {
    if s[0] == x then 0 else 1 + IndexOf(s[1..], x)
  }

  /** Kotlin's `distinct()`: keeps the first occurrence of each element. */
  function Distinct<T(==, !new)>(s: seq<T>): (r: seq<T>)
    ensures forall x :: x in r <==> x in s
    ensures NoDuplicates(r)
    ensures |r| <= |s|
  {
    if s == [] then []
    else
      var d := Distinct(s[..|s| - 1]);
      if s[|s| - 1] in d then d else d + [s[|s| - 1]]
  }

  lemma {:induction false} IndexOfPrefix<T>(s: seq<T>, n: nat, x: T)
    requires n <= |s| && x in s[..n]
    ensures IndexOf(s, x) == IndexOf(s[..n], x)
  {
    assert s[..n][0] == s[0];
    if s[0] != x {
      assert s[..n][1..] == s[1..][..n - 1];
      IndexOfPrefix(s[1..], n - 1, x);
    }
  }

  /** Every element of `r` occurs in `s`, and `r` lists them in the order of their
      first occurrence in `s`. */
  predicate InFirstOccurrenceOrder<T(==)>(r: seq<T>, s: seq<T>) {
    && (forall x :: x in r ==> x in s)
    && (forall i, j :: 0 <= i < j < |r| ==> IndexOf(s, r[i]) < IndexOf(s, r[j]))
  }

  /** Appending an element does not move the first occurrences of the earlier ones. */
  lemma OrderKeptByAppend<T>(r: seq<T>, p: seq<T>, last: T)
    requires InFirstOccurrenceOrder(r, p)
    ensures InFirstOccurrenceOrder(r, p + [last])
  {
    var s := p + [last];
    assert s[..|p|] == p;
    forall x | x in r ensures IndexOf(s, x) == IndexOf(p, x) {
      IndexOfPrefix(s, |p|, x);
    }
    forall i, j | 0 <= i < j < |r| ensures IndexOf(s, r[i]) < IndexOf(s, r[j]) {
      assert r[i] in r && r[j] in r;
    }
  }

  /** A new last element goes after every element already seen. */
  lemma OrderExtendedByNew<T>(r: seq<T>, p: seq<T>, last: T)
    requires InFirstOccurrenceOrder(r, p + [last])
    requires forall x :: x in r ==> x in p
    requires last !in p
    ensures InFirstOccurrenceOrder(r + [last], p + [last])
  {
    var s := p + [last];
    var rl := r + [last];
    assert s[..|p|] == p;
    assert IndexOf(s, last) == |p|;
    forall x | x in r ensures IndexOf(s, x) < |p| {
      IndexOfPrefix(s, |p|, x);
    }
    forall i, j | 0 <= i < j < |rl| ensures IndexOf(s, rl[i]) < IndexOf(s, rl[j]) {
      assert rl[i] == r[i] && r[i] in r;
      if j < |r| {
        assert rl[j] == r[j];
      }
    }
  }

  /** The elements of `distinct()` appear in the order of their first occurrence. */
  lemma {:induction false} DistinctFirstOccurrenceOrder<T(!new)>(s: seq<T>)
    ensures InFirstOccurrenceOrder(Distinct(s), s)
  {
    if s != [] {
      var p := s[..|s| - 1];
      var last := s[|s| - 1];
      assert s == p + [last];
      DistinctFirstOccurrenceOrder(p);
      OrderKeptByAppend(Distinct(p), p, last);
      if last !in Distinct(p) {
        OrderExtendedByNew(Distinct(p), p, last);
      }
    }
  }

  /** A duplicate-free prefix of the input is exactly the prefix of `distinct()`. */
  lemma {:induction false} DistinctOfPrefix<T(!new)>(a: seq<T>, b: seq<T>)
    requires NoDuplicates(a)
    ensures |a| <= |Distinct(a + b)| && Distinct(a + b)[..|a|] == a
    decreases |b|
  {
    if b == [] {
      assert a + b == a;
      DistinctOfNoDuplicates(a);
    } else {
      var ab := a + b;
      assert ab[..|ab| - 1] == a + b[..|b| - 1];
      DistinctOfPrefix(a, b[..|b| - 1]);
    }
  }

  lemma {:induction false} DistinctOfNoDuplicates<T(!new)>(a: seq<T>)
    requires NoDuplicates(a)
    ensures Distinct(a) == a
  {
    if a != [] {
      var p := a[..|a| - 1];
      assert NoDuplicates(p);
      DistinctOfNoDuplicates(p);
      assert a[|a| - 1] !in p;
      assert a == p + [a[|a| - 1]];
    }
  }

  /** Kotlin's `take(n)`. */
  function Take<T>(s: seq<T>, n: nat): (r: seq<T>)
    ensures |r| == if |s| < n then |s| else n
    ensures forall i :: 0 <= i < |r| ==> r[i] == s[i]
  {
    if |s| <= n then s else s[..n]
  }

  /** Kotlin's `reversed()`. */
  function Reversed<T>(s: seq<T>): (r: seq<T>)
    ensures |r| == |s|
    ensures forall i :: 0 <= i < |s| ==> r[i] == s[|s| - 1 - i]
  {
    if s == [] then [] else Reversed(s[1..]) + [s[0]]
  }

  /** `before` is a total preorder: every pair is comparable and the relation is transitive. */
  ghost predicate TotalPreorder<T(!new)>(before: (T, T) -> bool) {
    && (forall a, b :: before(a, b) || before(b, a))
    && (forall a, b, c :: before(a, b) && before(b, c) ==> before(a, c))
  }

  /** Every element is `before` every later element. */
  predicate Sorted<T>(s: seq<T>, before: (T, T) -> bool) {
    forall i, j :: 0 <= i < j < |s| ==> before(s[i], s[j])
  }

  /** Inserts `x` in front of the first element it goes `before`; equal elements
      already present therefore follow `x`. */
  function Insert<T>(x: T, s: seq<T>, before: (T, T) -> bool): (r: seq<T>)
    ensures multiset(r) == multiset(s) + multiset{x}
    ensures |r| == |s| + 1
  {
    if s == [] then [x]
    else
      assert s == [s[0]] + s[1..];
      if before(x, s[0]) then [x] + s
    else [s[0]] + Insert(x, s[1..], before)
  }

  /** An insertion sort: the model of Kotlin's `sortedBy`/`sortedByDescending` and of
      SQL's `ORDER BY`. What is proved of it is a sorted permutation; the order it gives
      equal elements is not part of any contract. */
  function Sort<T>(s: seq<T>, before: (T, T) -> bool): (r: seq<T>)
    ensures multiset(r) == multiset(s)
    ensures |r| == |s|
  {
    if s == [] then []
    else
      assert s == [s[0]] + s[1..];
      Insert(s[0], Sort(s[1..], before), before)
  }

  lemma {:induction false} InsertSorted<T(!new)>(x: T, s: seq<T>, before: (T, T) -> bool)
    requires TotalPreorder(before)
    requires Sorted(s, before)
    ensures Sorted(Insert(x, s, before), before)
  {
    if s != [] && !before(x, s[0]) {
      var tail := Insert(x, s[1..], before);
      InsertSorted(x, s[1..], before);
      assert before(s[0], x);
      forall y | y in tail ensures before(s[0], y) {
        assert y in multiset(tail);
        if y != x {
          assert y in multiset(s[1..]);
          var k :| 0 <= k < |s[1..]| && s[1..][k] == y;
          assert s[k + 1] == y;
        }
      }
      var r := [s[0]] + tail;
      forall i, j | 0 <= i < j < |r| ensures before(r[i], r[j]) {
        if i == 0 {
          assert r[j] == tail[j - 1];
        } else {
          assert r[i] == tail[i - 1] && r[j] == tail[j - 1];
        }
      }
    }
  }

  /** `Sort` orders its result when `before` is a total preorder. */
  lemma {:induction false} SortSorted<T(!new)>(s: seq<T>, before: (T, T) -> bool)
    requires TotalPreorder(before)
    ensures Sorted(Sort(s, before), before)
  {
    if s != [] {
      SortSorted(s[1..], before);
      InsertSorted(s[0], Sort(s[1..], before), before);
    }
  }

  /** Kotlin's `filter` (and SQL's `WHERE`): the elements `keep` accepts, in order. */
  function Filter<T(!new)>(s: seq<T>, keep: T -> bool): (r: seq<T>)
    ensures |r| <= |s|
    ensures forall x :: x in r <==> x in s && keep(x)
  {
    if s == [] then []
    else
      assert s == [s[0]] + s[1..];
      (if keep(s[0]) then [s[0]] else []) + Filter(s[1..], keep)
  }

  /** Filtering a list with one more element at the end. */
  lemma {:induction false} FilterAppend<T(!new)>(s: seq<T>, x: T, keep: T -> bool)
    ensures Filter(s + [x], keep) == Filter(s, keep) + if keep(x) then [x] else []
  {
    if s == [] {
      assert [x][1..] == [];
    } else {
      assert (s + [x])[1..] == s[1..] + [x];
      FilterAppend(s[1..], x, keep);
    }
  }

  /** A filter that accepts everything is the identity. */
  lemma {:induction false} FilterKeepAll<T(!new)>(s: seq<T>, keep: T -> bool)
    requires forall x :: x in s ==> keep(x)
    ensures Filter(s, keep) == s
  {
    if s != [] {
      FilterKeepAll(s[1..], keep);
    }
  }

  /** The head of a filtered sorted list comes no earlier than the list's head. */
  lemma FilterHeadAfter<T(!new)>(s: seq<T>, before: (T, T) -> bool, keep: T -> bool)
    requires TotalPreorder(before)
    requires Sorted(s, before)
    requires Filter(s, keep) != []
    ensures before(s[0], Filter(s, keep)[0])
  {
    var f := Filter(s, keep);
    assert f[0] in f;
    var k :| 0 <= k < |s| && s[k] == f[0];
    if k == 0 {
      assert before(s[0], s[0]);
    }
  }

  /** `FilterInsert` when `x` goes in front. */
  lemma FilterInsertFront<T(!new)>(x: T, s: seq<T>, before: (T, T) -> bool, keep: T -> bool)
    requires TotalPreorder(before)
    requires Sorted(s, before)
    requires s != [] && before(x, s[0])
    ensures Filter(Insert(x, s, before), keep)
            == if keep(x) then Insert(x, Filter(s, keep), before) else Filter(s, keep)
  {
    assert Insert(x, s, before) == [x] + s;
    assert ([x] + s)[1..] == s;
    var f := Filter(s, keep);
    if keep(x) && f != [] {
      FilterHeadAfter(s, before, keep);
      assert before(x, f[0]);
    }
  }

  /** `FilterInsert` when `x` goes after the head. */
  lemma FilterInsertLater<T(!new)>(x: T, s: seq<T>, before: (T, T) -> bool, keep: T -> bool)
    requires s != [] && !before(x, s[0])
    requires Filter(Insert(x, s[1..], before), keep)
             == if keep(x) then Insert(x, Filter(s[1..], keep), before) else Filter(s[1..], keep)
    ensures Filter(Insert(x, s, before), keep)
            == if keep(x) then Insert(x, Filter(s, keep), before) else Filter(s, keep)
  {
    var tail := s[1..];
    var i := Insert(x, tail, before);
    var ins := Insert(x, s, before);
    assert ins == [s[0]] + i;
    assert ins[1..] == i;
    var f := Filter(s, keep);
    if keep(s[0]) {
      assert Filter(ins, keep) == [s[0]] + Filter(i, keep);
      assert f == [s[0]] + Filter(tail, keep);
      assert f[1..] == Filter(tail, keep);
      if keep(x) {
        assert Insert(x, f, before) == [s[0]] + Insert(x, Filter(tail, keep), before);
      }
    } else {
      assert Filter(ins, keep) == Filter(i, keep);
      assert f == Filter(tail, keep);
    }
  }

  /** Filtering an insertion into a sorted list is inserting into the filtered list. */
  lemma {:induction false} FilterInsert<T(!new)>(x: T, s: seq<T>, before: (T, T) -> bool, keep: T -> bool)
    requires TotalPreorder(before)
    requires Sorted(s, before)
    ensures Filter(Insert(x, s, before), keep)
            == if keep(x) then Insert(x, Filter(s, keep), before) else Filter(s, keep)
  {
    if s == [] {
    } else if before(x, s[0]) {
      FilterInsertFront(x, s, before, keep);
    } else {
      assert Sorted(s[1..], before);
      FilterInsert(x, s[1..], before, keep);
      FilterInsertLater(x, s, before, keep);
    }
  }

  /** The step of `SortFilter`, from the tail to the whole list. */
  lemma SortFilterStep<T(!new)>(s: seq<T>, before: (T, T) -> bool, keep: T -> bool)
    requires s != []
    requires Filter(Sort(s[1..], before), keep) == Sort(Filter(s[1..], keep), before)
    requires Filter(Insert(s[0], Sort(s[1..], before), before), keep)
             == if keep(s[0]) then Insert(s[0], Filter(Sort(s[1..], before), keep), before)
                else Filter(Sort(s[1..], before), keep)
    ensures Filter(Sort(s, before), keep) == Sort(Filter(s, keep), before)
  {
    var tail := s[1..];
    assert Sort(s, before) == Insert(s[0], Sort(tail, before), before);
    var f := Filter(s, keep);
    if keep(s[0]) {
      assert f == [s[0]] + Filter(tail, keep);
      assert f[0] == s[0] && f[1..] == Filter(tail, keep);
      assert Sort(f, before) == Insert(s[0], Sort(Filter(tail, keep), before), before);
    } else {
      assert f == Filter(tail, keep);
    }
  }

  /** A stable sort commutes with filtering: the accepted elements come out of the sorted
      list in the order sorting them alone would give. */
  lemma {:induction false} SortFilter<T(!new)>(s: seq<T>, before: (T, T) -> bool, keep: T -> bool)
    requires TotalPreorder(before)
    ensures Filter(Sort(s, before), keep) == Sort(Filter(s, keep), before)
  {
    if s != [] {
      var tail := s[1..];
      SortFilter(tail, before, keep);
      SortSorted(tail, before);
      FilterInsert(s[0], Sort(tail, before), before, keep);
      SortFilterStep(s, before, keep);
    }
  }

  /** Filtering keeps any pairwise relation that held between earlier and later elements. */
  lemma {:induction false} FilterSorted<T(!new)>(s: seq<T>, keep: T -> bool, rel: (T, T) -> bool)
    requires Sorted(s, rel)
    ensures Sorted(Filter(s, keep), rel)
  {
    if s != [] {
      var tail := s[1..];
      assert Sorted(tail, rel);
      FilterSorted(tail, keep, rel);
      var ft := Filter(tail, keep);
      if keep(s[0]) {
        var f := [s[0]] + ft;
        forall i, j | 0 <= i < j < |f| ensures rel(f[i], f[j]) {
          if i == 0 {
            assert f[j] == ft[j - 1] && ft[j - 1] in ft;
            var k :| 0 <= k < |tail| && tail[k] == ft[j - 1];
            assert s[k + 1] == f[j];
          } else {
            assert f[i] == ft[i - 1] && f[j] == ft[j - 1];
          }
        }
      }
    }
  }

  /** Kotlin's `sumOf { f(it) }`. */
  function SumBy<T>(s: seq<T>, f: T -> int): int {
    if s == [] then 0 else SumBy(s[..|s| - 1], f) + f(s[|s| - 1])
  }

  lemma {:induction false} SumByAppend<T>(a: seq<T>, b: seq<T>, f: T -> int)
    ensures SumBy(a + b, f) == SumBy(a, f) + SumBy(b, f)
    decreases |b|
  {
    if b == [] {
      assert a + b == a;
    } else {
      assert (a + b)[..|a + b| - 1] == a + b[..|b| - 1];
      SumByAppend(a, b[..|b| - 1], f);
    }
  }

  /** A sum does not depend on the order of the summands. */
  lemma {:induction false} SumByPermutation<T>(a: seq<T>, b: seq<T>, f: T -> int)
    requires multiset(a) == multiset(b)
    ensures SumBy(a, f) == SumBy(b, f)
    decreases |a|
  {
    if a == [] {
      assert |b| == |multiset(b)| == 0;
    } else {
      var x := a[|a| - 1];
      var p := a[..|a| - 1];
      assert a == p + [x];
      assert x in multiset(b);
      var k := IndexOf(b, x);
      var rest := b[..k] + b[k + 1..];
      assert b == b[..k] + [x] + b[k + 1..];
      assert multiset(b) == multiset(b[..k]) + multiset{x} + multiset(b[k + 1..]);
      assert multiset(a) == multiset(p) + multiset{x};
      assert multiset(rest) == multiset(b[..k]) + multiset(b[k + 1..]);
      assert multiset(rest) == multiset(b) - multiset{x};
      assert multiset(p) == multiset(a) - multiset{x};
      SumByPermutation(p, rest, f);
      SumByAppend(b[..k] + [x], b[k + 1..], f);
      SumByAppend(b[..k], [x], f);
      SumByAppend(b[..k], b[k + 1..], f);
      assert SumBy([x], f) == f(x) by {
        assert [x][..0] == [];
      }
    }
  }

  /** An element occurring at two positions is counted twice by the multiset. */
  lemma TwiceInMultiset<T>(s: seq<T>, i: nat, j: nat)
    requires i < j < |s| && s[i] == s[j]
    ensures multiset(s)[s[i]] >= 2
  {
    assert s == s[..i] + [s[i]] + s[i + 1..j] + [s[j]] + s[j + 1..];
  }

  /** Without duplicates, every element is counted once. */
  lemma {:induction false} OnceInMultiset<T>(s: seq<T>, x: T)
    requires NoDuplicates(s)
    ensures multiset(s)[x] <= 1
  {
    if s != [] {
      var p := s[..|s| - 1];
      assert s == p + [s[|s| - 1]];
      assert NoDuplicates(p);
      OnceInMultiset(p, x);
      if x == s[|s| - 1] {
        assert x !in p;
      }
    }
  }

  /** A permutation of a list without duplicates has none. */
  lemma NoDuplicatesPermutation<T>(a: seq<T>, b: seq<T>)
    requires NoDuplicates(a) && multiset(a) == multiset(b)
    ensures NoDuplicates(b)
  {
    forall i, j | 0 <= i < j < |b| ensures b[i] != b[j] {
      if b[i] == b[j] {
        TwiceInMultiset(b, i, j);
        OnceInMultiset(a, b[i]);
      }
    }
  }
}
