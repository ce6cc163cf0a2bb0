/** Group-by-key sums and sorting of the grouped rows. A grouped table is
    a sequence of (key, total) pairs; the input of a grouping is the same
    shape, one pair per line. */
module Grouping {

  /** One row of a grouped table: a key and the sum of its amounts. */
  datatype Group<K> = Group(key: K, total: int)

  /** The sum of all totals. */
  function Total<K>(gs: seq<Group<K>>): int {
    if |gs| == 0 then 0 else gs[0].total + Total(gs[1..])
  }

  /** The sum of the totals of the pairs whose key is `k`. */
  function SumFor<K(==)>(gs: seq<Group<K>>, k: K): int {
    if |gs| == 0 then 0
    else (if gs[0].key == k then gs[0].total else 0) + SumFor(gs[1..], k)
  }

  /** The keys that occur. */
  function Keys<K>(gs: seq<Group<K>>): set<K> {
    if |gs| == 0 then {} else {gs[0].key} + Keys(gs[1..])
  }

  /** No key occurs twice. */
  predicate DistinctKeys<K(==)>(gs: seq<Group<K>>) {
    forall i, j :: 0 <= i < j < |gs| ==> gs[i].key != gs[j].key
  }

  lemma {:induction false} KeysIndex<K>(gs: seq<Group<K>>, k: K)
    ensures k in Keys(gs) <==> exists i :: 0 <= i < |gs| && gs[i].key == k
  {
    if |gs| > 0 {
      KeysIndex(gs[1..], k);
      if k in Keys(gs[1..]) {
        var i :| 0 <= i < |gs[1..]| && gs[1..][i].key == k;
        assert gs[i + 1].key == k;
      }
      if exists i :: 0 <= i < |gs| && gs[i].key == k {
        var i :| 0 <= i < |gs| && gs[i].key == k;
        if i > 0 { assert gs[1..][i - 1].key == k; }
      }
    }
  }

  /** A key that does not occur sums to nothing. */
  lemma {:induction false} SumForAbsent<K>(gs: seq<Group<K>>, k: K)
    requires k !in Keys(gs)
    ensures SumFor(gs, k) == 0
  {
    if |gs| > 0 {
      SumForAbsent(gs[1..], k);
    }
  }

  /** With distinct keys, a row's total is everything summed under its key. */
  lemma {:induction false} DistinctKeysTotal<K>(gs: seq<Group<K>>, j: int)
    requires DistinctKeys(gs)
    requires 0 <= j < |gs|
    ensures gs[j].total == SumFor(gs, gs[j].key)
  {
    var rest := gs[1..];
    assert DistinctKeys(rest);
    if j == 0 {
      forall i | 0 <= i < |rest| ensures rest[i].key != gs[0].key {
        assert rest[i] == gs[i + 1];
      }
      KeysIndex(rest, gs[0].key);
      SumForAbsent(rest, gs[0].key);
    } else {
      assert rest[j - 1] == gs[j];
      DistinctKeysTotal(rest, j - 1);
    }
  }

  /** With distinct keys there are as many rows as keys. */
  lemma {:induction false} DistinctKeysCardinality<K>(gs: seq<Group<K>>)
    requires DistinctKeys(gs)
    ensures |Keys(gs)| == |gs|
  {
    if |gs| > 0 {
      var rest := gs[1..];
      assert DistinctKeys(rest);
      DistinctKeysCardinality(rest);
      forall i | 0 <= i < |rest| ensures rest[i].key != gs[0].key {
        assert rest[i] == gs[i + 1];
      }
      KeysIndex(rest, gs[0].key);
    }
  }

  /** Adds one pair into a grouped table: to the row with its key, or as a
      new row at the end. */
  function AddTo<K(==,!new)>(g: seq<Group<K>>, p: Group<K>): (r: seq<Group<K>>)
    ensures Keys(r) == Keys(g) + {p.key}
    ensures Total(r) == Total(g) + p.total
    ensures forall k :: SumFor(r, k) == SumFor(g, k) + (if k == p.key then p.total else 0)
    ensures DistinctKeys(g) ==> DistinctKeys(r)
  {
    if |g| == 0 then
      [p]
    else if g[0].key == p.key then
      var r := [Group(p.key, g[0].total + p.total)] + g[1..];
      assert r[1..] == g[1..];
      r
    else
      var rest := AddTo(g[1..], p);
      var r := [g[0]] + rest;
      assert r[1..] == rest;
      assert DistinctKeys(g) ==> DistinctKeys(r) by {
        if DistinctKeys(g) {
          assert DistinctKeys(g[1..]);
          KeysIndex(g[1..], g[0].key);
          KeysIndex(rest, g[0].key);
          forall j | 0 < j < |r| ensures r[0].key != r[j].key {
            assert rest[j - 1] == r[j];
          }
        }
      }
      r
  }

  /** Groups pairs by key, summing the amounts of each key: one row per
      distinct key, the grand total conserved. */
  function GroupSum<K(==,!new)>(ps: seq<Group<K>>): (r: seq<Group<K>>)
    ensures DistinctKeys(r)
    ensures Keys(r) == Keys(ps)
    ensures Total(r) == Total(ps)
    ensures forall k :: SumFor(r, k) == SumFor(ps, k)
  {
    if |ps| == 0 then [] else AddTo(GroupSum(ps[1..]), ps[0])
  }

  // ---------------------------------------------------------------------
  // Sorting

  /** `before` puts any two rows in some order. */
  ghost predicate Connected<K(!new)>(before: (Group<K>, Group<K>) -> bool) {
    forall a, b :: before(a, b) || before(b, a)
  }

  /** Each row is in order with the next one. */
  predicate Sorted<K>(gs: seq<Group<K>>, before: (Group<K>, Group<K>) -> bool) {
    forall i :: 0 <= i && i + 1 < |gs| ==> before(gs[i], gs[i + 1])
  }

  /** Inserts `x` before the first row it may precede. */
  function Insert<K(==,!new)>(x: Group<K>, s: seq<Group<K>>, before: (Group<K>, Group<K>) -> bool): (r: seq<Group<K>>)
    ensures |r| == |s| + 1
    ensures multiset(r) == multiset(s) + multiset{x}
    ensures r[0] == x || (|s| > 0 && r[0] == s[0])
  {
    if |s| == 0 || before(x, s[0]) then
      [x] + s
    else
      assert s == [s[0]] + s[1..];
      [s[0]] + Insert(x, s[1..], before)
  }

  /** Insertion adds `x`'s key, its total, and its amount to its key's sum. */
  lemma {:induction false} InsertSums<K(!new)>(x: Group<K>, s: seq<Group<K>>, before: (Group<K>, Group<K>) -> bool)
    ensures Keys(Insert(x, s, before)) == Keys(s) + {x.key}
    ensures Total(Insert(x, s, before)) == Total(s) + x.total
    ensures forall k :: SumFor(Insert(x, s, before), k) == SumFor(s, k) + (if k == x.key then x.total else 0)
  {
    var r := Insert(x, s, before);
    if |s| == 0 || before(x, s[0]) {
      assert r[1..] == s;
    } else {
      var rest := Insert(x, s[1..], before);
      InsertSums(x, s[1..], before);
      assert r[0] == s[0] && r[1..] == rest;
      assert Keys(r) == {s[0].key} + Keys(rest);
      assert Total(r) == s[0].total + Total(rest);
      assert forall k :: SumFor(r, k) == (if s[0].key == k then s[0].total else 0) + SumFor(rest, k);
    }
  }

  /** Inserting a new key keeps the keys distinct. */
  lemma {:induction false} InsertDistinct<K(!new)>(x: Group<K>, s: seq<Group<K>>, before: (Group<K>, Group<K>) -> bool)
    requires DistinctKeys(s) && x.key !in Keys(s)
    ensures DistinctKeys(Insert(x, s, before))
  {
    var r := Insert(x, s, before);
    if |s| == 0 || before(x, s[0]) {
      KeysIndex(s, x.key);
      forall i, j | 0 <= i < j < |r| ensures r[i].key != r[j].key {
        assert r[j] == s[j - 1];
        if i > 0 { assert r[i] == s[i - 1]; }
      }
    } else {
      var rest := Insert(x, s[1..], before);
      InsertSums(x, s[1..], before);
      assert DistinctKeys(s[1..]);
      assert s == [s[0]] + s[1..];
      InsertDistinct(x, s[1..], before);
      forall i | 0 <= i < |s[1..]| ensures s[1..][i].key != s[0].key {
        assert s[1..][i] == s[i + 1];
      }
      KeysIndex(s[1..], s[0].key);
      KeysIndex(s, s[0].key);
      KeysIndex(rest, s[0].key);
      forall i, j | 0 <= i < j < |r| ensures r[i].key != r[j].key {
        assert r[j] == rest[j - 1];
        if i > 0 { assert r[i] == rest[i - 1]; }
      }
    }
  }

  /** Inserting into a sorted table under a connected order keeps it sorted. */
  lemma {:induction false} InsertSorted<K(!new)>(x: Group<K>, s: seq<Group<K>>, before: (Group<K>, Group<K>) -> bool)
    requires Connected(before) && Sorted(s, before)
    ensures Sorted(Insert(x, s, before), before)
  {
    var r := Insert(x, s, before);
    if |s| == 0 || before(x, s[0]) {
      forall i | 0 <= i && i + 1 < |r| ensures before(r[i], r[i + 1]) {
        if i > 0 { assert r[i] == s[i - 1] && r[i + 1] == s[i]; }
      }
    } else {
      var rest := Insert(x, s[1..], before);
      assert Sorted(s[1..], before) by {
        forall i | 0 <= i && i + 1 < |s[1..]| ensures before(s[1..][i], s[1..][i + 1]) {
          assert s[1..][i] == s[i + 1] && s[1..][i + 1] == s[i + 2];
        }
      }
      InsertSorted(x, s[1..], before);
      assert before(s[0], x);
      forall i | 0 <= i && i + 1 < |r| ensures before(r[i], r[i + 1]) {
        if i > 0 {
          assert r[i] == rest[i - 1] && r[i + 1] == rest[i];
        } else if rest[0] != x {
          assert |s| > 1 && rest[0] == s[1];
        }
      }
    }
  }

  /** Insertion sort: a permutation of `s` with the same keys and sums. */
  function Sort<K(==,!new)>(s: seq<Group<K>>, before: (Group<K>, Group<K>) -> bool): (r: seq<Group<K>>)
    ensures |r| == |s|
    ensures multiset(r) == multiset(s)
  {
    if |s| == 0 then []
    else
      assert s == [s[0]] + s[1..];
      Insert(s[0], Sort(s[1..], before), before)
  }

  /** Sorting keeps the keys and the grand total. */
  lemma {:induction false} SortKeysTotal<K(!new)>(s: seq<Group<K>>, before: (Group<K>, Group<K>) -> bool)
    ensures Keys(Sort(s, before)) == Keys(s)
    ensures Total(Sort(s, before)) == Total(s)
  {
    if |s| > 0 {
      SortKeysTotal(s[1..], before);
      InsertSums(s[0], Sort(s[1..], before), before);
      Uncons(s);
    }
  }

  /** Sorting keeps the sum under one key. */
  lemma {:induction false} SortSumFor<K(!new)>(s: seq<Group<K>>, before: (Group<K>, Group<K>) -> bool, k: K)
    ensures SumFor(Sort(s, before), k) == SumFor(s, k)
  {
    if |s| > 0 {
      SortSumFor(s[1..], before, k);
      InsertSums(s[0], Sort(s[1..], before), before);
      Uncons(s);
    }
  }

  /** Sorting keeps the keys, the grand total and every key's sum. */
  lemma SortSums<K(!new)>(s: seq<Group<K>>, before: (Group<K>, Group<K>) -> bool)
    ensures Keys(Sort(s, before)) == Keys(s)
    ensures Total(Sort(s, before)) == Total(s)
    ensures forall k :: SumFor(Sort(s, before), k) == SumFor(s, k)
  {
    SortKeysTotal(s, before);
    forall k ensures SumFor(Sort(s, before), k) == SumFor(s, k) {
      SortSumFor(s, before, k);
    }
  }

  /** The head/tail split of a non-empty list, in the terms the sums are stated in. */
  lemma Uncons<K>(s: seq<Group<K>>)
    requires |s| > 0
    ensures Keys(s) == {s[0].key} + Keys(s[1..])
    ensures Total(s) == s[0].total + Total(s[1..])
    ensures forall k :: SumFor(s, k) == (if s[0].key == k then s[0].total else 0) + SumFor(s[1..], k)
  {
    assert s == [s[0]] + s[1..];
  }

  /** Sorting keeps distinct keys distinct. */
  lemma {:induction false} SortDistinct<K(!new)>(s: seq<Group<K>>, before: (Group<K>, Group<K>) -> bool)
    requires DistinctKeys(s)
    ensures DistinctKeys(Sort(s, before))
  {
    if |s| > 0 {
      var tail := s[1..];
      assert DistinctKeys(tail);
      SortDistinct(tail, before);
      forall i | 0 <= i < |tail| ensures tail[i].key != s[0].key {
        assert tail[i] == s[i + 1];
      }
      KeysIndex(tail, s[0].key);
      SortSums(tail, before);
      InsertDistinct(s[0], Sort(tail, before), before);
    }
  }

  /** Under a connected order the result is sorted. */
  lemma {:induction false} SortSorted<K(!new)>(s: seq<Group<K>>, before: (Group<K>, Group<K>) -> bool)
    requires Connected(before)
    ensures Sorted(Sort(s, before), before)
  {
    if |s| > 0 {
      SortSorted(s[1..], before);
      InsertSorted(s[0], Sort(s[1..], before), before);
    }
  }

  /** The first `n` rows, or all of them when there are fewer. */
  function Head<K>(gs: seq<Group<K>>, n: nat): (r: seq<Group<K>>)
    ensures |r| == if |gs| < n then |gs| else n
    ensures forall i :: 0 <= i < |r| ==> r[i] == gs[i]
  {
    if |gs| <= n then gs else gs[..n]
  }

  /** Orders rows by descending total. */
  predicate ByTotalDescending<K>(a: Group<K>, b: Group<K>) {
    a.total >= b.total
  }

  /** In a sorted-descending table every row's total is at least every
      later row's. */
  lemma {:induction false} DescendingEverywhere<K>(gs: seq<Group<K>>)
    requires Sorted(gs, ByTotalDescending)
    ensures forall i, j :: 0 <= i < j < |gs| ==> gs[i].total >= gs[j].total
  {
    if |gs| > 1 {
      var rest := gs[1..];
      assert Sorted(rest, ByTotalDescending) by {
        forall i | 0 <= i && i + 1 < |rest| ensures ByTotalDescending(rest[i], rest[i + 1]) {
          assert rest[i] == gs[i + 1] && rest[i + 1] == gs[i + 2];
        }
      }
      DescendingEverywhere(rest);
      forall i, j | 0 <= i < j < |gs| ensures gs[i].total >= gs[j].total {
        if i > 0 {
          assert gs[i] == rest[i - 1] && gs[j] == rest[j - 1];
        } else if j > 1 {
          assert gs[1] == rest[0] && gs[j] == rest[j - 1];
          assert ByTotalDescending(gs[0], gs[1]);
        } else {
          assert ByTotalDescending(gs[0], gs[1]);
        }
      }
    }
  }

  /** With distinct keys, every row carries the full sum of its key. */
  lemma RowsCarryKeySums<K(!new)>(gs: seq<Group<K>>)
    requires DistinctKeys(gs)
    ensures forall j :: 0 <= j < |gs| ==> gs[j].key in Keys(gs) && gs[j].total == SumFor(gs, gs[j].key)
  {
    forall j | 0 <= j < |gs|
      ensures gs[j].key in Keys(gs) && gs[j].total == SumFor(gs, gs[j].key)
    {
      DistinctKeysTotal(gs, j);
      KeysIndex(gs, gs[j].key);
    }
  }

  /** The first `n` rows of a descending grouped table: still distinct and
      descending, and every key left out sums to no more than any kept row. */
  lemma HeadOfDescending<K(!new)>(s: seq<Group<K>>, n: nat)
    requires DistinctKeys(s) && Sorted(s, ByTotalDescending)
    ensures DistinctKeys(Head(s, n))
    ensures forall i, j :: 0 <= i < j < |Head(s, n)| ==> Head(s, n)[i].total >= Head(s, n)[j].total
    ensures forall j :: 0 <= j < |Head(s, n)| ==>
      Head(s, n)[j].key in Keys(s) && Head(s, n)[j].total == SumFor(s, Head(s, n)[j].key)
    ensures forall k, j :: k in Keys(s) && k !in Keys(Head(s, n)) && 0 <= j < |Head(s, n)| ==>
      SumFor(s, k) <= Head(s, n)[j].total
  {
    var r := Head(s, n);
    DescendingEverywhere(s);
    RowsCarryKeySums(s);
    forall k, j | k in Keys(s) && k !in Keys(r) && 0 <= j < |r|
      ensures SumFor(s, k) <= r[j].total
    {
      KeysIndex(s, k);
      var m :| 0 <= m < |s| && s[m].key == k;
      KeysIndex(r, k);
      assert forall j :: 0 <= j < |r| ==> r[j] == s[j] && r[j].key != k;
      assert m >= |r|;
    }
  }
}
