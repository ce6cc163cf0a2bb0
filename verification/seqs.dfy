/** Order-preserving selections of sequences: subsequences, filtering and
    duplicate removal that keeps first occurrences. */
module Seqs {

  /** `idx` lists, in strictly increasing order, the positions of `b`
      from which `a` is taken. */
  ghost predicate IsEmbedding<T>(idx: seq<nat>, a: seq<T>, b: seq<T>) {
    && |idx| == |a|
    && (forall k :: 0 <= k < |idx| ==> idx[k] < |b| && a[k] == b[idx[k]])
    && (forall k, l :: 0 <= k < l < |idx| ==> idx[k] < idx[l])
  }

  /** `a` is obtained from `b` by deleting elements, keeping the order. */
  ghost predicate IsSubsequence<T>(a: seq<T>, b: seq<T>) {
    exists idx :: IsEmbedding(idx, a, b)
  }

  /** No element occurs twice. */
  predicate NoDuplicates<T(==)>(s: seq<T>) {
    forall i, j :: 0 <= i < j < |s| ==> s[i] != s[j]
  }

  /** The set of elements of `s`. */
  function Elements<T>(s: seq<T>): set<T> {
    set x | x in s
  }

  /** Position `i` holds the first occurrence of its value. */
  predicate IsFirstOccurrence<T(==)>(s: seq<T>, i: nat)
    requires i < |s|
  {
    s[i] !in s[..i]
  }

  /** Shifts every position by one: the embedding into `[x] + b` of an
      embedding into `b`. */
  function Shift(idx: seq<nat>): (r: seq<nat>)
    ensures |r| == |idx|
    ensures forall k :: 0 <= k < |idx| ==> r[k] == idx[k] + 1
  {
    seq(|idx|, k requires 0 <= k < |idx| => idx[k] + 1)
  }

  /** The elements of `s` that satisfy `p`, in their original order. */
  function Filter<T(!new)>(s: seq<T>, p: T -> bool): (r: seq<T>)
    ensures forall x :: x in r <==> x in s && p(x)
    ensures |r| <= |s|
  {
    if |s| == 0 then []
    else (if p(s[0]) then [s[0]] else []) + Filter(s[1..], p)
  }

  /** The positions of `s` whose element satisfies `p`. */
  ghost function Positions<T>(s: seq<T>, p: T -> bool): set<int> {
    set i | 0 <= i < |s| && p(s[i])
  }

  /** Filtering a list extended at the end extends the filtered list. */
  lemma {:induction false} FilterSnoc<T(!new)>(s: seq<T>, x: T, p: T -> bool)
    ensures Filter(s + [x], p) == Filter(s, p) + (if p(x) then [x] else [])
  {
    if |s| > 0 {
      assert (s + [x])[1..] == s[1..] + [x];
      FilterSnoc(s[1..], x, p);
    }
  }

  /** `Filter` keeps exactly as many elements as there are positions
      satisfying `p`. */
  lemma {:induction false} FilterCount<T(!new)>(s: seq<T>, p: T -> bool)
    ensures |Filter(s, p)| == |Positions(s, p)|
  {
    if |s| > 0 {
      var n := |s| - 1;
      var front := s[..n];
      assert s == front + [s[n]];
      FilterSnoc(front, s[n], p);
      FilterCount(front, p);
      assert n !in Positions(front, p);
      if p(s[n]) {
        assert Positions(s, p) == Positions(front, p) + {n};
      } else {
        assert Positions(s, p) == Positions(front, p);
      }
    }
  }

  /** The elements `Filter` keeps are taken from increasing positions. */
  lemma {:induction false} FilterEmbedding<T(!new)>(s: seq<T>, p: T -> bool) returns (idx: seq<nat>)
    ensures IsEmbedding(idx, Filter(s, p), s)
  {
    if |s| == 0 {
      idx := [];
    } else {
      var f := Filter(s, p);
      var tail := Filter(s[1..], p);
      var rest := FilterEmbedding(s[1..], p);
      var shifted := Shift(rest);
      forall k | 0 <= k < |shifted|
        ensures shifted[k] < |s| && tail[k] == s[shifted[k]]
      {
        assert s[shifted[k]] == s[1..][rest[k]];
      }
      if p(s[0]) {
        assert f == [s[0]] + tail;
        idx := [0] + shifted;
        forall k | 0 <= k < |idx| ensures idx[k] < |s| && f[k] == s[idx[k]] {
          if k > 0 { assert idx[k] == shifted[k - 1] && f[k] == tail[k - 1]; }
        }
        forall k, l | 0 <= k < l < |idx| ensures idx[k] < idx[l] {
          assert idx[l] == shifted[l - 1];
          if k > 0 { assert idx[k] == shifted[k - 1]; }
        }
      } else {
        assert f == tail;
        idx := shifted;
      }
    }
  }

  lemma FilterIsSubsequence<T(!new)>(s: seq<T>, p: T -> bool)
    ensures IsSubsequence(Filter(s, p), s)
  {
    var idx := FilterEmbedding(s, p);
  }

  /** Filtering a duplicate-free sequence leaves it duplicate-free. */
  lemma {:induction false} FilterNoDuplicates<T(!new)>(s: seq<T>, p: T -> bool)
    requires NoDuplicates(s)
    ensures NoDuplicates(Filter(s, p))
  {
    if |s| > 0 {
      assert NoDuplicates(s[1..]);
      FilterNoDuplicates(s[1..], p);
      assert s[0] !in s[1..];
    }
  }

  /** A duplicate-free sequence has as many elements as its element set. */
  lemma {:induction false} NoDuplicatesCardinality<T(!new)>(s: seq<T>)
    requires NoDuplicates(s)
    ensures |Elements(s)| == |s|
  {
    if |s| > 0 {
      var init := s[..|s| - 1];
      assert NoDuplicates(init);
      NoDuplicatesCardinality(init);
      assert s == init + [s[|s| - 1]];
      assert s[|s| - 1] !in init;
      assert Elements(s) == Elements(init) + {s[|s| - 1]};
    }
  }

  /** Removes exact duplicates, keeping the first occurrence of each value. */
  function Dedup<T(==,!new)>(s: seq<T>): (r: seq<T>)
    ensures forall x :: x in r <==> x in s
    ensures NoDuplicates(r)
    ensures |r| <= |s|
    decreases |s|
  {
    if |s| == 0 then []
    else
      var init := s[..|s| - 1];
      assert s == init + [s[|s| - 1]];
      var kept := Dedup(init);
      if s[|s| - 1] in kept then kept else kept + [s[|s| - 1]]
  }

  /** The positions of `s` that hold a first occurrence, ascending. */
  function FirstOccurrences<T(==,!new)>(s: seq<T>): (idx: seq<nat>)
    ensures forall i: nat :: i in idx <==> i < |s| && IsFirstOccurrence(s, i)
    ensures forall k :: 0 <= k < |idx| ==> idx[k] < |s|
    ensures forall k, l :: 0 <= k < l < |idx| ==> idx[k] < idx[l]
    decreases |s|
  {
    if |s| == 0 then []
    else
      var init := s[..|s| - 1];
      var prev := FirstOccurrences(init);
      assert forall i: nat :: i < |init| ==> init[..i] == s[..i];
      if IsFirstOccurrence(s, |s| - 1) then prev + [|s| - 1] else prev
  }

  /** Duplicate removal keeps exactly the first occurrences, in input order. */
  lemma {:induction false} DedupKeepsFirstOccurrences<T(!new)>(s: seq<T>)
    ensures IsEmbedding(FirstOccurrences(s), Dedup(s), s)
    decreases |s|
  {
    if |s| > 0 {
      var n := |s| - 1;
      var init := s[..n];
      assert s == init + [s[n]];
      DedupKeepsFirstOccurrences(init);
      assert s[..n] == init;
    }
  }

  lemma DedupIsSubsequence<T(!new)>(s: seq<T>)
    ensures IsSubsequence(Dedup(s), s)
  {
    DedupKeepsFirstOccurrences(s);
  }

  /** The length of the deduplicated sequence is the number of distinct values. */
  lemma DedupLength<T(!new)>(s: seq<T>)
    ensures |Dedup(s)| == |Elements(s)|
  {
    NoDuplicatesCardinality(Dedup(s));
    assert Elements(Dedup(s)) == Elements(s);
  }

  /** A duplicate-free sequence is left unchanged. */
  lemma {:induction false} DedupOfDistinct<T(!new)>(s: seq<T>)
    requires NoDuplicates(s)
    ensures Dedup(s) == s
    decreases |s|
  {
    if |s| > 0 {
      var init := s[..|s| - 1];
      assert NoDuplicates(init);
      DedupOfDistinct(init);
      assert s[|s| - 1] !in init;
      assert s == init + [s[|s| - 1]];
    }
  }
}
