/** Sequence helpers shared by several scripts. */
module Sequences {

  /** Position of the first occurrence of `x` in `xs`. */
  function FirstIndex<T(==)>(xs: seq<T>, x: T): (i: nat)
    requires x in xs
    ensures i < |xs| && xs[i] == x
    ensures forall k :: 0 <= k < i ==> xs[k] != x
  {
    if xs[0] == x then 0 else 1 + FirstIndex(xs[1..], x)
  }

  lemma FirstIndexPrefix<T>(xs: seq<T>, n: nat, x: T)
    requires n <= |xs| && x in xs[..n]
    ensures x in xs && FirstIndex(xs, x) == FirstIndex(xs[..n], x)
  {
    var i := FirstIndex(xs[..n], x);
    assert xs[..n][i] == xs[i];
    forall k | 0 <= k < i ensures xs[k] != x {
      assert xs[..n][k] == xs[k];
    }
  }

  /** Past a different first element, the first index is one more than in the tail. */
  lemma FirstIndexTail<T>(xs: seq<T>, x: T)
    requires |xs| > 0 && x in xs[1..] && x != xs[0]
    ensures x in xs && FirstIndex(xs, x) == 1 + FirstIndex(xs[1..], x)
  {
    var d := FirstIndex(xs[1..], x);
    assert xs[d + 1] == x;
  }

  predicate Distinct<T(==)>(xs: seq<T>) {
    forall i, j :: 0 <= i < j < |xs| ==> xs[i] != xs[j]
  }

  /**
   `r` holds the values of `xs`, each once, in the order of their first
   appearance in `xs`.
   */
  predicate FirstSeen<T(==)>(r: seq<T>, xs: seq<T>) {
    && (forall i :: 0 <= i < |r| ==> r[i] in xs)
    && (forall i :: 0 <= i < |xs| ==> xs[i] in r)
    && Distinct(r)
    && (forall i, j :: 0 <= i < j < |r| ==> FirstIndex(xs, r[i]) < FirstIndex(xs, r[j]))
  }

  /**
   `pandas.Series.unique()`: every value of `xs` exactly once, in the order
   of first appearance.
   */
  function Dedup<T(==)>(xs: seq<T>): (r: seq<T>)
    ensures forall i :: 0 <= i < |r| ==> r[i] in xs
    ensures forall i :: 0 <= i < |xs| ==> xs[i] in r
    ensures Distinct(r)
    ensures forall i, j :: 0 <= i < j < |r| ==> FirstIndex(xs, r[i]) < FirstIndex(xs, r[j])
    decreases |xs|
  {
    if |xs| == 0 then []
    else
      var n := |xs| - 1;
      var prev := Dedup(xs[..n]);
      assert FirstSeen(prev, xs[..n]);
      if xs[n] in prev then
        DedupSeen(xs, prev);
        prev
      else
        DedupNew(xs, prev);
        prev + [xs[n]]
  }

  /** A last value seen before adds nothing. */
  lemma DedupSeen<T>(xs: seq<T>, prev: seq<T>)
    requires |xs| > 0 && FirstSeen(prev, xs[..|xs| - 1]) && xs[|xs| - 1] in prev
    ensures FirstSeen(prev, xs)
  {
    var n := |xs| - 1;
    forall i | 0 <= i < n ensures xs[i] in prev {
      assert xs[..n][i] == xs[i];
    }
    forall i | 0 <= i < |prev| ensures prev[i] in xs && FirstIndex(xs, prev[i]) == FirstIndex(xs[..n], prev[i]) {
      FirstIndexPrefix(xs, n, prev[i]);
    }
  }

  /** A last value not seen before is added at the end. */
  lemma DedupNew<T>(xs: seq<T>, prev: seq<T>)
    requires |xs| > 0 && FirstSeen(prev, xs[..|xs| - 1]) && xs[|xs| - 1] !in prev
    ensures FirstSeen(prev + [xs[|xs| - 1]], xs)
  {
    var n := |xs| - 1;
    var r := prev + [xs[n]];
    forall i | 0 <= i < n ensures xs[i] in prev {
      assert xs[..n][i] == xs[i];
    }
    forall i | 0 <= i < |prev| ensures r[i] == prev[i] && prev[i] in xs && FirstIndex(xs, prev[i]) == FirstIndex(xs[..n], prev[i]) < n {
      FirstIndexPrefix(xs, n, prev[i]);
    }
    assert FirstIndex(xs, xs[n]) == n;
  }

  /** Distinct values that all occur in `ys` are at most as many as the elements of `ys`. */
  lemma {:induction false} DistinctWithin<T>(xs: seq<T>, ys: seq<T>)
    requires Distinct(xs) && forall k :: 0 <= k < |xs| ==> xs[k] in ys
    ensures |xs| <= |ys|
    decreases |xs|
  {
    if |xs| > 0 {
      var j :| 0 <= j < |ys| && ys[j] == xs[0];
      var rest := ys[..j] + ys[j + 1..];
      forall k | 0 <= k < |xs| - 1 ensures xs[1..][k] in rest {
        var x := xs[k + 1];
        assert x != xs[0];
        var m :| 0 <= m < |ys| && ys[m] == x;
        if m < j {
          assert rest[m] == x;
        } else {
          assert rest[m - 1] == x;
        }
      }
      assert Distinct(xs[1..]) by {
        forall a, b | 0 <= a < b < |xs| - 1 ensures xs[1..][a] != xs[1..][b] {
          assert xs[1..][a] == xs[a + 1] && xs[1..][b] == xs[b + 1];
        }
      }
      DistinctWithin(xs[1..], rest);
    }
  }

  /** Two values met in the order of `Dedup(xs)` were first seen in `xs` in that order. */
  lemma DedupOrder<T>(xs: seq<T>, a: T, b: T)
    requires a in Dedup(xs) && b in Dedup(xs)
    requires FirstIndex(Dedup(xs), a) < FirstIndex(Dedup(xs), b)
    ensures a in xs && b in xs && FirstIndex(xs, a) < FirstIndex(xs, b)
  {
    var d := Dedup(xs);
    var i, j := FirstIndex(d, a), FirstIndex(d, b);
    assert d[i] == a && d[j] == b;
  }

  /** `[f(x) for x in xs]` */
  function Map<A, B>(f: A -> B, xs: seq<A>): (r: seq<B>)
    ensures |r| == |xs| && forall i :: 0 <= i < |xs| ==> r[i] == f(xs[i])
  {
    if |xs| == 0 then [] else [f(xs[0])] + Map(f, xs[1..])
  }

  /** `[x for x in xs if p(x)]` */
  function Filter<T>(p: T -> bool, xs: seq<T>): (r: seq<T>)
    ensures |r| <= |xs|
    ensures forall k :: 0 <= k < |r| ==> r[k] in xs && p(r[k])
  {
    if |xs| == 0 then []
    else
      var rest := Filter(p, xs[1..]);
      if p(xs[0]) then [xs[0]] + rest else rest
  }

  /** A filter over a longer list extends the filter over its prefix, as the comprehension runs. */
  lemma {:induction false} FilterAppend<T>(p: T -> bool, xs: seq<T>, x: T)
    ensures Filter(p, xs + [x]) == Filter(p, xs) + (if p(x) then [x] else [])
    decreases |xs|
  {
    if |xs| == 0 {
      assert [x][1..] == [];
    } else {
      assert (xs + [x])[1..] == xs[1..] + [x];
      FilterAppend(p, xs[1..], x);
    }
  }

  /** Every element `p` accepts is kept. */
  lemma {:induction false} FilterKeeps<T>(p: T -> bool, xs: seq<T>, i: nat)
    requires i < |xs| && p(xs[i])
    ensures xs[i] in Filter(p, xs)
  {
    if i > 0 {
      assert xs[1..][i - 1] == xs[i];
      FilterKeeps(p, xs[1..], i - 1);
    }
  }

  /** `xs` is strictly increasing in `rank`. */
  predicate Ordered<T>(xs: seq<T>, rank: T -> nat) {
    forall i, j :: 0 <= i < j < |xs| ==> rank(xs[i]) < rank(xs[j])
  }

  /** Filtering keeps the order: a sequence ranked increasingly stays so. */
  lemma {:induction false} FilterOrdered<T>(p: T -> bool, xs: seq<T>, rank: T -> nat)
    requires Ordered(xs, rank)
    ensures Ordered(Filter(p, xs), rank)
  {
    if |xs| > 0 {
      var rest := Filter(p, xs[1..]);
      FilterOrdered(p, xs[1..], rank);
      forall k | 0 <= k < |rest| ensures rank(xs[0]) < rank(rest[k]) {
        var i :| 0 <= i < |xs[1..]| && xs[1..][i] == rest[k];
        assert xs[i + 1] == rest[k];
      }
      if p(xs[0]) {
        var r := [xs[0]] + rest;
        forall i, j | 0 <= i < j < |r| ensures rank(r[i]) < rank(r[j]) {
          assert r[j] == rest[j - 1];
          if i == 0 {
            assert r[i] == xs[0];
          } else {
            assert r[i] == rest[i - 1];
          }
        }
      }
    }
  }
}
