/**
 Sorting by counting: each place of a list ranks by how many places come before it, a place before
 another where its key is less, or equal and to its left. The ranks are the places, each once.
 */
module RankSort {

  predicate Precedes(keys: seq<int>, j: nat, i: nat)
    requires i < |keys| && j < |keys|
  {
    keys[j] < keys[i] || (keys[j] == keys[i] && j < i)
  }

  /** How many of the first n places come before place i. */
  function Count(keys: seq<int>, i: nat, n: nat): (c: nat)
    requires i < |keys| && n <= |keys|
    ensures c <= n
  {
    if n == 0 then 0 else Count(keys, i, n - 1) + if Precedes(keys, n - 1, i) then 1 else 0
  }

  function Rank(keys: seq<int>, i: nat): nat
    requires i < |keys|
  {
    Count(keys, i, |keys|)
  }

  /** The first place from `from` on with a given rank; the length of the list where there is none. */
  function PlaceOf(keys: seq<int>, rank: nat, from: nat): (i: nat)
    requires from <= |keys|
    ensures from <= i <= |keys|
    ensures i < |keys| ==> Rank(keys, i) == rank
    ensures forall j | from <= j < i :: Rank(keys, j) != rank
    decreases |keys| - from
  {
    if from == |keys| || Rank(keys, from) == rank then from else PlaceOf(keys, rank, from + 1)
  }

  /** The place that comes k-th. */
  function Nth(keys: seq<int>, k: nat): (i: nat)
    requires k < |keys|
    ensures i < |keys| && Rank(keys, i) == k
    ensures forall j | 0 <= j < |keys| && Rank(keys, j) == k :: j == i
  {
    RanksAreAll(keys, k);
    RanksDiffer(keys);
    PlaceOf(keys, k, 0)
  }

  // ---- ranks are the places, each once

  lemma {:induction false} CountGrows(keys: seq<int>, i: nat, j: nat, n: nat)
    requires i < |keys| && j < |keys| && n <= |keys| && Precedes(keys, j, i)
    ensures Count(keys, j, n) + (if j < n then 1 else 0) <= Count(keys, i, n)
  {
    if n > 0 { CountGrows(keys, i, j, n - 1); }
  }

  lemma {:induction false} CountBelow(keys: seq<int>, i: nat, n: nat)
    requires i < n <= |keys|
    ensures Count(keys, i, n) < n
  {
    if n - 1 > i { CountBelow(keys, i, n - 1); }
  }

  lemma RanksDiffer(keys: seq<int>)
    ensures forall i, j | 0 <= i < |keys| && 0 <= j < |keys| && Rank(keys, i) == Rank(keys, j) :: i == j
  {
    forall i, j | 0 <= i < |keys| && 0 <= j < |keys| && i != j ensures Rank(keys, i) != Rank(keys, j) {
      if Precedes(keys, j, i) { CountGrows(keys, i, j, |keys|); } else { CountGrows(keys, j, i, |keys|); }
    }
  }

  /** Counting order: the place before another ranks below it, and the other way round. */
  lemma RankOrders(keys: seq<int>, i: nat, j: nat)
    requires i < |keys| && j < |keys|
    ensures Precedes(keys, j, i) <==> Rank(keys, j) < Rank(keys, i)
  {
    if Precedes(keys, j, i) {
      CountGrows(keys, i, j, |keys|);
    } else if i != j {
      CountGrows(keys, j, i, |keys|);
    }
  }

  function Below(n: nat): (s: set<nat>)
    ensures |s| == n && forall k: nat :: k in s <==> k < n
  {
    if n == 0 then {} else Below(n - 1) + {n - 1}
  }

  /** The ranks of the first n places. */
  function Ranks(keys: seq<int>, n: nat): set<nat>
    requires n <= |keys|
  {
    if n == 0 then {} else Ranks(keys, n - 1) + {Rank(keys, n - 1)}
  }

  lemma {:induction false} RanksHold(keys: seq<int>, n: nat, r: nat) returns (i: nat)
    requires n <= |keys| && r in Ranks(keys, n)
    ensures i < n && Rank(keys, i) == r
  {
    hide Rank;
    if r == Rank(keys, n - 1) { i := n - 1; } else { i := RanksHold(keys, n - 1, r); }
  }

  lemma {:induction false} RanksCount(keys: seq<int>, n: nat)
    requires n <= |keys|
    ensures |Ranks(keys, n)| == n
  {
    hide Rank;
    if n > 0 {
      RanksCount(keys, n - 1);
      NewRank(keys, n - 1);
      OneMore(Ranks(keys, n - 1), Rank(keys, n - 1));
    }
  }

  lemma NewRank(keys: seq<int>, n: nat)
    requires n < |keys|
    ensures Rank(keys, n) !in Ranks(keys, n)
  {
    hide Rank, Ranks;
    RanksDiffer(keys);
    if Rank(keys, n) in Ranks(keys, n) {
      var i := RanksHold(keys, n, Rank(keys, n));
    }
  }

  lemma OneMore(s: set<nat>, x: nat)
    requires x !in s
    ensures |s + {x}| == |s| + 1
  {
  }

  lemma RanksAreAll(keys: seq<int>, k: nat)
    requires k < |keys|
    ensures exists i :: 0 <= i < |keys| && Rank(keys, i) == k
  {
    var n := |keys|;
    RanksCount(keys, n);
    forall r | r in Ranks(keys, n) ensures r in Below(n) {
      var i := RanksHold(keys, n, r);
      CountBelow(keys, i, n);
    }
    SameSize(Ranks(keys, n), Below(n));
    var i := RanksHold(keys, n, k);
  }

  lemma SameSize(a: set<nat>, b: set<nat>)
    requires a <= b && |a| == |b|
    ensures a == b
  {
    assert b == a + (b - a) && |b - a| == 0;
  }

  /** The k-th places, in order, are all places, and their keys never fall. */
  lemma NthOrders(keys: seq<int>, k: nat, l: nat)
    requires k < l < |keys|
    ensures Precedes(keys, Nth(keys, k), Nth(keys, l))
    ensures keys[Nth(keys, k)] <= keys[Nth(keys, l)]
  {
    RankOrders(keys, Nth(keys, l), Nth(keys, k));
  }

  lemma NthOfRank(keys: seq<int>, i: nat)
    requires i < |keys|
    ensures Rank(keys, i) < |keys| && Nth(keys, Rank(keys, i)) == i
  {
    CountBelow(keys, i, |keys|);
  }

  // ---- a list in order

  /** The items of a list in the order of their keys, ties as they stood. */
  function Sorted<T>(xs: seq<T>, keys: seq<int>): (r: seq<T>)
    requires |xs| == |keys|
    ensures |r| == |xs|
    ensures forall k | 0 <= k < |xs| :: r[k] == xs[Nth(keys, k)]
  {
    seq(|xs|, k requires 0 <= k < |xs| => xs[Nth(keys, k)])
  }

  lemma SortedHolds<T>(xs: seq<T>, keys: seq<int>)
    requires |xs| == |keys|
    ensures forall x :: x in Sorted(xs, keys) <==> x in xs
  {
    forall i | 0 <= i < |xs| ensures xs[i] in Sorted(xs, keys) {
      NthOfRank(keys, i);
      assert Sorted(xs, keys)[Rank(keys, i)] == xs[i];
    }
  }

  /** Places, each of the first |p| once. */
  predicate Permutes(p: seq<nat>) {
    && (forall i | 0 <= i < |p| :: p[i] < |p|)
    && (forall i, j | 0 <= i < j < |p| :: p[i] != p[j])
    && (forall k: nat | k < |p| :: k in p)
  }

  /** Picking every place of a list once keeps its items. */
  lemma {:induction false} Permuted<T>(xs: seq<T>, p: seq<nat>, r: seq<T>)
    requires |p| == |xs| == |r| && Permutes(p)
    requires forall i | 0 <= i < |p| :: p[i] < |xs| && r[i] == xs[p[i]]
    ensures multiset(r) == multiset(xs)
    decreases |xs|
  {
    hide Permutes;
    if xs == [] {
      assert r == [];
    } else {
      var n := |xs| - 1;
      var k := PlaceIn(p, n);
      var q := p[..k] + p[k + 1..];
      WithoutLast(p, k, q);
      TakenOut(r, k);
      TakenOut(xs, n);
      assert xs[..n] + xs[n + 1..] == xs[..n];
      Rest(xs, p, r, k, q);
      Permuted(xs[..n], q, r[..k] + r[k + 1..]);
    }
  }

  lemma PlaceIn(p: seq<nat>, n: nat) returns (k: nat)
    requires Permutes(p) && n < |p|
    ensures k < |p| && p[k] == n
  {
    assert n in p;
    k :| 0 <= k < |p| && p[k] == n;
  }

  lemma TakenOut<T>(r: seq<T>, k: nat)
    requires k < |r|
    ensures multiset(r) == multiset(r[..k] + r[k + 1..]) + multiset{r[k]}
  {
    assert r == r[..k] + [r[k]] + r[k + 1..];
  }

  lemma Rest<T>(xs: seq<T>, p: seq<nat>, r: seq<T>, k: nat, q: seq<nat>)
    requires |p| == |xs| == |r| && k < |p| && p[k] == |xs| - 1 && q == p[..k] + p[k + 1..]
    requires forall i | 0 <= i < |p| :: p[i] < |xs| && r[i] == xs[p[i]]
    requires forall i | 0 <= i < |q| :: q[i] < |q|
    ensures forall i | 0 <= i < |q| :: (r[..k] + r[k + 1..])[i] == xs[..|xs| - 1][q[i]]
  {
    forall i | 0 <= i < |q| ensures (r[..k] + r[k + 1..])[i] == xs[..|xs| - 1][q[i]] {
      var j := if i < k then i else i + 1;
      assert (r[..k] + r[k + 1..])[i] == r[j] && q[i] == p[j];
    }
  }

  lemma WithoutLast(p: seq<nat>, k: nat, q: seq<nat>)
    requires Permutes(p) && k < |p| && p[k] == |p| - 1 && q == p[..k] + p[k + 1..]
    ensures Permutes(q)
  {
    assert forall i | 0 <= i < |q| :: q[i] == if i < k then p[i] else p[i + 1];
    forall m: nat | m < |q| ensures m in q {
      assert m in p;
      var i :| 0 <= i < |p| && p[i] == m;
      assert q[if i < k then i else i - 1] == m;
    }
  }
}
