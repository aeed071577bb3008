/** Shared datatypes and the facts about finite collections the protocol proofs count with. */
module Prelude {
  datatype Option<+T> = None | Some(value: T)

  lemma SubsetCardinality<T>(small: set<T>, large: set<T>)
    requires small <= large
    ensures |small| <= |large|
  {
    assert large == small + (large - small);
  }

  lemma WithoutOne<T>(s: set<T>, x: T)
    ensures |s - {x}| == |s| - if x in s then 1 else 0
  {
  }

  lemma SameMember<T>(s: set<T>, x: T, y: T)
    requires |s| <= 1 && x in s && y in s
    ensures x == y
  {
    if x != y {
      SubsetCardinality({x, y}, s);
    }
  }

  /** Taking the elements of a sequence as a set never makes more of them. */
  lemma {:induction false} ElementsCardinality<T>(s: seq<T>)
    ensures |set x | x in s| <= |s|
  {
    if s == [] {
      assert (set x | x in s) == {};
    } else {
      var rest := s[1..];
      ElementsCardinality(rest);
      assert (set x | x in s) == {s[0]} + set x | x in rest;
    }
  }

  /** And exactly as many when no element repeats. */
  lemma {:induction false} DistinctCardinality<T>(s: seq<T>)
    requires forall i, j :: 0 <= i < j < |s| ==> s[i] != s[j]
    ensures |set x | x in s| == |s|
  {
    if s == [] {
      assert (set x | x in s) == {};
    } else {
      var rest := s[1..];
      DistinctCardinality(rest);
      assert (set x | x in s) == {s[0]} + set x | x in rest;
      assert s[0] !in rest;
    }
  }

  /** A set of indices inside [lo, hi) has at most hi - lo members. */
  lemma {:induction false} IndexSetBound(s: set<int>, lo: int, hi: int)
    requires lo <= hi
    requires forall i :: i in s ==> lo <= i < hi
    ensures |s| <= hi - lo
    decreases hi - lo
  {
    if lo == hi {
      assert s == {};
    } else {
      var below := s - {hi - 1};
      IndexSetBound(below, lo, hi - 1);
      assert s <= below + {hi - 1};
      SubsetCardinality(s, below + {hi - 1});
    }
  }

  /** An index set that holds the whole of [lo, hi) has at least hi - lo members. */
  lemma {:induction false} IndexSetHolds(s: set<int>, lo: int, hi: int)
    requires lo <= hi
    requires forall i :: lo <= i < hi ==> i in s
    ensures |s| >= hi - lo
    decreases hi - lo
  {
    if lo < hi {
      IndexSetHolds(s - {hi - 1}, lo, hi - 1);
    }
  }

  /** The elements of a sequence, each once, in the order of their first occurrence. */
  function Unique<T(==, !new)>(s: seq<T>): (u: seq<T>)
    ensures forall x :: x in u <==> x in s
    ensures forall i, j :: 0 <= i < j < |u| ==> u[i] != u[j]
  {
    if s == [] then []
    else
      var init, last := Unique(s[..|s| - 1]), s[|s| - 1];
      assert s == s[..|s| - 1] + [last];
      if last in init then init else init + [last]
  }

  predicate Nondecreasing(s: seq<int>) {
    forall i, j :: 0 <= i < j < |s| ==> s[i] <= s[j]
  }

  /** The indices of the entries of `s` that fall in the half-open interval [from, to). */
  function Within(s: seq<int>, from: int, to: int): set<int> {
    set i | 0 <= i < |s| && from <= s[i] < to
  }

  /** If entries `k` places apart are a span apart, no span holds more than `k` of them. */
  lemma SpacingBoundsWindow(a: seq<int>, k: nat, span: int, from: int)
    requires Nondecreasing(a) && k >= 1
    requires forall i, j :: 0 <= i < j < |a| && j == i + k ==> a[j] - a[i] >= span
    ensures |Within(a, from, from + span)| <= k
  {
    var lo := FirstAtLeast(a, from, 0);
    assert lo + k < |a| ==> a[lo + k] - a[lo] >= span;
    assert forall i :: lo + k <= i < |a| ==> a[i] >= a[lo + k];
    IndexSetBound(Within(a, from, from + span), lo, lo + k);
  }

  ghost function FirstAtLeast(a: seq<int>, from: int, i: nat): (lo: nat)
    requires i <= |a| && Nondecreasing(a)
    requires forall j :: 0 <= j < i ==> a[j] < from
    ensures lo <= |a|
    ensures forall j :: 0 <= j < lo ==> a[j] < from
    ensures lo < |a| ==> a[lo] >= from
    decreases |a| - i
  {
    if i == |a| || a[i] >= from then i else FirstAtLeast(a, from, i + 1)
  }

  /** The sum of the figures in a map. */
  ghost function Total<K>(f: map<K, int>): int {
    if f == map[] then 0 else var k :| k in f; f[k] + Total(f - {k})
  }

  function Fibre<X, K(==)>(g: map<X, K>, k: K): set<X> {
    set x | x in g && g[x] == k
  }

  /** Sorting things by a key and adding up the piles counts every one of them once. */
  lemma {:induction false} FibresAddUp<X, K>(g: map<X, K>, f: map<K, int>)
    requires forall x :: x in g ==> g[x] in f
    requires forall k :: k in f ==> f[k] == |Fibre(g, k)|
    ensures Total(f) == |g.Keys|
    decreases f.Keys
  {
    if f == map[] {
      assert g.Keys == {};
    } else {
      var k :| k in f && Total(f) == f[k] + Total(f - {k});
      var rest := g - Fibre(g, k);
      forall j | j in f - {k} ensures f[j] == |Fibre(rest, j)| { OtherPiles(g, k, j); }
      OtherPiles(g, k, k);
      hide Fibre, Total;
      FibresAddUp(rest, f - {k});
    }
  }

  lemma OtherPiles<X, K>(g: map<X, K>, k: K, j: K)
    ensures var rest := g - Fibre(g, k);
      && |rest.Keys| == |g.Keys| - |Fibre(g, k)|
      && (forall x :: x in rest ==> rest[x] == g[x] && g[x] != k)
      && (j != k ==> Fibre(rest, j) == Fibre(g, j))
  {
    var rest := g - Fibre(g, k);
    assert g.Keys == rest.Keys + Fibre(g, k);
    assert j != k ==> Fibre(rest, j) == Fibre(g, j);
  }
}
