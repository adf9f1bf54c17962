/** Sequences as ordered querysets. */
module Seqs {

  /** No element occurs twice (a `.distinct()` queryset). */
  predicate Distinct<T(==)>(xs: seq<T>) {
    forall i, j :: 0 <= i < j < |xs| ==> xs[i] != xs[j]
  }

  /** The elements of `xs`, in their order, whose membership in `s` equals `inside`:
      a queryset `.filter(...)` when `inside` holds and an `.exclude(...)` when it does not. */
  function Select<T(==,!new)>(xs: seq<T>, s: set<T>, inside: bool): (r: seq<T>)
    ensures forall x :: x in r <==> x in xs && (x in s) == inside
    ensures multiset(r) <= multiset(xs)
  {
    if xs == [] then []
    else
      var rest := Select(xs[1..], s, inside);
      assert xs == [xs[0]] + xs[1..];
      if (xs[0] in s) == inside then [xs[0]] + rest else rest
  }

  /** A filter and the matching exclude split the input between them. */
  lemma {:induction false} SelectPartition<T(!new)>(xs: seq<T>, s: set<T>)
    ensures multiset(Select(xs, s, true)) + multiset(Select(xs, s, false)) == multiset(xs)
  {
    if xs != [] {
      SelectPartition(xs[1..], s);
      assert xs == [xs[0]] + xs[1..];
    }
  }

  /** Filtering a duplicate-free queryset keeps it duplicate-free. */
  lemma {:induction false} SelectDistinct<T(!new)>(xs: seq<T>, s: set<T>, inside: bool)
    requires Distinct(xs)
    ensures Distinct(Select(xs, s, inside))
  {
    if xs != [] {
      SelectDistinct(xs[1..], s, inside);
      var rest := Select(xs[1..], s, inside);
      assert xs[0] !in xs[1..];
      assert xs[0] !in rest;
    }
  }

  /** Strictly decreasing: a queryset ordered newest first by id. */
  predicate Descending(xs: seq<int>) {
    forall k, l :: 0 <= k < l < |xs| ==> xs[k] > xs[l]
  }

  /** Filtering keeps the queryset's order. */
  lemma {:induction false} SelectDescending(xs: seq<int>, s: set<int>, inside: bool)
    requires Descending(xs)
    ensures Descending(Select(xs, s, inside))
  {
    if xs != [] {
      SelectDescending(xs[1..], s, inside);
      var rest := Select(xs[1..], s, inside);
      assert forall k :: 0 <= k < |rest| ==> rest[k] in xs[1..];
      assert forall y :: y in xs[1..] ==> y < xs[0];
    }
  }

  /** Excluding a set that holds all of the input leaves nothing. */
  lemma {:induction false} SelectAll<T(!new)>(xs: seq<T>, s: set<T>)
    requires forall x :: x in xs ==> x in s
    ensures Select(xs, s, false) == []
  {
    if xs != [] {
      SelectAll(xs[1..], s);
      assert xs[0] in xs;
    }
  }

  /** A duplicate-free sequence has as many elements as the set of its elements. */
  lemma {:induction false} DistinctCardinality<T>(xs: seq<T>)
    requires Distinct(xs)
    ensures |set x | x in xs| == |xs|
  {
    if xs != [] {
      var last := xs[|xs| - 1];
      var init := xs[..|xs| - 1];
      assert Distinct(init);
      DistinctCardinality(init);
      assert last !in init;
      assert (set x | x in xs) == (set x | x in init) + {last};
    }
  }
}
