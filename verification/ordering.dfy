/** Descending orderings of table keys by an integer column, as
    `order_by("-column")` produces them, and the first `n` rows of such an
    ordering. The database leaves the order of equal keys open; the model
    fixes one admissible order. */
module Ordering {

  /** Every element of `xs` has a key. */
  predicate Keyed(key: map<nat, int>, xs: seq<nat>) {
    forall i :: 0 <= i < |xs| ==> xs[i] in key
  }

  /** `xs` runs from the largest key to the smallest. */
  predicate SortedDesc(key: map<nat, int>, xs: seq<nat>) {
    Keyed(key, xs) && forall i, j :: 0 <= i < j < |xs| ==> key[xs[i]] >= key[xs[j]]
  }

  /** `xs` lists every key of the table exactly once and nothing else. */
  ghost predicate ListsEachOnce(key: map<nat, int>, xs: seq<nat>) {
    forall x :: multiset(xs)[x] == (if x in key then 1 else 0)
  }

  /** A sorted listing stays sorted behind a head no smaller than any of it. */
  lemma ConsSorted(key: map<nat, int>, h: nat, rest: seq<nat>)
    requires h in key && SortedDesc(key, rest)
    requires forall j :: 0 <= j < |rest| ==> key[h] >= key[rest[j]]
    ensures SortedDesc(key, [h] + rest)
  {
  }

  /** Everything in the tail of a sorted listing, and any smaller `x`, sits
      below its head. */
  lemma BoundedByHead(key: map<nat, int>, xs: seq<nat>, x: nat, rest: seq<nat>)
    requires SortedDesc(key, xs) && xs != [] && x in key && key[x] < key[xs[0]]
    requires Keyed(key, rest) && multiset(rest) == multiset(xs[1..]) + multiset{x}
    ensures forall j :: 0 <= j < |rest| ==> key[xs[0]] >= key[rest[j]]
  {
    forall j | 0 <= j < |rest|
      ensures key[xs[0]] >= key[rest[j]]
    {
      assert rest[j] in multiset(rest);
      if rest[j] != x {
        assert rest[j] in multiset(xs[1..]);
        var k :| 0 <= k < |xs[1..]| && xs[1..][k] == rest[j];
        assert xs[k + 1] == rest[j];
      }
    }
  }

  /** Places `x` in front of the first element whose key does not exceed its own. */
  function InsertDesc(key: map<nat, int>, xs: seq<nat>, x: nat): (r: seq<nat>)
    requires x in key && SortedDesc(key, xs)
    ensures SortedDesc(key, r)
    ensures multiset(r) == multiset(xs) + multiset{x}
    ensures |r| == |xs| + 1
    decreases |xs|
  {
    if xs == [] || key[x] >= key[xs[0]] then
      ConsSorted(key, x, xs);
      [x] + xs
    else
      var rest := InsertDesc(key, xs[1..], x);
      BoundedByHead(key, xs, x, rest);
      ConsSorted(key, xs[0], rest);
      assert xs == [xs[0]] + xs[1..];
      [xs[0]] + rest
  }

  /** Orders all keys of the table from the largest value to the smallest. */
  method SortDesc(key: map<nat, int>) returns (order: seq<nat>)
    ensures SortedDesc(key, order)
    ensures ListsEachOnce(key, order)
    ensures |order| == |key|
  {
    order := [];
    var rest := key.Keys;
    while rest != {}
      invariant rest <= key.Keys
      invariant |order| + |rest| == |key|
      invariant SortedDesc(key, order)
      invariant forall x :: multiset(order)[x] == (if x in key && x !in rest then 1 else 0)
      decreases rest
    {
      var x :| x in rest;
      order := InsertDesc(key, order, x);
      rest := rest - {x};
    }
  }

  /** Whatever a sorted listing leaves out of its first `n` elements has a
      key no larger than any it keeps. */
  lemma {:induction false} PrefixHoldsLargest(key: map<nat, int>, order: seq<nat>, n: nat, x: nat)
    requires SortedDesc(key, order) && ListsEachOnce(key, order)
    requires n <= |order| && x in key && x !in order[..n]
    ensures forall i :: 0 <= i < n ==> key[order[i]] >= key[x]
  {
    assert x in multiset(order);
    var j :| 0 <= j < |order| && order[j] == x;
    forall k | 0 <= k < n
      ensures order[k] != x
    {
      assert order[..n][k] == order[k];
    }
  }

  /** The first `n` elements of a sorted listing of each key once: still
      sorted, without repeats, and holding the `n` largest keys. */
  lemma PrefixOfSorted(key: map<nat, int>, order: seq<nat>, n: nat)
    requires SortedDesc(key, order) && ListsEachOnce(key, order) && n <= |order|
    ensures SortedDesc(key, order[..n])
    ensures forall i, j :: 0 <= i < j < n ==> order[..n][i] != order[..n][j]
    ensures forall k, i :: k in key && k !in order[..n] && 0 <= i < n ==> key[order[..n][i]] >= key[k]
  {
    EachOnceDistinct(key, order);
    forall k | k in key && k !in order[..n]
      ensures forall i :: 0 <= i < n ==> key[order[i]] >= key[k]
    {
      PrefixHoldsLargest(key, order, n, k);
    }
  }

  /** A listing that holds each key once repeats no element. */
  lemma EachOnceDistinct(key: map<nat, int>, order: seq<nat>)
    requires ListsEachOnce(key, order)
    ensures forall i, j :: 0 <= i < j < |order| ==> order[i] != order[j]
  {
    forall i, j | 0 <= i < j < |order|
      ensures order[i] != order[j]
    {
      assert order == order[..j] + order[j..];
      assert order[..j][i] == order[i];
      assert order[j..][0] == order[j];
      assert multiset(order) == multiset(order[..j]) + multiset(order[j..]);
      assert multiset(order[..j])[order[i]] >= 1;
      assert multiset(order[j..])[order[j]] >= 1;
      assert order[j] in multiset(order);
      assert multiset(order)[order[j]] == 1;
      assert multiset(order[..j])[order[j]] == 0;
    }
  }
}
