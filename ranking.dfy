/**
 * `sorted(hits, key=lambda x: x.get("rerank_score", 0), reverse=True)`:
 * Python's sort is stable, and with `reverse=True` elements with equal keys
 * still keep their original order. The sort is modelled on positions: it
 * yields the order in which the positions `0 .. |keys| - 1` are listed.
 */
module Ranking {

  /** Position `a` comes before position `b`: a larger key, or an equal key and an earlier position. */
  predicate Before(keys: seq<real>, a: nat, b: nat)
    requires a < |keys| && b < |keys|
  {
    keys[a] > keys[b] || (keys[a] == keys[b] && a < b)
  }

  /** Every entry of `order` is a position of `keys`. */
  predicate InRange(keys: seq<real>, order: seq<nat>) {
    forall i :: 0 <= i < |order| ==> order[i] < |keys|
  }

  /** `order` lists positions of `keys` strictly by `Before`. */
  predicate SortedBy(keys: seq<real>, order: seq<nat>)
    requires InRange(keys, order)
  {
    forall i, j :: 0 <= i < j < |order| ==> Before(keys, order[i], order[j])
  }

  /** Insertion of position `x` into an `order` sorted by `Before`. */
  function Insert(keys: seq<real>, order: seq<nat>, x: nat): (r: seq<nat>)
    requires x < |keys| && InRange(keys, order)
    ensures InRange(keys, r) && |r| == |order| + 1
    ensures x in r && forall y :: y in order ==> y in r
    ensures forall i :: 0 <= i < |r| ==> r[i] == x || r[i] in order
  {
    if order == [] then [x]
    else if Before(keys, x, order[0]) then [x] + order
    else
      assert order == [order[0]] + order[1..];
      [order[0]] + Insert(keys, order[1..], x)
  }

  /** The order in which the stable descending sort lists the first `n` positions. */
  function SortOrder(keys: seq<real>, n: nat): (order: seq<nat>)
    requires n <= |keys|
    ensures InRange(keys, order) && |order| == n && forall i :: 0 <= i < n ==> order[i] < n
  {
    if n == 0 then [] else Insert(keys, SortOrder(keys, n - 1), n - 1)
  }

  /** A position that comes before the head of a sorted order can be put in front of it. */
  lemma PrependSorted(keys: seq<real>, x: nat, order: seq<nat>)
    requires x < |keys| && InRange(keys, order) && SortedBy(keys, order)
    requires order != [] && Before(keys, x, order[0])
    ensures InRange(keys, [x] + order) && SortedBy(keys, [x] + order)
  {
    var r := [x] + order;
    forall i, j | 0 <= i < j < |r|
      ensures Before(keys, r[i], r[j])
    {
      if i == 0 && j > 1 {
        assert Before(keys, order[0], order[j - 1]);
      } else if i > 0 {
        assert r[i] == order[i - 1] && r[j] == order[j - 1];
      }
    }
  }

  /** Inserting a new position keeps the order sorted. */
  lemma {:induction false} InsertSorted(keys: seq<real>, order: seq<nat>, x: nat)
    requires x < |keys| && InRange(keys, order) && SortedBy(keys, order) && x !in order
    ensures SortedBy(keys, Insert(keys, order, x))
    decreases |order|
  {
    if order == [] {
    } else if Before(keys, x, order[0]) {
      PrependSorted(keys, x, order);
    } else {
      var tail := order[1..];
      assert forall i :: 0 <= i < |tail| ==> tail[i] == order[i + 1];
      InsertSorted(keys, tail, x);
      var rt := Insert(keys, tail, x);
      assert x != order[0];
      forall j | 0 <= j < |rt|
        ensures Before(keys, order[0], rt[j])
      {
        if rt[j] != x {
          var k :| 0 <= k < |tail| && tail[k] == rt[j];
          assert Before(keys, order[0], order[k + 1]);
        }
      }
      PrependSorted(keys, order[0], rt);
    }
  }

  /**
   * The sort lists every position below `n`, ordered by `Before`. As the
   * order has length `n` and `Before` is strict, each position appears
   * exactly once: the result is a permutation of `range(n)`.
   */
  lemma {:induction false} SortOrderCorrect(keys: seq<real>, n: nat)
    requires n <= |keys|
    ensures SortedBy(keys, SortOrder(keys, n))
    ensures forall p :: 0 <= p < n ==> p in SortOrder(keys, n)
  {
    if n > 0 {
      SortOrderCorrect(keys, n - 1);
      var prev := SortOrder(keys, n - 1);
      assert n - 1 !in prev;
      InsertSorted(keys, prev, n - 1);
    }
  }

  /** Stability: positions with equal keys keep their relative order; larger keys come first. */
  lemma SortOrderStable(keys: seq<real>, i: nat, j: nat)
    requires i < j < |keys|
    ensures var order := SortOrder(keys, |keys|);
      order[i] < |keys| && order[j] < |keys| &&
      keys[order[i]] >= keys[order[j]] &&
      (keys[order[i]] == keys[order[j]] ==> order[i] < order[j])
  {
    SortOrderCorrect(keys, |keys|);
  }
}
