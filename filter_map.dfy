/**
 * A loop that converts each item of a list, keeps the successes in order and
 * skips the items whose conversion fails (a `try` around the conversion,
 * `continue` on an exception).
 */
module FilterMaps {
  import opened Wrappers

  /** The successes among the first `n` items, in order. */
  function FilterMap<A, B>(xs: seq<A>, f: (A, nat) -> Option<B>, n: nat): seq<B>
    requires n <= |xs|
  {
    if n == 0 then []
    else FilterMap(xs, f, n - 1) + (match f(xs[n - 1], n - 1) case Some(b) => [b] case None => [])
  }

  /** The positions among the first `n` items whose conversion succeeds. */
  function Kept<A, B>(xs: seq<A>, f: (A, nat) -> Option<B>, n: nat): seq<nat>
    requires n <= |xs|
  {
    if n == 0 then []
    else Kept(xs, f, n - 1) + (if f(xs[n - 1], n - 1).Some? then [n - 1] else [])
  }

  /** One more item: its result `r`, when there is one, is appended to `out`. */
  lemma FilterMapStep<A, B>(prefix: seq<B>, xs: seq<A>, f: (A, nat) -> Option<B>, t: nat, out: seq<B>, r: Option<B>)
    requires t < |xs| && out == prefix + FilterMap(xs, f, t) && r == f(xs[t], t)
    ensures (if r.Some? then out + [r.value] else out) == prefix + FilterMap(xs, f, t + 1)
  {
  }

  /** The kept positions increase, lie below `n`, succeed, and include every success. */
  lemma {:induction false} KeptSpec<A, B>(xs: seq<A>, f: (A, nat) -> Option<B>, n: nat)
    requires n <= |xs|
    ensures var ix := Kept(xs, f, n);
      (forall k :: 0 <= k < |ix| ==> ix[k] < n && f(xs[ix[k]], ix[k]).Some?) &&
      (forall k, l :: 0 <= k < l < |ix| ==> ix[k] < ix[l]) &&
      (forall i :: 0 <= i < n && f(xs[i], i).Some? ==> i in ix)
    decreases n
  {
    if n > 0 {
      KeptSpec(xs, f, n - 1);
      var pix, ix := Kept(xs, f, n - 1), Kept(xs, f, n);
      if f(xs[n - 1], n - 1).Some? {
        assert ix == pix + [n - 1];
        forall i | 0 <= i < n && f(xs[i], i).Some? ensures i in ix {
          if i < n - 1 {
            var k :| 0 <= k < |pix| && pix[k] == i;
            assert ix[k] == i;
          } else {
            assert ix[|pix|] == i;
          }
        }
      } else {
        assert ix == pix;
      }
    }
  }

  /** The `k`-th success is the result of the `k`-th kept position. */
  lemma {:induction false} FilterMapShape<A, B>(xs: seq<A>, f: (A, nat) -> Option<B>, n: nat)
    requires n <= |xs|
    ensures var ys, ix := FilterMap(xs, f, n), Kept(xs, f, n);
      |ys| == |ix| &&
      forall k :: 0 <= k < |ix| ==> ix[k] < n && f(xs[ix[k]], ix[k]) == Some(ys[k])
    decreases n
  {
    if n > 0 {
      FilterMapShape(xs, f, n - 1);
      var prev, pix := FilterMap(xs, f, n - 1), Kept(xs, f, n - 1);
      var ys, ix := FilterMap(xs, f, n), Kept(xs, f, n);
      if f(xs[n - 1], n - 1).Some? {
        assert ys == prev + [f(xs[n - 1], n - 1).value];
        assert ix == pix + [n - 1];
      } else {
        assert ys == prev && ix == pix;
      }
    }
  }
}
