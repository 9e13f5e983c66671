/**
 * The bounded first-in-first-out history that backs an agent's trail: a
 * queue with a maximum length that drops its oldest entry when a new one
 * would overflow it.
 */
module TrailBuffer {

  /** Appends p to history h of capacity cap, evicting the oldest entry when h is full. */
  function Push<T>(h: seq<T>, p: T, cap: nat): (r: seq<T>)
    requires |h| <= cap
    ensures |r| <= cap
    ensures |h| < cap ==> r == h + [p]
    ensures 0 < |h| == cap ==> r == h[1..] + [p]
    ensures cap == 0 ==> r == []
  {
    var s := h + [p];
    if |s| <= cap then s else s[|s| - cap..]
  }

  /** The last min(|xs|, n) elements of xs, in order. */
  function LastN<T>(xs: seq<T>, n: nat): (r: seq<T>)
    ensures |r| == if |xs| < n then |xs| else n
    ensures forall k :: 0 <= k < |r| ==> r[k] == xs[|xs| - |r| + k]
  {
    if |xs| <= n then xs else xs[|xs| - n..]
  }

  /** Pushing onto the last cap elements of xs gives the last cap elements of xs + [p]. */
  lemma {:induction false} PushKeepsLastN<T>(xs: seq<T>, p: T, cap: nat)
    ensures Push(LastN(xs, cap), p, cap) == LastN(xs + [p], cap)
  {
    var ys := xs + [p];
    if cap == 0 {
    } else if |xs| < cap {
      assert LastN(xs, cap) == xs;
      assert LastN(ys, cap) == ys;
    } else {
      var h := xs[|xs| - cap..];
      assert LastN(xs, cap) == h;
      assert h[1..] == xs[|xs| - cap + 1..];
      assert ys[|ys| - cap..] == xs[|xs| - cap + 1..] + [p];
    }
  }

  /** A history that never overflowed is its own last cap elements. */
  lemma LastNWhole<T>(xs: seq<T>, cap: nat)
    requires |xs| <= cap
    ensures LastN(xs, cap) == xs
  {
  }
}
