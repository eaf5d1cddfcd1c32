/**
 * The loop shape the search scripts share: visit positions `0 .. n-1` in
 * order and push a value for each position that yields one (`if (!match)
 * continue; rows.push(...)`, `if (score <= 0) continue; hits.push(...)`).
 */
module Scan {
  import opened Wrappers

  /** The values `f` yields at positions `0 .. n-1`, in position order. */
  function Collect<B>(f: nat -> Option<B>, n: nat): seq<B> {
    if n == 0 then []
    else Collect(f, n - 1) + (if f(n - 1).Some? then [f(n - 1).value] else [])
  }

  /** One more position: its value, if any, goes at the end. */
  lemma CollectNext<B>(f: nat -> Option<B>, k: nat, v: Option<B>)
    requires f(k) == v
    ensures Collect(f, k + 1) == Collect(f, k) + (if v.Some? then [v.value] else [])
  {
  }

  /** The first position from `e` up to `n` at which `p` holds. */
  function FirstFrom(p: nat -> bool, e: nat, n: nat): (r: Option<nat>)
    decreases n - e

  {
    if e > n then None
    else if p(e) then Some(e)
    else FirstFrom(p, e + 1, n)
  }

  /** The search finds the least such position, and none when there is none. */
  lemma {:induction false} FirstFromIsLeast(p: nat -> bool, e: nat, n: nat)
    decreases n - e
    ensures FirstFrom(p, e, n).Some? ==>
      var r := FirstFrom(p, e, n).value;
      e <= r <= n && p(r) && forall k :: e <= k < r ==> !p(k)
    ensures FirstFrom(p, e, n).None? ==> forall k :: e <= k <= n ==> !p(k)
  {
    if e <= n && !p(e) {
      FirstFromIsLeast(p, e + 1, n);
    }
  }

  /** The positions below `n` at which `f` yields a value, in increasing order. */
  function Positions<B>(f: nat -> Option<B>, n: nat): seq<nat> {
    if n == 0 then []
    else Positions(f, n - 1) + (if f(n - 1).Some? then [n - 1] else [])
  }

  /**
   * One value per yielding position, in order: the `k`-th value is what the
   * `k`-th yielding position gave, the positions strictly increase, and every
   * position that yields a value is among them.
   */
  lemma {:induction false} CollectAtPositions<B>(f: nat -> Option<B>, n: nat)
    ensures |Collect(f, n)| == |Positions(f, n)|
    ensures forall k :: 0 <= k < |Positions(f, n)| ==>
      Positions(f, n)[k] < n && f(Positions(f, n)[k]) == Some(Collect(f, n)[k])
    ensures forall k, l :: 0 <= k < l < |Positions(f, n)| ==> Positions(f, n)[k] < Positions(f, n)[l]
    ensures forall i :: 0 <= i < n && f(i).Some? ==> i in Positions(f, n)
  {
    if n > 0 {
      CollectAtPositions(f, n - 1);
      var ps := Positions(f, n);
      var prev := Positions(f, n - 1);
      var cs := Collect(f, n);
      assert forall k :: 0 <= k < |prev| ==> ps[k] == prev[k] && cs[k] == Collect(f, n - 1)[k];
      if f(n - 1).Some? {
        assert ps[|prev|] == n - 1 && cs[|prev|] == f(n - 1).value;
      }
    }
  }

  /** Every value collected is one that `f` yields at some position `i` below `n`. */
  lemma CollectedValue<B>(f: nat -> Option<B>, n: nat, x: B) returns (i: nat)
    requires x in Collect(f, n)
    ensures i < n && f(i) == Some(x)
  {
    CollectAtPositions(f, n);
    var k :| 0 <= k < |Collect(f, n)| && Collect(f, n)[k] == x;
    i := Positions(f, n)[k];
  }

  /** Every value `f` yields below `n` is collected. */
  lemma CollectsValue<B>(f: nat -> Option<B>, n: nat, i: nat)
    requires i < n && f(i).Some?
    ensures f(i).value in Collect(f, n)
  {
    CollectAtPositions(f, n);
    var k :| 0 <= k < |Positions(f, n)| && Positions(f, n)[k] == i;
    assert Collect(f, n)[k] == f(i).value;
  }
}
