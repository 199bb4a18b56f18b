/** Arithmetic of the cyclic key scans: an index advanced `d` times modulo `n`
    is back at its start exactly when `d` is a multiple of `n`. */
module Cyclic {

  /** The slot reached from `start < n` after `d <= n` steps round a ring of `n`. */
  function Slot(start: nat, d: nat, n: nat): (k: nat)
    requires start < n && d <= n
    ensures k < n
  {
    if start + d < n then start + d else start + d - n
  }

  /** Advancing the index of slot `d` by one, modulo `n`, reaches slot `d + 1`. */
  lemma SlotStep(start: nat, d: nat, n: nat)
    requires start < n && d < n
    ensures (Slot(start, d, n) + 1) % n == Slot(start, d + 1, n)
  {
  }

  /** Within one lap, the scan is back at its starting slot only after `n` steps. */
  lemma SlotReturns(start: nat, d: nat, n: nat)
    requires start < n && 0 < d <= n
    ensures Slot(start, d, n) == start <==> d == n
  {
  }

  /** Distinct step counts within one lap reach distinct slots. */
  lemma SlotInjective(start: nat, d: nat, e: nat, n: nat)
    requires start < n && d < n && e < n && d != e
    ensures Slot(start, d, n) != Slot(start, e, n)
  {
  }

  /** Every slot of the ring is reached within one lap. */
  lemma SlotSurjective(start: nat, k: nat, n: nat)
    requires start < n && k < n
    ensures exists d :: 0 <= d < n && Slot(start, d, n) == k
  {
    var d := if start <= k then k - start else k + n - start;
    assert Slot(start, d, n) == k;
  }
}
