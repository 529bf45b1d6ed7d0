/**
 Allocations that may fail: which of them do is an input, so that what a call does without memory can be
 stated exactly.
 */
module Memory {

  /** The n-th allocation made succeeds exactly when mem(n). */
  type Outcomes = nat -> bool

  /** The allocations made from number `at` up to `next` have all succeeded. */
  ghost predicate AllMade(mem: Outcomes, at: nat, next: nat) {
    forall n :: at <= n < next ==> mem(n)
  }

  lemma MadeOn(mem: Outcomes, at: nat, mid: nat, next: nat)
    requires at <= mid <= next
    ensures AllMade(mem, at, next) <==> AllMade(mem, at, mid) && AllMade(mem, mid, next)
  {
  }
}
