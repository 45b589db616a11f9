/** Induction over the steps of a run, on conditions given as functions of the step. */
module Stepwise {
  lemma {:induction false} Preserved(inv: nat -> bool, n: nat)
    requires inv(0) && forall k: nat :: k < n && inv(k) ==> inv(k + 1)
    ensures inv(n)
  {
    if n > 0 { Preserved(inv, n - 1); }
  }

  /** Two conditions that hold alike while an invariant does, which they preserve. */
  lemma {:induction false} AlikeWhile(holds: nat -> bool, holds': nat -> bool, inv: nat -> bool, n: nat)
    requires inv(0) && forall k: nat :: k < n && inv(k) ==> (holds(k) <==> holds'(k)) && (holds'(k) ==> inv(k + 1))
    ensures (forall k: nat :: k < n ==> holds(k)) <==> (forall k: nat :: k < n ==> holds'(k))
    ensures (forall k: nat :: k < n ==> holds'(k)) ==> inv(n)
  {
    if n > 0 { AlikeWhile(holds, holds', inv, n - 1); }
  }

  /** A step that keeps `alike` if it is `faithful`, and otherwise does not end in `shown`. */
  lemma StaysAlike(alike: nat -> bool, shown: nat -> bool, faithful: nat -> bool, n: nat)
    requires alike(0) && shown(0)
    requires forall k: nat :: k < n && alike(k) ==> (shown(k + 1) <==> faithful(k)) && (faithful(k) ==> alike(k + 1))
    ensures (forall k: nat :: k <= n ==> shown(k)) <==> (forall k: nat :: k < n ==> faithful(k))
    ensures (forall k: nat :: k < n ==> faithful(k)) ==> alike(n)
  {
    var next := (k: nat) => shown(k + 1);
    AlikeWhile(next, faithful, alike, n);
    if forall k: nat :: k < n ==> next(k) {
      forall k: nat | k <= n ensures shown(k) {
        if k > 0 { assert next(k - 1); }
      }
    }
  }

  /** The event happens before step `n`. */
  ghost predicate Before(happens: nat -> bool, n: nat) {
    exists j: nat :: j < n && happens(j)
  }

  lemma BeforeNext(happens: nat -> bool, n: nat)
    ensures Before(happens, n + 1) <==> Before(happens, n) || happens(n)
  {
  }

  /** A condition that sets in with the first event. */
  lemma {:induction false} SetsIn(holds: nat -> bool, happens: nat -> bool, n: nat)
    requires !holds(0) && forall k: nat :: k < n ==> (holds(k + 1) <==> holds(k) || happens(k))
    ensures holds(n) <==> Before(happens, n)
  {
    if n > 0 {
      SetsIn(holds, happens, n - 1);
      BeforeNext(happens, n - 1);
    }
  }
}
