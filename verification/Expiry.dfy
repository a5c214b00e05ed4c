/** Sweeps over pending payments: doing them often comes to the same as doing the last one. */
module Expiry {
  import opened Wrappers
  import opened Escrow
  import opened Lifecycle

  /** The same status, and the same transaction rows up to their stored payload. */
  ghost predicate SameOutcome(x: Book, y: Book) {
    && x.row.status == y.row.status
    && |x.txns| == |y.txns|
    && forall i :: 0 <= i < |x.txns| ==>
         x.txns[i].(payload := None) == y.txns[i].(payload := None)
         && IsPendingFunding(x.txns[i]) == IsPendingFunding(y.txns[i])
  }

  /** Once swept, nothing is left to sweep at the same time. */
  lemma SweepIsIdempotent(b: Book, now: int)
    ensures ExpirePendingPayment(ExpirePendingPayment(b, now), now) == ExpirePendingPayment(b, now)
  {
  }

  lemma EarlierSweepIsAbsorbed(b: Book, t1: int, t2: int)
    requires t1 <= t2
    ensures SameOutcome(ExpirePendingPayment(ExpirePendingPayment(b, t1), t2), ExpirePendingPayment(b, t2))
  {
  }

  function Sweeps(b: Book, times: seq<int>): Book
    decreases |times|
  {
    if times == [] then b else Sweeps(ExpirePendingPayment(b, times[0]), times[1..])
  }

  /** Any number of sweeps at times that never go back leaves the status and the rows
      that the last sweep alone would leave. */
  lemma {:induction false} SweepsCollapse(b: Book, times: seq<int>)
    requires times != [] && forall i, j :: 0 <= i < j < |times| ==> times[i] <= times[j]
    ensures SameOutcome(Sweeps(b, times), ExpirePendingPayment(b, times[|times| - 1]))
    decreases |times|
  {
    if |times| > 1 {
      var last := times[|times| - 1];
      var b1 := ExpirePendingPayment(b, times[0]);
      SweepsCollapse(b1, times[1..]);
      assert times[1..][|times[1..]| - 1] == last;
      EarlierSweepIsAbsorbed(b, times[0], last);
    } else {
      assert Sweeps(ExpirePendingPayment(b, times[0]), times[1..]) == ExpirePendingPayment(b, times[0]);
    }
  }
}
