/** What an escrow's event log says on its own: the status, the amount received and the
    ledger postings it replays to, and how far the escrow has travelled towards release. */
module EventLog {
  import opened Wrappers
  import opened Escrow

  /** The terms of an escrow that no operation changes. */
  datatype Terms = Terms(id: string, amount: real, currency: Currency)

  /** A ledger entry seen from the liability account: `effect` is what it adds to the balance. */
  datatype Posting = Posting(entryType: EntryType, amount: real, effect: real, currency: Currency,
                             reference: Option<Text>)

  function TermsOf(b: Book): Terms {
    Terms(b.id, b.row.amount, b.row.currency)
  }

  function PostingOf(e: LedgerEntry): Posting {
    Posting(e.entryType, e.amount, Effect(e), e.currency, e.reference)
  }

  /** What an entry adds to the balance of the liability account. */
  function Effect(e: LedgerEntry): real {
    (if e.credit == EscrowLiability then e.amount else 0.0) - (if e.debit == EscrowLiability then e.amount else 0.0)
  }

  function Credit(t: EntryType, amount: real, currency: Currency, reference: Option<Text>): Posting {
    Posting(t, amount, amount, currency, reference)
  }

  function Debit(t: EntryType, amount: real, currency: Currency, reference: Option<Text>): Posting {
    Posting(t, amount, -amount, currency, reference)
  }

  function Postings(ledger: seq<LedgerEntry>): seq<Posting> {
    if ledger == [] then [] else Postings(ledger[..|ledger| - 1]) + [PostingOf(ledger[|ledger| - 1])]
  }

  /** The status after a log: the last `nextStatus` it records. */
  function ReplayStatus(log: seq<Event>): Option<Status> {
    if log == [] then None
    else
      var last := log[|log| - 1];
      if last.nextStatus.Some? then last.nextStatus else ReplayStatus(log[..|log| - 1])
  }

  function ReceivedAfter(received: Option<real>, e: Event): Option<real> {
    match e.eventType
    case PaymentVerified(amount) => Either(amount, received)
    case PaymentReviewRequired(amount) => Either(amount, received)
    case _ => received
  }

  /** The amount last reported as received. */
  function ReplayReceived(log: seq<Event>): Option<real> {
    if log == [] then None else ReceivedAfter(ReplayReceived(log[..|log| - 1]), log[|log| - 1])
  }

  /** The money an event moves, given the amount received before it. */
  function PostingsOf(t: Terms, received: Option<real>, e: Event): seq<Posting> {
    match e.eventType
    case PaymentVerified(amount) => [Credit(FundingEntry, AmountOr(amount, t.amount), t.currency, e.reason)]
    case ManualReleaseApproved(reference, fee, net) =>
      var release := Debit(ReleaseEntry, net, t.currency, Some(reference));
      if fee > 0.0 then [release, Debit(FeeEntry, fee, t.currency, Some(reference))] else [release]
    case DisputeResolved(ReleaseToSeller, reference) =>
      [Debit(ReleaseEntry, t.amount, t.currency, Either(reference, Some("dispute-release-" + t.id)))]
    case DisputeResolved(RefundBuyer, reference) => [Debit(RefundEntry, AmountOr(received, t.amount), t.currency,
                                                           reference)]
    case _ => []
  }

  function ReplayLedger(t: Terms, log: seq<Event>): seq<Posting> {
    if log == [] then []
    else
      var before := log[..|log| - 1];
      ReplayLedger(t, before) + PostingsOf(t, ReplayReceived(before), log[|log| - 1])
  }

  /** Every event that bears a status starts from the status the log has reached before it. */
  ghost predicate Chained(log: seq<Event>) {
    forall i :: 0 <= i < |log| ==> Continues(log, i)
  }

  predicate Continues(log: seq<Event>, i: nat)
    requires i < |log|
  {
    if log[i].nextStatus.Some? then log[i].previousStatus == ReplayStatus(log[..i]) else log[i].previousStatus.None?
  }

  // ----- the road to release -----

  predicate IsWorkDone(t: EventType) {
    t.BuyerCompleted? || t.SellerDeliveryProofRecorded?
  }

  /** A release by an admin, or the end of a dispute. */
  predicate IsSettlement(t: EventType) {
    t.ManualReleaseApproved? || t.DisputeResolved?
  }

  /** How far a log has come since the last settlement: 1 paid, 2 then delivered or completed, 3 then release
      requested. */
  function Stage(log: seq<Event>): nat {
    if log == [] then 0
    else
      var s := Stage(log[..|log| - 1]);
      var t := log[|log| - 1].eventType;
      if IsSettlement(t) then 0
      else if s == 0 && t.PaymentVerified? then 1
      else if s == 1 && IsWorkDone(t) then 2
      else if s == 2 && t.ReleaseRequested? then 3
      else s
  }

  /** The event at `i` is a payment, and nothing has been settled between it and `n`. */
  ghost predicate PaidBefore(log: seq<Event>, i: nat, n: nat) {
    i < n <= |log| && log[i].eventType.PaymentVerified? && forall m :: i < m < n ==> !IsSettlement(log[m].eventType)
  }

  ghost predicate DoneBefore(log: seq<Event>, i: nat, j: nat, n: nat) {
    i < j < n <= |log| && IsWorkDone(log[j].eventType) && PaidBefore(log, i, n)
  }

  ghost predicate RequestedBefore(log: seq<Event>, i: nat, j: nat, k: nat, n: nat) {
    i < j < k < n <= |log| && log[k].eventType.ReleaseRequested? && DoneBefore(log, i, j, n)
  }

  /** A stage is witnessed by events in that order. */
  lemma {:induction false} StageWitnesses(log: seq<Event>, n: nat)
    requires n <= |log|
    ensures Stage(log[..n]) >= 1 ==> exists i :: PaidBefore(log, i, n)
    ensures Stage(log[..n]) >= 2 ==> exists i, j :: DoneBefore(log, i, j, n)
    ensures Stage(log[..n]) >= 3 ==> exists i, j, k :: RequestedBefore(log, i, j, k, n)
  {
    if n > 0 {
      assert log[..n][..n - 1] == log[..n - 1];
      StageWitnesses(log, n - 1);
      if Stage(log[..n]) >= 1 {
        if Stage(log[..n - 1]) >= 1 {
          var i :| PaidBefore(log, i, n - 1);
          assert PaidBefore(log, i, n);
        } else {
          assert PaidBefore(log, n - 1, n);
        }
      }
      if Stage(log[..n]) >= 2 {
        if Stage(log[..n - 1]) >= 2 {
          var i, j :| DoneBefore(log, i, j, n - 1);
          assert DoneBefore(log, i, j, n);
        } else {
          var i :| PaidBefore(log, i, n - 1);
          assert DoneBefore(log, i, n - 1, n);
        }
      }
      if Stage(log[..n]) >= 3 {
        if Stage(log[..n - 1]) >= 3 {
          var i, j, k :| RequestedBefore(log, i, j, k, n - 1);
          assert RequestedBefore(log, i, j, k, n);
        } else {
          var i, j :| DoneBefore(log, i, j, n - 1);
          assert RequestedBefore(log, i, j, n - 1, n);
        }
      }
    }
  }

  /** The events that bear a status, two in a row, meet at a status. */
  lemma {:induction false} ReplaySkipsAnnotations(log: seq<Event>, i: nat, j: nat)
    requires i < j <= |log|
    requires log[i].nextStatus.Some?
    requires forall k :: i < k < j ==> log[k].nextStatus.None?
    ensures ReplayStatus(log[..j]) == log[i].nextStatus
    decreases j
  {
    assert log[..j][..j - 1] == log[..j - 1];
    if i < j - 1 {
      ReplaySkipsAnnotations(log, i, j - 1);
    }
  }

  /** A payment in the log is a funding posting in the ledger it replays to. */
  lemma {:induction false} PaymentIsPosted(t: Terms, log: seq<Event>, i: nat)
    requires i < |log| && log[i].eventType.PaymentVerified?
    ensures Credit(FundingEntry, AmountOr(log[i].eventType.amount, t.amount), t.currency,
                   log[i].reason) in ReplayLedger(t, log)
    decreases |log|
  {
    if i < |log| - 1 {
      PaymentIsPosted(t, log[..|log| - 1], i);
    }
  }
}
