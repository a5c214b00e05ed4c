/** The claims about whole runs: any sequence of store operations on one escrow, from its creation. */
module Runs {
  import opened Wrappers
  import opened Escrow
  import opened Lifecycle
  import opened EventLog
  import opened Invariants

  // ----- event sourcing -----

  /** Replaying the log of any run gives the escrow's status, its received amount and its ledger,
      and each event that bears a status starts where the previous such event ended. */
  lemma {:induction false} EventSourcing(id: string, input: NewEscrow, t0: int, cs: seq<Command>)
    requires DisciplinedRun(Create(id, input, t0), cs)
    ensures var b := Run(Create(id, input, t0), cs);
            && ReplayStatus(b.log) == Some(b.row.status)
            && ReplayReceived(b.log) == b.row.receivedAmount
            && ReplayLedger(TermsOf(b), b.log) == Postings(b.ledger)
    ensures var log := Run(Create(id, input, t0), cs).log;
            forall i, j | 0 <= i < j < |log| && log[i].nextStatus.Some? && log[j].nextStatus.Some? ::
              (forall k :: i < k < j ==> log[k].nextStatus.None?) ==> log[j].previousStatus == log[i].nextStatus
  {
    InvAlways(id, input, t0, cs);
    var log := Run(Create(id, input, t0), cs).log;
    forall i, j | 0 <= i < j < |log| && log[i].nextStatus.Some? && log[j].nextStatus.Some?
                  && (forall k :: i < k < j ==> log[k].nextStatus.None?)
      ensures log[j].previousStatus == log[i].nextStatus
    {
      ReplaySkipsAnnotations(log, i, j);
      assert Continues(log, j);
    }
  }

  // ----- what a Naira release rests on -----

  /** The posting of a verified payment: the amount reported, or else the escrow's amount, credited to the liability
      account. */
  function FundingPosting(row: EscrowRow, e: Event): Posting
    requires e.eventType.PaymentVerified?
  {
    Credit(FundingEntry, AmountOr(e.eventType.amount, row.amount), row.currency, e.reason)
  }

  /** The ledger holds the entry of the payment at `i`, with its amount and its reference. */
  ghost predicate FundingIsBooked(b: Book, i: nat)
    requires i < |b.log|
  {
    && b.log[i].eventType.PaymentVerified?
    && exists m :: 0 <= m < |b.ledger| && PostingOf(b.ledger[m]) == FundingPosting(b.row, b.log[i])
  }

  lemma {:induction false} PostingIsBooked(ledger: seq<LedgerEntry>, p: Posting)
    requires p in Postings(ledger)
    ensures exists m :: 0 <= m < |ledger| && PostingOf(ledger[m]) == p
  {
    if PostingOf(ledger[|ledger| - 1]) != p {
      PostingIsBooked(ledger[..|ledger| - 1], p);
    }
  }

  lemma PaymentIsBooked(b: Book, i: nat)
    requires Sourced(b) && i < |b.log| && b.log[i].eventType.PaymentVerified?
    ensures FundingIsBooked(b, i)
  {
    PaymentIsPosted(TermsOf(b), b.log, i);
    PostingIsBooked(b.ledger, FundingPosting(b.row, b.log[i]));
  }

  lemma ReleaseRestsOn(b: Book, n: nat)
    requires Inv(b) && b.row.currency == NAIRA && n < |b.log| && b.log[n].eventType.ManualReleaseApproved?
    ensures exists i, j, k :: RequestedBefore(b.log, i, j, k, n) && FundingIsBooked(b, i)
  {
    StageWitnesses(b.log, n);
    var i, j, k :| RequestedBefore(b.log, i, j, k, n);
    PaymentIsBooked(b, i);
  }

  /** In every run a Naira manual release comes after a release request, after completion or
      delivery, after a verified payment whose funding entry is in the ledger. */
  lemma {:induction false} NairaReleaseHistory(id: string, input: NewEscrow, t0: int, cs: seq<Command>, n: nat)
    requires DisciplinedRun(Create(id, input, t0), cs)
    requires var b := Run(Create(id, input, t0), cs);
             b.row.currency == NAIRA && n < |b.log| && b.log[n].eventType.ManualReleaseApproved?
    ensures var b := Run(Create(id, input, t0), cs);
            exists i, j, k :: RequestedBefore(b.log, i, j, k, n) && FundingIsBooked(b, i)
  {
    InvAlways(id, input, t0, cs);
    ReleaseRestsOn(Run(Create(id, input, t0), cs), n);
  }

  /** The statuses that are declared but never entered. */
  lemma {:induction false} UnreachableStatuses(id: string, input: NewEscrow, t0: int, cs: seq<Command>)
    requires DisciplinedRun(Create(id, input, t0), cs)
    ensures Run(Create(id, input, t0), cs).row.status !in {CREATED, FUNDED, FAILED}
  {
    InvAlways(id, input, t0, cs);
  }

  // ----- ledger and log, counted -----

  function Mark(p: Event -> bool, e: Event): nat {
    if p(e) then 1 else 0
  }

  function CountEvents(p: Event -> bool, log: seq<Event>): nat {
    if log == [] then 0 else CountEvents(p, log[..|log| - 1]) + Mark(p, log[|log| - 1])
  }

  function CountPostings(t: EntryType, postings: seq<Posting>): nat {
    if postings == [] then 0
    else CountPostings(t, postings[..|postings| - 1]) + (if postings[|postings| - 1].entryType == t then 1 else 0)
  }

  predicate IsPayment(e: Event) { e.eventType.PaymentVerified? }

  predicate EntersProgress(e: Event) { e.nextStatus == Some(IN_PROGRESS) && e.previousStatus != Some(IN_PROGRESS) }

  predicate IsRelease(e: Event) {
    e.eventType.ManualReleaseApproved? || (e.eventType.DisputeResolved? && e.eventType.outcome == ReleaseToSeller)
  }

  predicate IsRefund(e: Event) { e.eventType.DisputeResolved? && e.eventType.outcome == RefundBuyer }

  predicate IsFeeRelease(e: Event) { e.eventType.ManualReleaseApproved? && e.eventType.platformFeeAmount > 0.0 }

  lemma {:induction false} CountPostingsConcat(t: EntryType, p: seq<Posting>, q: seq<Posting>)
    ensures CountPostings(t, p + q) == CountPostings(t, p) + CountPostings(t, q)
  {
    if q == [] {
      assert p + q == p;
    } else {
      CountPostingsConcat(t, p, q[..|q| - 1]);
      assert (p + q)[..|p + q| - 1] == p + q[..|q| - 1];
    }
  }

  function Matching(t: EntryType): Event -> bool {
    match t
    case FundingEntry => IsPayment
    case ReleaseEntry => IsRelease
    case RefundEntry => IsRefund
    case FeeEntry => IsFeeRelease
  }

  lemma EventTallies(terms: Terms, received: Option<real>, e: Event, t: EntryType)
    ensures CountPostings(t, PostingsOf(terms, received, e)) == Mark(Matching(t), e)
  {
    var ps := PostingsOf(terms, received, e);
    if |ps| == 2 {
      assert CountPostings(t, ps[..1]) == if ps[0].entryType == t then 1 else 0;
    }
    assert Matching(FundingEntry)(e) == IsPayment(e);
  }

  /** The ledger that a log replays to has one entry per event of the matching kind. */
  lemma {:induction false} ReplayTallies(terms: Terms, log: seq<Event>, t: EntryType)
    ensures CountPostings(t, ReplayLedger(terms, log)) == CountEvents(Matching(t), log)
  {
    if log != [] {
      var before, last := log[..|log| - 1], log[|log| - 1];
      ReplayTallies(terms, before, t);
      EventTallies(terms, ReplayReceived(before), last, t);
      CountPostingsConcat(t, ReplayLedger(terms, before), PostingsOf(terms, ReplayReceived(before), last));
    }
  }

  lemma {:induction false} SameEvents(currency: Currency, log: seq<Event>)
    requires forall i :: 0 <= i < |log| ==> FollowsTable(currency, log[i])
    ensures CountEvents(EntersProgress, log) == CountEvents(IsPayment, log)
    ensures CountEvents(IsFeeRelease, log) <= CountEvents(IsRelease, log)
  {
    if log != [] {
      SameEvents(currency, log[..|log| - 1]);
      assert FollowsTable(currency, log[|log| - 1]);
    }
  }

  /** In every run the ledger and the log count the same payments, releases, refunds and fees,
      and an escrow enters IN_PROGRESS once per payment. */
  lemma {:induction false} LedgerTalliesWithLog(id: string, input: NewEscrow, t0: int, cs: seq<Command>)
    requires DisciplinedRun(Create(id, input, t0), cs)
    ensures var b := Run(Create(id, input, t0), cs);
            && CountPostings(FundingEntry, Postings(b.ledger)) == CountEvents(IsPayment, b.log) ==
                 CountEvents(EntersProgress, b.log)
            && CountPostings(ReleaseEntry, Postings(b.ledger)) == CountEvents(IsRelease, b.log)
            && CountPostings(RefundEntry, Postings(b.ledger)) == CountEvents(IsRefund, b.log)
            && CountPostings(FeeEntry, Postings(b.ledger)) == CountEvents(IsFeeRelease, b.log) <= CountEvents(IsRelease,
                b.log)
  {
    InvAlways(id, input, t0, cs);
    var b := Run(Create(id, input, t0), cs);
    ReplayTallies(TermsOf(b), b.log, FundingEntry);
    ReplayTallies(TermsOf(b), b.log, ReleaseEntry);
    ReplayTallies(TermsOf(b), b.log, RefundEntry);
    ReplayTallies(TermsOf(b), b.log, FeeEntry);
    SameEvents(b.row.currency, b.log);
  }

  // ----- a payment for every approval -----

  predicate IsApproval(e: Event) { e.eventType.ManualReleaseApproved? }

  /** One, while the escrow holds a payment it has not yet released. */
  function InCustody(s: Option<Status>): nat {
    if s in {Some(IN_PROGRESS), Some(DELIVERED), Some(COMPLETED), Some(PENDING_RELEASE)} then 1 else 0
  }

  ghost predicate PaidFor(log: seq<Event>) {
    CountEvents(IsApproval, log) + InCustody(ReplayStatus(log)) <= CountEvents(IsPayment, log)
  }

  lemma {:induction false} ApprovalsArePaidFor(log: seq<Event>, n: nat)
    requires Chained(log) && n <= |log|
    requires forall i :: 0 <= i < |log| ==> FollowsTable(NAIRA, log[i])
    ensures PaidFor(log[..n]) && ReplayStatus(log[..n]) != Some(FUNDED)
  {
    if n > 0 {
      ApprovalsArePaidFor(log, n - 1);
      assert log[..n][..n - 1] == log[..n - 1];
      assert Continues(log, n - 1) && FollowsTable(NAIRA, log[n - 1]);
    }
  }

  /** In every run of a Naira escrow, at every point of its log, there have been at least as many verified payments as
      manual approvals, and one more while the escrow is on its way to an approval: no payment serves two approvals. */
  lemma {:induction false} EveryApprovalHasItsPayment(id: string, input: NewEscrow, t0: int, cs: seq<Command>, n: nat)
    requires DisciplinedRun(Create(id, input, t0), cs)
    requires var b := Run(Create(id, input, t0), cs); b.row.currency == NAIRA && n <= |b.log|
    ensures PaidFor(Run(Create(id, input, t0), cs).log[..n])
  {
    InvAlways(id, input, t0, cs);
    ApprovalsArePaidFor(Run(Create(id, input, t0), cs).log, n);
  }

  // ----- payouts and pending rows -----

  /** A released escrow has a payout reference, a release time and a releaser, whichever way it
      was released, and whatever has been recorded of them stays recorded in every continuation. */
  lemma {:induction false} ReleasedIsRecorded(id: string, input: NewEscrow, t0: int, cs: seq<Command>, n: nat)
    requires DisciplinedRun(Create(id, input, t0), cs)
    requires n <= |cs|
    ensures var b := Run(Create(id, input, t0), cs); b.row.status == RELEASED ==> PayoutRecorded(b.row)
    ensures KeepsPayout(Run(Create(id, input, t0), cs[..n]).row, Run(Create(id, input, t0), cs).row)
  {
    InvAlways(id, input, t0, cs);
    if n == |cs| {
      assert cs[..n] == cs;
    } else {
      var before := cs[..|cs| - 1];
      ReleasedIsRecorded(id, input, t0, before, n);
      assert before[..n] == cs[..n];
      StepShape(Run(Create(id, input, t0), before), cs[|cs| - 1]);
    }
  }

  /** In every run every pending funding row carries the active payment reference. */
  lemma {:induction false} PendingRowsAreActive(id: string, input: NewEscrow, t0: int, cs: seq<Command>)
    requires DisciplinedRun(Create(id, input, t0), cs)
    ensures PendingIsActive(Run(Create(id, input, t0), cs))
  {
    InvAlways(id, input, t0, cs);
  }
}
