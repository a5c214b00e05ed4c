/** What holds of one escrow's books after every run of the store's operations. */
module Invariants {
  import opened Wrappers
  import opened Escrow
  import opened Lifecycle
  import opened EventLog
  import Effects

  // ----- the invariant -----

  /** The row and the ledger are what the log replays to. */
  ghost predicate Sourced(b: Book) {
    && Chained(b.log)
    && ReplayStatus(b.log) == Some(b.row.status)
    && ReplayReceived(b.log) == b.row.receivedAmount
    && ReplayLedger(TermsOf(b), b.log) == Postings(b.ledger)
  }

  /** The stage a status presupposes. */
  function RequiredStage(s: Status): nat {
    match s
    case IN_PROGRESS => 1
    case DELIVERED => 2
    case COMPLETED => 2
    case PENDING_RELEASE => 3
    case _ => 0
  }

  ghost predicate StagedReleases(log: seq<Event>) {
    forall i :: 0 <= i < |log| && log[i].eventType.ManualReleaseApproved? ==> Stage(log[..i]) >= 3
  }

  /** The status is backed by the log's history; three statuses are never entered. */
  ghost predicate Earned(b: Book) {
    && b.row.status !in {CREATED, FUNDED, FAILED}
    && Stage(b.log) >= RequiredStage(b.row.status)
    && (b.row.currency == NAIRA ==> StagedReleases(b.log))
    && (forall i :: 0 <= i < |b.log| ==> FollowsTable(b.row.currency, b.log[i]))
  }

  predicate PayoutRecorded(row: EscrowRow) {
    row.manualPayoutReference.Some? && row.releasedAt.Some? && row.releasedBy.Some?
  }

  predicate Settled(b: Book) {
    b.row.status == RELEASED ==> PayoutRecorded(b.row)
  }

  /** A pending funding row belongs to the active payment reference. */
  predicate PendingIsActive(b: Book) {
    forall i :: 0 <= i < |b.txns| && IsPendingFunding(b.txns[i]) ==>
      b.txns[i].reference.Some? && b.txns[i].reference == b.row.paymentReference
  }

  ghost predicate Inv(b: Book) {
    Sourced(b) && Earned(b) && Settled(b) && PendingIsActive(b)
  }

  // ----- the shape of one step -----

  predicate Quiet(b: Book, b': Book) {
    && b'.log == b.log
    && b'.ledger == b.ledger
    && b'.row.status == b.row.status
    && b'.row.receivedAmount == b.row.receivedAmount
  }

  /** One event is appended, and it accounts for every change of status, received amount and ledger. */
  predicate Logs(b: Book, b': Book) {
    && |b'.log| == |b.log| + 1
    && b'.log[..|b.log|] == b.log
    && var e := b'.log[|b.log|];
    && (if e.nextStatus.Some?
        then e.nextStatus.value == b'.row.status && e.previousStatus == Some(b.row.status)
        else e.previousStatus.None? && b'.row.status == b.row.status)
    && b'.row.receivedAmount == ReceivedAfter(b.row.receivedAmount, e)
    && Postings(b'.ledger) == Postings(b.ledger) + PostingsOf(TermsOf(b), b.row.receivedAmount, e)
  }

  lemma PostingsAppend(ledger: seq<LedgerEntry>, e: LedgerEntry)
    ensures Postings(ledger + [e]) == Postings(ledger) + [PostingOf(e)]
  {
    assert (ledger + [e])[..|ledger|] == ledger;
  }

  predicate Shaped(b: Book, b': Book) {
    TermsOf(b') == TermsOf(b) && b'.row.feePayer == b.row.feePayer && (Quiet(b, b') || Logs(b, b'))
  }

  /** A write that appends one event and nothing to the ledger. */
  lemma LogsOneEvent(b: Book, b': Book)
    requires TermsOf(b') == TermsOf(b) && b'.row.feePayer == b.row.feePayer && b'.ledger == b.ledger
    requires |b'.log| == |b.log| + 1 && b'.log[..|b.log|] == b.log
    requires var e := b'.log[|b.log|];
             && (if e.nextStatus.Some?
                 then e.nextStatus.value == b'.row.status && e.previousStatus == Some(b.row.status)
                 else e.previousStatus.None? && b'.row.status == b.row.status)
             && b'.row.receivedAmount == ReceivedAfter(b.row.receivedAmount, e)
             && PostingsOf(TermsOf(b), b.row.receivedAmount, e) == []
    ensures Shaped(b, b')
  {
    assert Postings(b.ledger) + [] == Postings(b.ledger);
  }

  /** A write that appends one event and the one ledger entry it stands for. */
  lemma LogsOneEntry(b: Book, b': Book, e: Event, entry: LedgerEntry)
    requires TermsOf(b') == TermsOf(b) && b'.row.feePayer == b.row.feePayer
    requires b'.log == b.log + [e] && b'.ledger == b.ledger + [entry]
    requires e.nextStatus == Some(b'.row.status) && e.previousStatus == Some(b.row.status)
    requires b'.row.receivedAmount == ReceivedAfter(b.row.receivedAmount, e)
    requires PostingsOf(TermsOf(b), b.row.receivedAmount, e) == [PostingOf(entry)]
    ensures Shaped(b, b')
  {
    PostingsAppend(b.ledger, entry);
  }

  /** The same for two ledger entries. */
  lemma LogsTwoEntries(b: Book, b': Book, e: Event, first: LedgerEntry, second: LedgerEntry)
    requires TermsOf(b') == TermsOf(b) && b'.row.feePayer == b.row.feePayer
    requires b'.log == b.log + [e] && b'.ledger == b.ledger + [first] + [second]
    requires e.nextStatus == Some(b'.row.status) && e.previousStatus == Some(b.row.status)
    requires b'.row.receivedAmount == ReceivedAfter(b.row.receivedAmount, e)
    requires PostingsOf(TermsOf(b), b.row.receivedAmount, e) == [PostingOf(first), PostingOf(second)]
    ensures Shaped(b, b')
  {
    PostingsAppend(b.ledger, first);
    PostingsAppend(b.ledger + [first], second);
    assert Postings(b'.ledger) == Postings(b.ledger) + [PostingOf(first), PostingOf(second)];
  }

  // ----- the transition table -----

  /** Which event may move an escrow where. */
  predicate FollowsTable(currency: Currency, e: Event) {
    && (e.nextStatus.Some? && e.nextStatus != e.previousStatus ==>
          match e.nextStatus.value
          case CREATED => false
          case FUNDED => false
          case FAILED => false
          case IN_PROGRESS => e.eventType.PaymentVerified?
          case DELIVERED => e.eventType.SellerDeliveryProofRecorded?
            && e.previousStatus in {Some(FUNDED), Some(IN_PROGRESS)}
          case COMPLETED => e.eventType.BuyerCompleted?
            && e.previousStatus in {Some(FUNDED), Some(IN_PROGRESS), Some(DELIVERED)}
          case PENDING_RELEASE => e.eventType.ReleaseRequested?
            && e.previousStatus in {Some(DELIVERED), Some(COMPLETED)}
          case RELEASED =>
            || (e.eventType.AutonomousUsdcRelease? && currency == USDC)
            || e.eventType.ManualReleaseApproved?
            || (e.eventType.DisputeResolved? && e.eventType.outcome == ReleaseToSeller)
          case _ => true)
    && (e.eventType.PaymentVerified? ==>
          && e.nextStatus == Some(IN_PROGRESS)
          && e.previousStatus.Some? && Effects.AwaitsPayment(e.previousStatus.value))
    && (e.eventType.ManualReleaseApproved? ==> e.nextStatus == Some(RELEASED))
    && (e.eventType.DisputeResolved? ==> e.nextStatus in {Some(RELEASED), Some(CANCELLED)})
    && (e.eventType.ManualReleaseApproved? && currency == NAIRA ==> e.previousStatus == Some(PENDING_RELEASE))
  }

  /** What a step does to the record of a payout: it may fill it in, it never clears it. */
  predicate KeepsPayout(r: EscrowRow, r': EscrowRow) {
    && (r.manualPayoutReference.Some? ==> r'.manualPayoutReference.Some?)
    && (r.releasedAt.Some? ==> r'.releasedAt.Some?)
    && (r.releasedBy.Some? ==> r'.releasedBy.Some?)
  }

  /** The step follows the table, keeps the payout record, enters RELEASED only with one,
      and leaves no pending funding row behind a reference it drops. */
  ghost predicate Lawful(b: Book, b': Book) {
    && (|b'.log| > |b.log| ==> FollowsTable(b.row.currency, b'.log[|b.log|]))
    && KeepsPayout(b.row, b'.row)
    && (Settled(b) ==> Settled(b'))
    && (PendingIsActive(b) ==> PendingIsActive(b'))
  }

  lemma AttachShape(b: Book, i: Instruction, now: int)
    ensures Shaped(b, AttachPayment(b, i, now))
    ensures i.status in {None, Some(PENDING_PAYMENT)} ==> Lawful(b, AttachPayment(b, i, now))
  {
    LogsOneEvent(b, AttachPayment(b, i, now));
  }

  lemma FundShape(b: Book, reference: Text, receipt: Receipt, now: int)
    ensures Shaped(b, MarkFunded(b, reference, receipt, now)) && Lawful(b, MarkFunded(b, reference, receipt, now))
  {
    var b' := MarkFunded(b, reference, receipt, now);
    if b.row.status !in FUNDED_OR_LATER {
      LogsOneEntry(b, b', b'.log[|b.log|], b'.ledger[|b.ledger|]);
    }
  }

  lemma ExpireShape(b: Book, now: int)
    ensures Shaped(b, ExpirePendingPayment(b, now)) && Lawful(b, ExpirePendingPayment(b, now))
  {
    var b' := ExpirePendingPayment(b, now);
    if b' != b {
      LogsOneEvent(b, b');
    }
  }

  lemma ReviewShape(b: Book, f: Finding, now: int)
    ensures Shaped(b, MarkReviewRequired(b, f, now)) && Lawful(b, MarkReviewRequired(b, f, now))
  {
    LogsOneEvent(b, MarkReviewRequired(b, f, now));
  }

  lemma ApproveShape(b: Book, admin: Text, r: Release, payout: Option<PayoutAccount>, now: int)
    requires ApproveManualRelease(b, admin, r, payout, now).Done?
    ensures Shaped(b, ApproveManualRelease(b, admin, r, payout, now).book)
  {
    PaidOutShape(b, admin, r, r.payoutReference, now);
  }

  lemma PaidOutShape(b: Book, admin: Text, r: Release, reference: Text, now: int)
    ensures Shaped(b, PaidOut(b, admin, r, reference, now))
  {
    var fee := NonNegative(AmountElse(r.platformFeeAmount, 0.0));
    var net := NonNegative(AmountElse(r.sellerNetAmount, AmountElse(r.grossAmount, b.row.amount)));
    var b1 := Transition(b, RELEASED, admin, "admin", "admin", ManualReleaseApproved(reference, fee, net),
                         Some("Payout approved"), now);
    var b2 := b1.(row := RecordPayoutReconciliation(b1.row, admin, reference, r.payoutNotes, now));
    PayoutShape(b, b2, b.row, r, reference, fee, net, now);
  }

  /** A release event and the payout entries it stands for. */
  lemma PayoutShape(b: Book, b2: Book, row: EscrowRow, r: Release, reference: Text, fee: real, net: real, now: int)
    requires TermsOf(b2) == TermsOf(b) && b2.row.feePayer == b.row.feePayer && row.currency == b.row.currency
    requires |b2.log| == |b.log| + 1 && b2.log == b.log + [b2.log[|b.log|]] && b2.ledger == b.ledger
    requires var e := b2.log[|b.log|];
             && e.nextStatus == Some(b2.row.status) && e.previousStatus == Some(b.row.status)
             && e.eventType == ManualReleaseApproved(reference, fee, net)
    requires b2.row.receivedAmount == b.row.receivedAmount
    ensures Shaped(b, WithPayout(b2, row, r, reference, fee, net, now))
  {
    var e, first := b2.log[|b.log|], ReleaseEntryOf(row, r, reference, net);
    var b3 := WithPayout(b2, row, r, reference, fee, net, now);
    if fee > 0.0 {
      LogsTwoEntries(b, b3, e, first, FeeEntryOf(row, reference, fee));
    } else {
      LogsOneEntry(b, b3, e, first);
    }
  }

  lemma ResolveShape(b: Book, admin: Text, outcome: DisputeOutcome, reason: string, reference: string, now: int)
    requires ResolveDispute(b, admin, outcome, reason, reference, now).Done?
    ensures Shaped(b, ResolveDispute(b, admin, outcome, reason, reference, now).book)
  {
    ResolvedShape(b, admin, outcome, reason, Present(reference), now);
  }

  lemma ResolvedShape(b: Book, admin: Text, outcome: DisputeOutcome, reason: string, given: Option<Text>, now: int)
    ensures Shaped(b, Resolved(b, admin, outcome, reason, given, now))
  {
    var b1 := Transition(b, if outcome == ReleaseToSeller then RELEASED else CANCELLED, admin, "admin", "admin",
                         DisputeResolved(outcome, given), Present(reason), now);
    match outcome
    case ReleaseToSeller => DisputeReleaseShape(b, b1, admin, reason, given, now);
    case RefundBuyer => RefundShape(b, b1, given, now);
    case _ => LogsOneEvent(b, b1);
  }

  /** The books after the event of a decided dispute, before its money is booked. */
  ghost predicate Decided(b: Book, b1: Book, outcome: DisputeOutcome, given: Option<Text>) {
    && TermsOf(b1) == TermsOf(b) && b1.row.feePayer == b.row.feePayer && b1.row.receivedAmount == b.row.receivedAmount
    && |b1.log| == |b.log| + 1 && b1.log == b.log + [b1.log[|b.log|]] && b1.ledger == b.ledger
    && var e := b1.log[|b.log|];
    && e.nextStatus == Some(b1.row.status) && e.previousStatus == Some(b.row.status)
    && e.eventType == DisputeResolved(outcome, given)
  }

  lemma DisputeReleaseShape(b: Book, b1: Book, admin: Text, reason: string, given: Option<Text>, now: int)
    requires Decided(b, b1, ReleaseToSeller, given)
    ensures Shaped(b, WithDisputeRelease(b1, b.row, admin, reason, ResolvedReference(b.id, given), now))
  {
    var b' := WithDisputeRelease(b1, b.row, admin, reason, ResolvedReference(b.id, given), now);
    LogsOneEntry(b, b', b1.log[|b.log|], b'.ledger[|b.ledger|]);
  }

  lemma RefundShape(b: Book, b1: Book, given: Option<Text>, now: int)
    requires Decided(b, b1, RefundBuyer, given)
    ensures Shaped(b, WithRefund(b1, b.row, given, now))
  {
    var b' := WithRefund(b1, b.row, given, now);
    LogsOneEntry(b, b', b1.log[|b.log|], b'.ledger[|b.ledger|]);
  }

  lemma ApproveLawful(b: Book, admin: Text, r: Release, payout: Option<PayoutAccount>, now: int)
    requires ApproveManualRelease(b, admin, r, payout, now).Done?
    ensures Lawful(b, ApproveManualRelease(b, admin, r, payout, now).book)
  {
  }

  lemma ResolveLawful(b: Book, admin: Text, outcome: DisputeOutcome, reason: string, reference: string, now: int)
    requires ResolveDispute(b, admin, outcome, reason, reference, now).Done?
    ensures Lawful(b, ResolveDispute(b, admin, outcome, reason, reference, now).book)
  {
  }

  lemma RequestReleaseShape(b: Book, actor: Text, directory: Directory, channel: string, payout: Option<PayoutAccount>,
                            t: Thresholds, now: int)
    requires RequestReleaseOf(b, actor, directory, channel, payout, t, now).Done?
    ensures Shaped(b, RequestReleaseOf(b, actor, directory, channel, payout, t, now).book)
  {
    LogsOneEvent(b, RequestReleaseOf(b, actor, directory, channel, payout, t, now).book);
  }

  lemma RequestReleaseLawful(b: Book, actor: Text, directory: Directory, channel: string, payout: Option<PayoutAccount>,
                             t: Thresholds, now: int)
    requires RequestReleaseOf(b, actor, directory, channel, payout, t, now).Done?
    ensures Lawful(b, RequestReleaseOf(b, actor, directory, channel, payout, t, now).book)
  {
  }

  lemma AcceptShape(b: Book, seller: Text, invited: bool, sellerUser: Option<Text>, now: int)
    requires AcceptEscrow(b, seller, invited, sellerUser, now).Done?
    ensures Shaped(b, AcceptEscrow(b, seller, invited, sellerUser, now).book)
            && Lawful(b, AcceptEscrow(b, seller, invited, sellerUser, now).book)
  {
    var b' := AcceptEscrow(b, seller, invited, sellerUser, now).book;
    if b' != b {
      LogsOneEvent(b, b');
    }
  }

  lemma CancelShape(b: Book, actor: Text, directory: Directory, channel: string, now: int)
    requires CancelUnfunded(b, actor, directory, channel, now).Done?
    ensures Shaped(b, CancelUnfunded(b, actor, directory, channel, now).book)
  {
    if CancelUnfunded(b, actor, directory, channel, now).book != b {
      CancelledShape(b, actor, channel, now);
    }
  }

  lemma CancelLawful(b: Book, actor: Text, directory: Directory, channel: string, now: int)
    requires CancelUnfunded(b, actor, directory, channel, now).Done?
    ensures Lawful(b, CancelUnfunded(b, actor, directory, channel, now).book)
  {
    if CancelUnfunded(b, actor, directory, channel, now).book != b {
      CancelledLawful(b, actor, channel, now);
    }
  }

  lemma CancelledShape(b: Book, actor: Text, channel: string, now: int)
    ensures Shaped(b, Cancelled(b, actor, channel, now))
  {
    LogsOneEvent(b, Cancelled(b, actor, channel, now));
  }

  lemma CancelledLawful(b: Book, actor: Text, channel: string, now: int)
    ensures Lawful(b, Cancelled(b, actor, channel, now))
  {
  }

  /** Every step is quiet or logs one event that accounts for all it changed. */
  lemma StepShape(b: Book, c: Command)
    requires c.Remind? ==> b.row.status == PENDING_PAYMENT
    ensures Shaped(b, After(b, c))
    ensures Disciplined(b, c) ==> Lawful(b, After(b, c))
  {
    if Apply(b, c).Done? {
      match c
      case Attach(i, now) => AttachShape(b, i, now);
      case Accept(seller, invited, user, now) => AcceptShape(b, seller, invited, user, now);
      case Fund(reference, receipt, now) => FundShape(b, reference, receipt, now);
      case Expire(now) => ExpireShape(b, now);
      case Review(f, now) => ReviewShape(b, f, now);
      case RequestRelease(actor, directory, channel, payout, t, now) =>
        RequestReleaseShape(b, actor, directory, channel, payout, t, now);
        RequestReleaseLawful(b, actor, directory, channel, payout, t, now);
      case Complete(actor, directory, channel, now) => CompleteShape(b, actor, directory, channel, now);
      case Deliver(actor, channel, summary, days, now) => DeliverShape(b, actor, channel, summary, days, now);
      case Cancel(actor, directory, channel, now) =>
        CancelShape(b, actor, directory, channel, now);
        CancelLawful(b, actor, directory, channel, now);
      case Approve(admin, r, payout, now) =>
        ApproveShape(b, admin, r, payout, now);
        ApproveLawful(b, admin, r, payout, now);
      case Resolve(admin, outcome, reason, reference, now) =>
        ResolveShape(b, admin, outcome, reason, reference, now);
        ResolveLawful(b, admin, outcome, reason, reference, now);
      case _ => OtherShape(b, c);
    }
  }

  lemma CompleteShape(b: Book, actor: Text, directory: Directory, channel: string, now: int)
    requires CompleteEscrow(b, actor, directory, channel, now).Done?
    ensures Shaped(b, CompleteEscrow(b, actor, directory, channel, now).book)
            && Lawful(b, CompleteEscrow(b, actor, directory, channel, now).book)
  {
    LogsOneEvent(b, CompleteEscrow(b, actor, directory, channel, now).book);
  }

  lemma DeliverShape(b: Book, actor: Text, channel: string, summary: string, days: int, now: int)
    requires MarkDelivered(b, actor, channel, summary, days, now).Done?
    ensures Shaped(b, MarkDelivered(b, actor, channel, summary, days, now).book)
            && Lawful(b, MarkDelivered(b, actor, channel, summary, days, now).book)
  {
    LogsOneEvent(b, MarkDelivered(b, actor, channel, summary, days, now).book);
  }

  lemma OtherShape(b: Book, c: Command)
    requires Apply(b, c).Done?
    requires c.Remind? || c.Dispute? || c.PayoutPending? || c.Annotate?
    requires c.Remind? ==> b.row.status == PENDING_PAYMENT
    ensures Shaped(b, Apply(b, c).book) && Lawful(b, Apply(b, c).book)
  {
    LogsOneEvent(b, Apply(b, c).book);
  }

  lemma SourcedStep(b: Book, b': Book)
    requires Sourced(b) && Shaped(b, b')
    ensures Sourced(b')
  {
    if !Quiet(b, b') {
      assert b'.log[..|b'.log| - 1] == b.log;
      ChainExtends(b.log, b'.log);
    }
  }

  lemma ChainExtends(log: seq<Event>, log': seq<Event>)
    requires Chained(log) && |log'| == |log| + 1 && log'[..|log|] == log
    requires Continues(log', |log|)
    ensures Chained(log')
  {
    forall i | 0 <= i < |log'| ensures Continues(log', i) {
      if i < |log| {
        assert log'[..i] == log[..i];
        assert Continues(log, i);
      }
    }
  }

  /** A reminder keeps the log in step with the status exactly when the escrow is pending payment. */
  lemma ReminderKeepsReplay(b: Book, now: int)
    requires Sourced(b)
    ensures Sourced(After(b, Remind(now))) <==> b.row.status == PENDING_PAYMENT
  {
    if b.row.status == PENDING_PAYMENT {
      StepShape(b, Remind(now));
      SourcedStep(b, After(b, Remind(now)));
    }
  }

  lemma StageAfterAppend(log: seq<Event>, e: Event)
    ensures !IsSettlement(e.eventType) ==> Stage(log + [e]) >= Stage(log)
    ensures e.eventType.PaymentVerified? ==> Stage(log + [e]) >= 1
    ensures IsWorkDone(e.eventType) && Stage(log) >= 1 ==> Stage(log + [e]) >= 2
    ensures e.eventType.ReleaseRequested? && Stage(log) >= 2 ==> Stage(log + [e]) >= 3
  {
    assert (log + [e])[..|log|] == log;
  }

  lemma EarnedStep(b: Book, b': Book)
    requires ReplayStatus(b.log) == Some(b.row.status) && Earned(b) && Shaped(b, b')
    requires |b'.log| > |b.log| ==> FollowsTable(b.row.currency, b'.log[|b.log|])
    ensures Earned(b')
  {
    if !Quiet(b, b') {
      var e := b'.log[|b.log|];
      assert b'.log == b.log + [e];
      StageAfterAppend(b.log, e);
      ReleasesStayEarned(b.row.currency, b.log, e);
    }
  }

  lemma ReleasesStayEarned(currency: Currency, log: seq<Event>, e: Event)
    requires currency == NAIRA ==> StagedReleases(log)
    requires currency == NAIRA && e.eventType.ManualReleaseApproved? ==> Stage(log) >= 3
    ensures currency == NAIRA ==> StagedReleases(log + [e])
  {
    var log' := log + [e];
    if currency == NAIRA {
      forall i | 0 <= i < |log'| && log'[i].eventType.ManualReleaseApproved? ensures Stage(log'[..i]) >= 3 {
        if i == |log| {
          assert log'[..i] == log;
        } else {
          assert log'[..i] == log[..i];
        }
      }
    }
  }

  // ----- which command logs what -----

  predicate LoggedBy(c: Command, t: EventType) {
    && (t.PaymentVerified? ==> c.Fund?)
    && (t.ReleaseRequested? ==> c.RequestRelease?)
    && (t.ManualReleaseApproved? ==> c.Approve?)
  }

  ghost predicate LogsItsOwn(b: Book, b': Book, c: Command) {
    |b'.log| > |b.log| ==> LoggedBy(c, b'.log[|b.log|].eventType)
  }

  lemma PaymentsLogTheirOwn(b: Book, c: Command)
    requires c.Attach? || c.Fund? || c.Expire? || c.Remind? || c.Review? || c.Cancel?
    ensures LogsItsOwn(b, After(b, c), c)
  {
  }

  lemma ProgressLogsItsOwn(b: Book, c: Command)
    requires c.Accept? || c.RequestRelease? || c.Complete? || c.Deliver?
    ensures LogsItsOwn(b, After(b, c), c)
  {
  }

  lemma SettlementsLogTheirOwn(b: Book, c: Command)
    requires c.Approve? || c.Dispute? || c.Resolve? || c.PayoutPending? || c.Annotate?
    ensures LogsItsOwn(b, After(b, c), c)
  {
  }

  /** Payments, release requests and approvals are each logged by one command only. */
  lemma StepLogsItsOwn(b: Book, c: Command)
    ensures LogsItsOwn(b, After(b, c), c)
  {
    if c.Attach? || c.Fund? || c.Expire? || c.Remind? || c.Review? || c.Cancel? {
      PaymentsLogTheirOwn(b, c);
    } else if c.Accept? || c.RequestRelease? || c.Complete? || c.Deliver? {
      ProgressLogsItsOwn(b, c);
    } else {
      SettlementsLogTheirOwn(b, c);
    }
  }

  // ----- whole runs -----

  lemma InvStep(b: Book, c: Command)
    requires Inv(b) && Disciplined(b, c)
    ensures Inv(After(b, c))
  {
    StepShape(b, c);
    SourcedStep(b, After(b, c));
    EarnedStep(b, After(b, c));
  }

  lemma InvInitially(id: string, input: NewEscrow, t0: int)
    ensures Inv(Create(id, input, t0))
  {
    var b := Create(id, input, t0);
    assert b.log[..0] == [];
    assert Continues(b.log, 0);
  }

  lemma {:induction false} InvAlways(id: string, input: NewEscrow, t0: int, cs: seq<Command>)
    requires DisciplinedRun(Create(id, input, t0), cs)
    ensures Inv(Run(Create(id, input, t0), cs))
  {
    if cs == [] {
      InvInitially(id, input, t0);
    } else {
      InvAlways(id, input, t0, cs[..|cs| - 1]);
      InvStep(Run(Create(id, input, t0), cs[..|cs| - 1]), cs[|cs| - 1]);
    }
  }
}
