/** Who can release an escrow, when, and for how much. */
module Releases {
  import opened Wrappers
  import opened Escrow
  import opened Lifecycle
  import opened Effects
  import opened EventLog
  import opened Invariants
  import opened Quote
  import opened Conservation
  import opened Reconciliation

  // ----- one step -----

  /** A command that may release the escrow as it stands: the buyer's own release of a finished USDC escrow below the
      given bound, or 2500; an admin's approval; or a dispute decided for the seller. */
  predicate MayRelease(row: EscrowRow, c: Command) {
    match c
    case RequestRelease(actor, directory, _, _, t, _) =>
      row.currency == USDC && (actor == "system-sweep" || directory.buyer == Some(actor))
        && row.status in {COMPLETED, DELIVERED} && row.amount < (if t.usdc.Some? then t.usdc.value else 2500.0)
    case Approve(_, r, payout, _) =>
      && !NoText(r.payoutReference)
      && r.grossAmount in {None, Some(row.amount)}
      && 0.0 <= row.amount && (r.sellerNetAmount.Some? ==> r.sellerNetAmount.value <= row.amount)
      && (row.currency == NAIRA ==> row.status == PENDING_RELEASE && (row.sellerUserId.Some? ==> PayoutCleared(payout)))
    case Resolve(_, outcome, _, reference, _) =>
      row.status == DISPUTED && outcome == ReleaseToSeller && (row.currency == NAIRA ==> !NoText(reference))
    case _ => false
  }

  lemma UnfinishedStays(b: Book, c: Command)
    requires Disciplined(b, c) && !c.RequestRelease? && !c.Approve? && !c.Resolve? && b.row.status != RELEASED
    ensures After(b, c).row.status != RELEASED
  {
  }

  /** Over all commands: an escrow becomes released exactly when the command is one of the three and its conditions
      hold. */
  lemma ReleasedExactlyWhen(b: Book, c: Command)
    requires Disciplined(b, c) && b.row.status != RELEASED
    ensures After(b, c).row.status == RELEASED <==> MayRelease(b.row, c)
  {
    match c
    case RequestRelease(actor, directory, channel, payout, t, now) =>
      ReleaseRequestEnds(b, actor, directory, channel, payout, t, now);
    case Approve(admin, r, payout, now) => ApprovalReleases(b, admin, r, payout, now);
    case Resolve(admin, outcome, reason, reference, now) =>
      ResolutionEnds(b, admin, outcome, reason, reference, now);
    case _ => UnfinishedStays(b, c);
  }

  lemma ApprovalReleases(b: Book, admin: Text, r: Release, payout: Option<PayoutAccount>, now: int)
    requires b.row.status != RELEASED
    ensures After(b, Approve(admin, r, payout, now)).row.status == RELEASED <==>
              MayRelease(b.row, Approve(admin, r, payout, now))
  {
    ApprovalEnds(b, admin, r, payout, now);
    if Apply(b, Approve(admin, r, payout, now)).Done? {
      ApprovalSetsRow(b, admin, r, payout, now);
    }
  }

  /** A command that takes a released escrow out of its release: a new payment instruction, a payment review, or a
      dispute opened by an admin or a participant. */
  predicate TakesBack(row: EscrowRow, c: Command) {
    match c
    case Attach(i, _) => i.status == Some(PENDING_PAYMENT)
    case Review(_, _) => true
    case Dispute(actor, directory, channel, _, _) => 
      || channel == "admin" || directory.buyer == Some(actor) || row.sellerWhatsapp == Some(actor)
      || (directory.seller == Some(actor) && row.sellerUserId.Some?)
    case _ => false
  }

  lemma OthersKeepRelease(b: Book, c: Command)
    requires Disciplined(b, c) && b.row.status == RELEASED && !c.Attach? && !c.Review? && !c.Dispute?
    ensures After(b, c).row.status == RELEASED
  {
  }

  /** Over all commands: a released escrow leaves its release exactly by one of these. */
  lemma TakenBackExactlyWhen(b: Book, c: Command)
    requires Disciplined(b, c) && b.row.status == RELEASED
    ensures After(b, c).row.status != RELEASED <==> TakesBack(b.row, c)
  {
    match c
    case Attach(_, _) =>
    case Review(_, _) =>
    case Dispute(_, _, _, _, _) =>
    case _ => OthersKeepRelease(b, c);
  }

  // ----- whole runs -----

  /** The command at `k` found an unreleased escrow and met the conditions of a release. */
  ghost predicate ReleasesAt(b: Book, cs: seq<Command>, k: int)
    requires 0 <= k < |cs|
  {
    Run(b, cs[..k]).row.status != RELEASED && MayRelease(Run(b, cs[..k]).row, cs[k])
  }

  ghost predicate TakesBackAt(b: Book, cs: seq<Command>, m: int)
    requires 0 <= m < |cs|
  {
    TakesBack(Run(b, cs[..m]).row, cs[m])
  }

  /** The command at `k` released the escrow, and no later command was one that takes a release back. */
  ghost predicate ReleasedBy(b: Book, cs: seq<Command>, k: int) {
    0 <= k < |cs| && ReleasesAt(b, cs, k) && forall m :: k < m < |cs| ==> !TakesBackAt(b, cs, m)
  }

  lemma SameAt(b: Book, cs: seq<Command>, m: int)
    requires 0 <= m < |cs| - 1
    ensures ReleasesAt(b, cs[..|cs| - 1], m) == ReleasesAt(b, cs, m)
    ensures TakesBackAt(b, cs[..|cs| - 1], m) == TakesBackAt(b, cs, m)
  {
    assert cs[..|cs| - 1][..m] == cs[..m];
  }

  lemma ReleasedByBefore(b: Book, cs: seq<Command>, k: int)
    requires 0 <= k < |cs| - 1
    ensures ReleasedBy(b, cs, k) <==> ReleasedBy(b, cs[..|cs| - 1], k) && !TakesBackAt(b, cs, |cs| - 1)
  {
    var before := cs[..|cs| - 1];
    SameAt(b, cs, k);
    if ReleasedBy(b, cs, k) {
      assert !TakesBackAt(b, cs, |cs| - 1);
      forall m | k < m < |before| ensures !TakesBackAt(b, before, m) {
        SameAt(b, cs, m);
      }
    } else if ReleasedBy(b, before, k) && !TakesBackAt(b, cs, |cs| - 1) {
      forall m | k < m < |cs| ensures !TakesBackAt(b, cs, m) {
        if m < |before| {
          SameAt(b, cs, m);
        }
      }
    }
  }

  lemma {:induction false} ReleasedByReleases(b: Book, cs: seq<Command>, k: int)
    requires DisciplinedRun(b, cs) && ReleasedBy(b, cs, k)
    ensures Run(b, cs).row.status == RELEASED
    decreases |cs|
  {
    var before, last := cs[..|cs| - 1], cs[|cs| - 1];
    if k < |cs| - 1 {
      ReleasedByBefore(b, cs, k);
      ReleasedByReleases(b, before, k);
      TakenBackExactlyWhen(Run(b, before), last);
    } else {
      ReleasedExactlyWhen(Run(b, before), last);
    }
  }

  lemma {:induction false} ReleasedHasItsCommand(b: Book, cs: seq<Command>)
    requires DisciplinedRun(b, cs) && b.row.status != RELEASED && Run(b, cs).row.status == RELEASED
    ensures exists k :: ReleasedBy(b, cs, k)
    decreases |cs|
  {
    var before, last := cs[..|cs| - 1], cs[|cs| - 1];
    if Run(b, before).row.status == RELEASED {
      ReleasedHasItsCommand(b, before);
      var k :| ReleasedBy(b, before, k);
      TakenBackExactlyWhen(Run(b, before), last);
      ReleasedByBefore(b, cs, k);
    } else {
      ReleasedExactlyWhen(Run(b, before), last);
      assert ReleasedBy(b, cs, |cs| - 1);
    }
  }

  /** In every run the escrow is released at the end exactly when one of the three commands met its conditions on an
      unreleased escrow and no command after it was one that takes a release back. */
  lemma {:induction false} ReleasedInRunExactlyWhen(id: string, input: NewEscrow, t0: int, cs: seq<Command>)
    requires DisciplinedRun(Create(id, input, t0), cs)
    ensures Run(Create(id, input, t0), cs).row.status == RELEASED <==>
              exists k :: ReleasedBy(Create(id, input, t0), cs, k)
  {
    var b := Create(id, input, t0);
    if k :| ReleasedBy(b, cs, k) {
      ReleasedByReleases(b, cs, k);
    }
    if Run(b, cs).row.status == RELEASED {
      ReleasedHasItsCommand(b, cs);
    }
  }

  // ----- the store and its own quote -----

  /** The store accepts the escrow's own quote exactly when the guards hold, the amount is not negative, and the
      seller's net before rounding is less than half a unit above the amount's whole units: a Naira amount with a
      fraction of a half or more, whose fee the buyer pays, is quoted a net that the store refuses. */
  lemma QuoteIsAcceptedExactlyWhen(b: Book, admin: Text, fee: real, reference: string, notes: Option<Text>,
                                   provider: Option<Text>,
                                   payout: Option<PayoutAccount>, now: int)
    ensures var (_, n) := Unrounded(b.row.amount, b.row.currency, b.row.feePayer, fee);
            Apply(b, Approve(admin, QuotedRelease(b.row, fee, reference, notes, provider), payout, now)).Done?
            <==>
            && !NoText(reference)
            && (b.row.currency == NAIRA ==>
                  b.row.status == PENDING_RELEASE && (b.row.sellerUserId.Some? ==> PayoutCleared(payout)))
            && 0.0 <= b.row.amount
            && Units(b.row.currency, n) < Units(b.row.currency, b.row.amount).Floor as real + 0.5
  {
    QuotedNetFits(b.row.amount, b.row.currency, b.row.feePayer, fee);
    ApprovalEnds(b, admin, QuotedRelease(b.row, fee, reference, notes, provider), payout, now);
  }

  /** An input that is refused: a Naira amount of 1000.6 whose fee the buyer pays, at any fee and with every guard
      met. */
  lemma FractionalAmountIsRefused(b: Book, admin: Text, fee: real, reference: string, notes: Option<Text>,
                                  provider: Option<Text>, payout: Option<PayoutAccount>, now: int)
    requires b.row.amount == 1000.6 && b.row.currency == NAIRA && b.row.feePayer == BuyerPays && !NoText(reference)
    ensures QuoteOf(b.row, fee).sellerNetAmount == 1001.0
    ensures Apply(b, Approve(admin, QuotedRelease(b.row, fee, reference, notes, provider), payout, now)) ==
            Rejected(NetExceedsGross)
  {
    NearestBelow(1000.6 + 0.5, 1001);
    ApprovalEnds(b, admin, QuotedRelease(b.row, fee, reference, notes, provider), payout, now);
  }

  // ----- how much -----

  lemma ApprovalsAreCovered(b: Book, c: Command)
    requires |After(b, c).log| > |b.log| && After(b, c).log[|b.log|].eventType.ManualReleaseApproved?
    ensures 0.0 <= After(b, c).log[|b.log|].eventType.sellerNetAmount <= b.row.amount
  {
    StepLogsItsOwn(b, c);
    assert After(b, c) == PaidOut(b, c.admin, c.release, c.release.payoutReference, c.now);
  }

  predicate Covered(amount: real, e: Event) {
    e.eventType.ManualReleaseApproved? ==> 0.0 <= e.eventType.sellerNetAmount <= amount
  }

  predicate AllCovered(b: Book) {
    forall i :: 0 <= i < |b.log| ==> Covered(b.row.amount, b.log[i])
  }

  lemma CoveredStays(b: Book, b': Book)
    requires AllCovered(b) && Shaped(b, b')
    requires Logs(b, b') ==> Covered(b.row.amount, b'.log[|b.log|])
    ensures AllCovered(b')
  {
    forall i | 0 <= i < |b'.log| ensures Covered(b'.row.amount, b'.log[i]) {
      if i < |b.log| {
        assert b'.log[i] == b'.log[..|b.log|][i] == b.log[i];
      }
    }
  }

  lemma {:induction false} ApprovalsAlwaysCovered(id: string, input: NewEscrow, t0: int, cs: seq<Command>)
    requires DisciplinedRun(Create(id, input, t0), cs)
    ensures AllCovered(Run(Create(id, input, t0), cs))
  {
    if cs != [] {
      var b, c := Run(Create(id, input, t0), cs[..|cs| - 1]), cs[|cs| - 1];
      ApprovalsAlwaysCovered(id, input, t0, cs[..|cs| - 1]);
      StepShape(b, c);
      var b' := After(b, c);
      if Logs(b, b') && b'.log[|b.log|].eventType.ManualReleaseApproved? {
        ApprovalsAreCovered(b, c);
      }
      CoveredStays(b, b');
    }
  }

  lemma {:induction false} ReleasePostingsAreCovered(t: Terms, log: seq<Event>, p: Posting)
    requires p in ReplayLedger(t, log) && p.entryType == ReleaseEntry
    requires forall i :: 0 <= i < |log| ==> Covered(t.amount, log[i])
    ensures p.amount <= t.amount
  {
    var before, last := log[..|log| - 1], log[|log| - 1];
    assert Covered(t.amount, last);
    if p in ReplayLedger(t, before) {
      forall i | 0 <= i < |before| ensures Covered(t.amount, before[i]) {
        assert Covered(t.amount, log[i]);
      }
      ReleasePostingsAreCovered(t, before, p);
    }
  }

  /** In every run, no single release pays out more than the escrow's amount. */
  lemma {:induction false} ReleaseNeverExceedsAmount(id: string, input: NewEscrow, t0: int, cs: seq<Command>, m: nat)
    requires DisciplinedRun(Create(id, input, t0), cs)
    requires var b := Run(Create(id, input, t0), cs); m < |b.ledger| && b.ledger[m].entryType == ReleaseEntry
    ensures var b := Run(Create(id, input, t0), cs); b.ledger[m].amount <= b.row.amount
  {
    InvAlways(id, input, t0, cs);
    ApprovalsAlwaysCovered(id, input, t0, cs);
    var b := Run(Create(id, input, t0), cs);
    EntryIsPosted(b.ledger, m);
    ReleasePostingsAreCovered(TermsOf(b), b.log, PostingOf(b.ledger[m]));
  }

  // ----- high value -----

  lemma RequestsAreSmall(b: Book, c: Command)
    requires |After(b, c).log| > |b.log| && After(b, c).log[|b.log|].eventType.ReleaseRequested?
    requires b.row.currency == NAIRA
    ensures c.RequestRelease?
            && b.row.amount < (if c.thresholds.naira.Some? then c.thresholds.naira.value else 500000.0)
  {
    StepLogsItsOwn(b, c);
    ReleaseRequestEnds(b, c.actor, c.directory, c.channel, c.payout, c.thresholds, c.now);
    ReleaseRequestWrites(b, c.actor, c.directory, c.channel, c.payout, c.thresholds, c.now);
  }

  /** Neither waiting for an approval nor ever approved. */
  predicate NeverApproved(b: Book) {
    b.row.status != PENDING_RELEASE && forall i :: 0 <= i < |b.log| ==> !b.log[i].eventType.ManualReleaseApproved?
  }

  lemma NeverApprovedStays(b: Book, b': Book)
    requires NeverApproved(b) && b.row.currency == NAIRA && Shaped(b, b') && Lawful(b, b')
    requires Logs(b, b') ==> !b'.log[|b.log|].eventType.ReleaseRequested?
    ensures NeverApproved(b')
  {
    if Logs(b, b') {
      assert FollowsTable(NAIRA, b'.log[|b.log|]);
      forall i | 0 <= i < |b'.log| ensures !b'.log[i].eventType.ManualReleaseApproved? {
        if i < |b.log| {
          assert b'.log[i] == b'.log[..|b.log|][i] == b.log[i];
        }
      }
    }
  }

  lemma NeverApprovedStep(b: Book, c: Command, t: Thresholds)
    requires Disciplined(b, c) && NeverApproved(b)
    requires b.row.currency == NAIRA && b.row.amount >= (if t.naira.Some? then t.naira.value else 500000.0)
    requires c.RequestRelease? ==> c.thresholds == t
    ensures NeverApproved(After(b, c))
  {
    StepShape(b, c);
    var b' := After(b, c);
    if |b'.log| > |b.log| && b'.log[|b.log|].eventType.ReleaseRequested? {
      RequestsAreSmall(b, c);
      assert false;
    }
    NeverApprovedStays(b, b');
  }

  ghost predicate SameThresholds(cs: seq<Command>, t: Thresholds) {
    forall i :: 0 <= i < |cs| && cs[i].RequestRelease? ==> cs[i].thresholds == t
  }

  /** In every run under fixed thresholds, a Naira escrow at or above the given Naira threshold, or 500000, is never
      approved for a manual payout: its release request goes to review, from which no approval leads, so only a dispute
      pays the seller. */
  lemma {:induction false} HighValueNairaIsNeverApproved(id: string, input: NewEscrow, t0: int, cs: seq<Command>,
                                                         t: Thresholds)
    requires DisciplinedRun(Create(id, input, t0), cs) && SameThresholds(cs, t)
    requires input.currency == NAIRA && input.amount >= (if t.naira.Some? then t.naira.value else 500000.0)
    ensures var b := Run(Create(id, input, t0), cs);
            b.row.currency == NAIRA && b.row.amount == input.amount && NeverApproved(b)
  {
    if cs != [] {
      HighValueNairaIsNeverApproved(id, input, t0, cs[..|cs| - 1], t);
      NeverApprovedStep(Run(Create(id, input, t0), cs[..|cs| - 1]), cs[|cs| - 1], t);
      StepShape(Run(Create(id, input, t0), cs[..|cs| - 1]), cs[|cs| - 1]);
    }
  }
}
