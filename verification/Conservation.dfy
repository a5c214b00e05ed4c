/** Where the money is: the balance of the liability account, read off the log of any run. */
module Conservation {
  import opened Wrappers
  import opened Escrow
  import opened Lifecycle
  import opened Effects
  import opened EventLog
  import opened Invariants
  import opened Quote

  /** The balance of `escrow_liability`. */
  function LiabilityBalance(ledger: seq<LedgerEntry>): real {
    if ledger == [] then 0.0 else LiabilityBalance(ledger[..|ledger| - 1]) + Effect(ledger[|ledger| - 1])
  }

  /** The money an event brings in, less the money it lets out. */
  function NetFlow(t: Terms, received: Option<real>, e: Event): real {
    match e.eventType
    case PaymentVerified(amount) => AmountOr(amount, t.amount)
    case ManualReleaseApproved(_, fee, net) => -net - NonNegative(fee)
    case DisputeResolved(ReleaseToSeller, _) => -t.amount
    case DisputeResolved(RefundBuyer, _) => -AmountOr(received, t.amount)
    case _ => 0.0
  }

  function FlowAt(t: Terms, log: seq<Event>, i: nat): real
    requires i < |log|
  {
    NetFlow(t, ReplayReceived(log[..i]), log[i])
  }

  /** Everything that came in, less everything that went out, in the first `n` events. */
  function TotalFlow(t: Terms, log: seq<Event>, n: nat): real
    requires n <= |log|
  {
    if n == 0 then 0.0 else TotalFlow(t, log, n - 1) + FlowAt(t, log, n - 1)
  }

  predicate MovesMoney(t: EventType) {
    t.PaymentVerified? || t.ManualReleaseApproved?
      || (t.DisputeResolved? && t.outcome in {ReleaseToSeller, RefundBuyer})
  }

  function SumEffects(ps: seq<Posting>): real {
    if ps == [] then 0.0 else SumEffects(ps[..|ps| - 1]) + ps[|ps| - 1].effect
  }

  lemma {:induction false} SumEffectsConcat(p: seq<Posting>, q: seq<Posting>)
    ensures SumEffects(p + q) == SumEffects(p) + SumEffects(q)
  {
    if q == [] {
      assert p + q == p;
    } else {
      SumEffectsConcat(p, q[..|q| - 1]);
      assert (p + q)[..|p + q| - 1] == p + q[..|q| - 1];
    }
  }

  lemma {:induction false} BalanceOfPostings(ledger: seq<LedgerEntry>)
    ensures LiabilityBalance(ledger) == SumEffects(Postings(ledger))
  {
    if ledger != [] {
      BalanceOfPostings(ledger[..|ledger| - 1]);
      SumEffectsConcat(Postings(ledger[..|ledger| - 1]), [PostingOf(ledger[|ledger| - 1])]);
    }
  }

  lemma FlowOfPostings(t: Terms, received: Option<real>, e: Event)
    ensures SumEffects(PostingsOf(t, received, e)) == NetFlow(t, received, e)
  {
    var ps := PostingsOf(t, received, e);
    if |ps| == 2 {
      assert ps == [ps[0]] + [ps[1]];
      SumEffectsConcat([ps[0]], [ps[1]]);
    }
  }

  lemma {:induction false} ReplayedFlow(t: Terms, log: seq<Event>, n: nat)
    requires n <= |log|
    ensures SumEffects(ReplayLedger(t, log[..n])) == TotalFlow(t, log, n)
  {
    if n > 0 {
      assert log[..n][..n - 1] == log[..n - 1];
      ReplayedFlow(t, log, n - 1);
      FlowOfPostings(t, ReplayReceived(log[..n - 1]), log[n - 1]);
      SumEffectsConcat(ReplayLedger(t, log[..n - 1]), PostingsOf(t, ReplayReceived(log[..n - 1]), log[n - 1]));
    }
  }

  /** After every run the liability account holds what the log says came in less what went out. */
  lemma {:induction false} BalanceIsFlow(id: string, input: NewEscrow, t0: int, cs: seq<Command>)
    requires DisciplinedRun(Create(id, input, t0), cs)
    ensures var b := Run(Create(id, input, t0), cs);
            LiabilityBalance(b.ledger) == TotalFlow(TermsOf(b), b.log, |b.log|)
  {
    InvAlways(id, input, t0, cs);
    var b := Run(Create(id, input, t0), cs);
    BalanceOfPostings(b.ledger);
    ReplayedFlow(TermsOf(b), b.log, |b.log|);
    assert b.log[..|b.log|] == b.log;
  }

  // ----- one payment in, one settlement out -----

  /** The log holds one payment, at `i`, and no other money moves but at `j`, if it moves there. */
  ghost predicate PaidOnceSettledOnce(log: seq<Event>, i: nat, j: nat) {
    && i < |log| && j < |log| && i != j
    && log[i].eventType.PaymentVerified?
    && !log[j].eventType.PaymentVerified?
    && forall k :: 0 <= k < |log| && MovesMoney(log[k].eventType) ==> k == i || k == j
  }

  lemma {:induction false} TwoFlows(t: Terms, log: seq<Event>, i: nat, j: nat, n: nat)
    requires PaidOnceSettledOnce(log, i, j) && n <= |log|
    ensures TotalFlow(t, log, n) ==
            (if i < n then FlowAt(t, log, i) else 0.0) + (if j < n then FlowAt(t, log, j) else 0.0)
  {
    if n > 0 {
      TwoFlows(t, log, i, j, n - 1);
    }
  }

  lemma BalanceOfTwo(b: Book, i: nat, j: nat)
    requires Inv(b) && PaidOnceSettledOnce(b.log, i, j)
    ensures LiabilityBalance(b.ledger) ==
            AmountOr(b.log[i].eventType.amount, b.row.amount) + FlowAt(TermsOf(b), b.log, j)
  {
    BalanceOfPostings(b.ledger);
    ReplayedFlow(TermsOf(b), b.log, |b.log|);
    assert b.log[..|b.log|] == b.log;
    TwoFlows(TermsOf(b), b.log, i, j, |b.log|);
  }

  // ----- where a command leaves its event -----

  /** A run keeps what it has logged, and the escrow's terms. */
  lemma {:induction false} RunKeepsLog(b: Book, cs: seq<Command>, n: nat)
    requires DisciplinedRun(b, cs) && n <= |cs|
    ensures DisciplinedRun(b, cs[..n])
    ensures var m, e := Run(b, cs[..n]), Run(b, cs);
            && |m.log| <= |e.log| && e.log[..|m.log|] == m.log
            && TermsOf(e) == TermsOf(m) && e.row.feePayer == m.row.feePayer
    decreases |cs|
  {
    if n == |cs| {
      assert cs[..n] == cs;
    } else {
      var before := cs[..|cs| - 1];
      RunKeepsLog(b, before, n);
      assert before[..n] == cs[..n];
      StepShape(Run(b, before), cs[|cs| - 1]);
    }
  }

  /** The books that the command at `k` finds. */
  function Before(b: Book, cs: seq<Command>, k: nat): Book
    requires k < |cs|
  {
    Run(b, cs[..k])
  }

  /** The place of its event in the log, if it logs one. */
  function EventOf(b: Book, cs: seq<Command>, k: nat): nat
    requires k < |cs|
  {
    |Before(b, cs, k).log|
  }

  lemma EventStays(b: Book, cs: seq<Command>, k: nat)
    requires DisciplinedRun(b, cs) && k < |cs|
    ensures var before, after := Before(b, cs, k), After(Before(b, cs, k), cs[k]);
            && TermsOf(Run(b, cs)) == TermsOf(before) && Run(b, cs).row.feePayer == before.row.feePayer
            && (|after.log| > |before.log| ==>
                  EventOf(b, cs, k) < |Run(b, cs).log| && Run(b, cs).log[EventOf(b, cs, k)] == after.log[|before.log|])
  {
    RunKeepsLog(b, cs, k);
    RunKeepsLog(b, cs, k + 1);
    assert cs[..k + 1][..k] == cs[..k];
    var after := After(Before(b, cs, k), cs[k]);
    assert Run(b, cs[..k + 1]) == after;
    if |after.log| > |Before(b, cs, k).log| {
      assert Run(b, cs).log[..|after.log|][EventOf(b, cs, k)] == after.log[EventOf(b, cs, k)];
    }
  }

  /** The command at `k` is a payment of the escrow, in a status that takes one. */
  predicate PaysAt(b: Book, cs: seq<Command>, k: nat) {
    && k < |cs| && cs[k].Fund?
    && LeadsTo(Before(b, cs, k), cs[k].reference)
    && Before(b, cs, k).row.status in {PENDING_PROFILE, PENDING_ACCEPTANCE, PENDING_PAYMENT, DELIVERED, DISPUTED,
                                       REVIEW_REQUIRED, EXPIRED, CANCELLED}
  }

  lemma PaymentIsLogged(b: Book, cs: seq<Command>, k: nat)
    requires DisciplinedRun(b, cs) && PaysAt(b, cs, k)
    ensures var log, i := Run(b, cs).log, EventOf(b, cs, k);
            i < |log| && log[i].eventType == PaymentVerified(cs[k].receipt.amount)
  {
    PaymentEnds(Before(b, cs, k), cs[k].reference, cs[k].receipt, cs[k].now);
    EventStays(b, cs, k);
  }

  /** The amount that a payment is booked with. */
  function PaidIn(row: EscrowRow, receipt: Receipt): real {
    if receipt.amount in {None, Some(0.0)} then row.amount else receipt.amount.value
  }

  /** In every run a payment of the escrow is booked in each of the eight statuses that take one: one event, one entry,
      in progress, and its amount on the liability account. In the other four that occur it changes nothing. */
  lemma {:induction false} PaymentIsBookedExactlyWhen(id: string, input: NewEscrow, t0: int, cs: seq<Command>,
                                                      reference: Text, receipt: Receipt, now: int)
    requires DisciplinedRun(Create(id, input, t0), cs)
    ensures var b := Run(Create(id, input, t0), cs);
            var b', s := After(b, Fund(reference, receipt, now)), b.row.status;
            && (LeadsTo(b, reference)
                && s in {PENDING_PROFILE, PENDING_ACCEPTANCE, PENDING_PAYMENT, DELIVERED, DISPUTED, REVIEW_REQUIRED,
                         EXPIRED, CANCELLED} ==>
                  BookedAs(b, b', reference, receipt, now)
                  && LiabilityBalance(b'.ledger) == LiabilityBalance(b.ledger) + PaidIn(b.row, receipt))
            && (s in {IN_PROGRESS, COMPLETED, PENDING_RELEASE, RELEASED} ==> b' == b)
            && s !in {CREATED, FUNDED, Status.FAILED}
            && (!LeadsTo(b, reference) ==> b' == b)
  {
    InvAlways(id, input, t0, cs);
    PaymentEnds(Run(Create(id, input, t0), cs), reference, receipt, now);
  }

  // ----- a release with the figures of the quote -----

  /** The quote of an escrow under a fee. */
  function QuoteOf(row: EscrowRow, fee: real): PayoutQuote {
    PayoutQuoteFor(row.amount, row.currency, row.feePayer, fee)
  }

  /** The release that the admin route calls for: the figures of the escrow's quote. */
  function QuotedRelease(row: EscrowRow, fee: real, reference: string, notes: Option<Text>,
                         provider: Option<Text>): Release
  {
    var q := QuoteOf(row, fee);
    Release(reference, notes, Some(row.amount), Some(q.platformFeeAmount), Some(q.sellerNetAmount), provider)
  }

  /** The command at `k` is an approval that goes through, called with the figures of the escrow's quote. */
  ghost predicate ApprovesQuoteAt(b: Book, cs: seq<Command>, k: nat, fee: real) {
    && k < |cs| && cs[k].Approve? && Apply(Before(b, cs, k), cs[k]).Done?
    && var r := cs[k].release;
    && r == QuotedRelease(Before(b, cs, k).row, fee, r.payoutReference, r.payoutNotes, r.payoutProvider)
  }

  /** The event has the fee and the net of a quote; the store books a negative net as zero. */
  ghost predicate ReleasedWith(e: Event, q: PayoutQuote) {
    e.eventType.ManualReleaseApproved?
    && e.eventType.platformFeeAmount == q.platformFeeAmount
    && e.eventType.sellerNetAmount == NonNegative(q.sellerNetAmount)
  }

  lemma QuoteIsLogged(b: Book, cs: seq<Command>, k: nat, fee: real)
    requires DisciplinedRun(b, cs) && ApprovesQuoteAt(b, cs, k, fee)
    ensures var e, j := Run(b, cs), EventOf(b, cs, k);
            j < |e.log| && ReleasedWith(e.log[j], QuoteOf(e.row, fee))
  {
    var c := cs[k];
    ApprovalWrites(Before(b, cs, k), c.admin, c.release, c.payout, c.now);
    EventStays(b, cs, k);
  }

  /** The balance, less what was paid beyond the quoted total. */
  function Unexplained(b: Book, q: PayoutQuote, paid: real): real {
    LiabilityBalance(b.ledger) - (paid - q.totalWithFee)
  }

  lemma UnexplainedIsDrift(b: Book, q: PayoutQuote, i: nat, j: nat)
    requires Inv(b) && PaidOnceSettledOnce(b.log, i, j) && ReleasedWith(b.log[j], q) && q.platformFeeAmount >= 0.0
    ensures Unexplained(b, q, AmountOr(b.log[i].eventType.amount, b.row.amount)) ==
            Drift(q) + q.sellerNetAmount - NonNegative(q.sellerNetAmount)
  {
    BalanceOfTwo(b, i, j);
  }

  /** Less than one unit, and nothing exactly when the fee is a whole number of units; or, when the quote would have the
      seller pay, what the quoted total leaves after the fee. */
  predicate Leaves(rest: real, c: Currency, q: PayoutQuote) {
    if q.sellerNetAmount >= 0.0
    then -1.0 < Units(c, rest) < 1.0 && (rest == 0.0 <==> OnGrid(c, q.platformFeeAmount))
    else rest == q.totalWithFee - q.platformFeeAmount
  }

  lemma DriftLeaves(row: EscrowRow, fee: real, rest: real)
    requires var q := QuoteOf(row, fee); rest == Drift(q) + q.sellerNetAmount - NonNegative(q.sellerNetAmount)
    ensures Leaves(rest, row.currency, QuoteOf(row, fee))
  {
    QuoteDrift(row.amount, row.currency, row.feePayer, fee);
    StraddlingPaysNegative(row.amount, row.currency, row.feePayer, fee);
  }

  /** The command at `m` pays, the one at `k` approves with the quote, and the log moves no other money. */
  ghost predicate PaidAndQuoted(b: Book, cs: seq<Command>, m: nat, k: nat, fee: real) {
    && PaysAt(b, cs, m) && ApprovesQuoteAt(b, cs, k, fee)
    && PaidOnceSettledOnce(Run(b, cs).log, EventOf(b, cs, m), EventOf(b, cs, k))
  }

  lemma QuotedEventLeaves(b: Book, fee: real, i: nat, j: nat, paid: real)
    requires Inv(b) && PaidOnceSettledOnce(b.log, i, j) && ReleasedWith(b.log[j], QuoteOf(b.row, fee))
    requires paid == AmountOr(b.log[i].eventType.amount, b.row.amount)
    ensures Leaves(Unexplained(b, QuoteOf(b.row, fee), paid), b.row.currency, QuoteOf(b.row, fee))
  {
    UnexplainedIsDrift(b, QuoteOf(b.row, fee), i, j);
    DriftLeaves(b.row, fee, Unexplained(b, QuoteOf(b.row, fee), paid));
  }

  /** Paid once, with anything, and released once by an approval called with what its quote pays out, an escrow leaves
      what was paid beyond the quoted total (or owes what was paid short of it), to within one rounding unit, and to the
      last digit exactly when the fee is a whole number of units. */
  lemma {:induction false} QuotedReleaseLeaves(id: string, input: NewEscrow, t0: int, cs: seq<Command>, fee: real,
                                               m: nat, k: nat)
    requires DisciplinedRun(Create(id, input, t0), cs) && PaidAndQuoted(Create(id, input, t0), cs, m, k, fee)
    ensures var b := Run(Create(id, input, t0), cs);
            var q, paid := QuoteOf(b.row, fee), PaidIn(b.row, cs[m].receipt);
            Leaves(Unexplained(b, q, paid), b.row.currency, q)
  {
    var b0 := Create(id, input, t0);
    var b := Run(b0, cs);
    InvAlways(id, input, t0, cs);
    PaymentIsLogged(b0, cs, m);
    QuoteIsLogged(b0, cs, k, fee);
    QuotedEventLeaves(b, fee, EventOf(b0, cs, m), EventOf(b0, cs, k), PaidIn(b.row, cs[m].receipt));
  }

  /** End to end: an escrow paid once with what its quote asks and released once by an approval called with what its
      quote pays out leaves less than one rounding unit behind, and nothing exactly when the fee is a whole number of
      units. */
  lemma {:induction false} QuotedReleaseDrains(id: string, input: NewEscrow, t0: int, cs: seq<Command>, fee: real,
                                               m: nat, k: nat)
    requires DisciplinedRun(Create(id, input, t0), cs) && PaidAndQuoted(Create(id, input, t0), cs, m, k, fee)
    requires var b := Run(Create(id, input, t0), cs); PaidIn(b.row, cs[m].receipt) == QuoteOf(b.row, fee).totalWithFee
    ensures var b := Run(Create(id, input, t0), cs);
            Leaves(LiabilityBalance(b.ledger), b.row.currency, QuoteOf(b.row, fee))
  {
    QuotedReleaseLeaves(id, input, t0, cs, fee, m, k);
  }

  /** A dispute released to the seller pays out the bare amount, so it leaves what the buyer paid on top. */
  lemma {:induction false} DisputeReleaseLeavesBuyerFee(id: string, input: NewEscrow, t0: int, cs: seq<Command>, i: nat,
                                                        j: nat)
    requires DisciplinedRun(Create(id, input, t0), cs)
    requires var b := Run(Create(id, input, t0), cs);
             PaidOnceSettledOnce(b.log, i, j) && b.log[j].eventType.DisputeResolved?
               && b.log[j].eventType.outcome == ReleaseToSeller
    ensures var b := Run(Create(id, input, t0), cs);
            LiabilityBalance(b.ledger) == AmountOr(b.log[i].eventType.amount, b.row.amount) - b.row.amount
  {
    InvAlways(id, input, t0, cs);
    ResolutionLeaves(Run(Create(id, input, t0), cs), i, j);
  }

  lemma ResolutionLeaves(b: Book, i: nat, j: nat)
    requires Inv(b) && PaidOnceSettledOnce(b.log, i, j) && b.log[j].eventType.DisputeResolved?
    ensures var paid := AmountOr(b.log[i].eventType.amount, b.row.amount);
            && (b.log[j].eventType.outcome == ReleaseToSeller ==> LiabilityBalance(b.ledger) == paid - b.row.amount)
            && (b.log[j].eventType.outcome == RefundBuyer ==>
                  LiabilityBalance(b.ledger) == paid - AmountOr(ReplayReceived(b.log[..j]), b.row.amount))
  {
    BalanceOfTwo(b, i, j);
  }

  /** A refund pays back the amount last reported as received, so it leaves the difference to the payment. */
  lemma {:induction false} RefundBalance(id: string, input: NewEscrow, t0: int, cs: seq<Command>, i: nat, j: nat)
    requires DisciplinedRun(Create(id, input, t0), cs)
    requires var b := Run(Create(id, input, t0), cs);
             PaidOnceSettledOnce(b.log, i, j) && b.log[j].eventType.DisputeResolved?
               && b.log[j].eventType.outcome == RefundBuyer
    ensures var b := Run(Create(id, input, t0), cs);
            LiabilityBalance(b.ledger) ==
            AmountOr(b.log[i].eventType.amount, b.row.amount) - AmountOr(ReplayReceived(b.log[..j]), b.row.amount)
  {
    InvAlways(id, input, t0, cs);
    ResolutionLeaves(Run(Create(id, input, t0), cs), i, j);
  }

  /** No payment review reports an amount between the two events. */
  ghost predicate NoReviewedAmount(log: seq<Event>, i: nat, j: nat) {
    forall k :: i < k < j && k < |log| && log[k].eventType.PaymentReviewRequired? ==>
      log[k].eventType.receivedAmount.None?
  }

  lemma {:induction false} ReceivedStands(log: seq<Event>, i: nat, j: nat, n: nat)
    requires PaidOnceSettledOnce(log, i, j) && i < n <= j && NoReviewedAmount(log, i, j)
    requires log[i].eventType.amount.Some?
    ensures ReplayReceived(log[..n]) == log[i].eventType.amount
  {
    assert log[..n][..n - 1] == log[..n - 1];
    if n > i + 1 {
      ReceivedStands(log, i, j, n - 1);
    }
  }

  /** An escrow paid once and then refunded once, with no reviewed amount in between, is drained. */
  lemma {:induction false} RefundDrains(id: string, input: NewEscrow, t0: int, cs: seq<Command>, i: nat, j: nat)
    requires DisciplinedRun(Create(id, input, t0), cs)
    requires var b := Run(Create(id, input, t0), cs);
             && i < j && PaidOnceSettledOnce(b.log, i, j) && NoReviewedAmount(b.log, i, j)
             && b.log[i].eventType.amount.Some?
             && b.log[j].eventType.DisputeResolved? && b.log[j].eventType.outcome == RefundBuyer
    ensures LiabilityBalance(Run(Create(id, input, t0), cs).ledger) == 0.0
  {
    RefundBalance(id, input, t0, cs, i, j);
    ReceivedStands(Run(Create(id, input, t0), cs).log, i, j, j);
  }

  // ----- what each way of release leaves -----

  predicate EntersRelease(e: Event) {
    e.nextStatus == Some(RELEASED) && e.previousStatus != Some(RELEASED)
  }

  /** What is left of the payment at `i` by the release at `j`. */
  predicate LeftByRelease(b: Book, i: nat, j: nat)
    requires i < |b.log| && b.log[i].eventType.PaymentVerified? && j < |b.log|
  {
    var paid, balance := AmountOr(b.log[i].eventType.amount, b.row.amount), LiabilityBalance(b.ledger);
    match b.log[j].eventType
    case AutonomousUsdcRelease => b.row.currency == USDC && balance == paid
    case ManualReleaseApproved(_, fee, net) => balance == paid - net - NonNegative(fee)
    case DisputeResolved(outcome, _) => outcome == ReleaseToSeller && balance == paid - b.row.amount
    case _ => false
  }

  lemma ReleaseLeaves(b: Book, i: nat, j: nat)
    requires Inv(b) && PaidOnceSettledOnce(b.log, i, j) && EntersRelease(b.log[j])
    ensures LeftByRelease(b, i, j)
  {
    BalanceOfTwo(b, i, j);
    assert FollowsTable(b.row.currency, b.log[j]);
  }

  /** An escrow paid once and released once, with no other money event, was released in one of three ways: the buyer's
      own USDC release leaves the whole payment on the liability account, an approval leaves the payment less the net
      and the fee it was called with, and a dispute leaves the payment less the bare amount. */
  lemma {:induction false} EachReleaseLeaves(id: string, input: NewEscrow, t0: int, cs: seq<Command>, i: nat, j: nat)
    requires DisciplinedRun(Create(id, input, t0), cs)
    requires var b := Run(Create(id, input, t0), cs); PaidOnceSettledOnce(b.log, i, j) && EntersRelease(b.log[j])
    ensures LeftByRelease(Run(Create(id, input, t0), cs), i, j)
  {
    InvAlways(id, input, t0, cs);
    ReleaseLeaves(Run(Create(id, input, t0), cs), i, j);
  }

  // ----- a reviewed amount in between -----

  /** A report of another amount, and a dispute refunded to the buyer. */
  function ReviewedRefund(reported: real, now: int): seq<Command> {
    [Review(Finding(Some(reported), None, [], "payment_amount_mismatch", None, None), now)]
    + [Dispute("admin", Directory(None, None), "admin", "wrong amount", now)]
    + [Resolve("admin", RefundBuyer, "refund", "refund", now)]
  }

  lemma RunMore(b: Book, cs: seq<Command>, c: Command)
    requires DisciplinedRun(b, cs) && Disciplined(Run(b, cs), c)
    ensures DisciplinedRun(b, cs + [c]) && Run(b, cs + [c]) == After(Run(b, cs), c)
  {
    assert (cs + [c])[..|cs|] == cs;
  }

  lemma ReviewReports(b: Book, f: Finding, now: int)
    ensures var b' := After(b, Review(f, now));
            b'.ledger == b.ledger && b'.row.receivedAmount == Either(f.receivedAmount, b.row.receivedAmount)
  {
  }

  lemma AdminDisputes(b: Book, admin: Text, directory: Directory, reason: string, now: int)
    ensures var b' := After(b, Dispute(admin, directory, "admin", reason, now));
            b'.ledger == b.ledger && b'.row.receivedAmount == b.row.receivedAmount && b'.row.status == DISPUTED
  {
  }

  lemma RefundPays(b: Book, admin: Text, reason: string, reference: string, now: int)
    requires b.row.status == DISPUTED
    ensures LiabilityBalance(After(b, Resolve(admin, RefundBuyer, reason, reference, now)).ledger) ==
            LiabilityBalance(b.ledger) - AmountOr(b.row.receivedAmount, b.row.amount)
  {
    var ledger := After(b, Resolve(admin, RefundBuyer, reason, reference, now)).ledger;
    assert ledger[..|b.ledger|] == b.ledger && |ledger| == |b.ledger| + 1;
  }

  /** Whatever was paid, and whatever the status, a report of another amount followed by a refund takes exactly the
      reported amount off the liability account. */
  lemma ReviewedRefundPays(b: Book, reported: real, now: int)
    requires reported != 0.0
    ensures DisciplinedRun(b, ReviewedRefund(reported, now))
    ensures LiabilityBalance(Run(b, ReviewedRefund(reported, now)).ledger) == LiabilityBalance(b.ledger) - reported
  {
    var f := Finding(Some(reported), None, [], "payment_amount_mismatch", None, None);
    var review, dispute := Review(f, now), Dispute("admin", Directory(None, None), "admin", "wrong amount", now);
    RunMore(b, [], review);
    assert [] + [review] == [review];
    ReviewReports(b, f, now);
    RunMore(b, [review], dispute);
    AdminDisputes(Run(b, [review]), "admin", Directory(None, None), "wrong amount", now);
    RunMore(b, [review] + [dispute], Resolve("admin", RefundBuyer, "refund", "refund", now));
    RefundPays(Run(b, [review] + [dispute]), "admin", "refund", "refund", now);
  }
}
