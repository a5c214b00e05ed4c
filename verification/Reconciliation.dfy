/** What a verified provider transaction becomes: a funding, or a payment review. */
module Reconciliation {
  import opened Wrappers
  import opened Escrow
  import opened Lifecycle
  import opened Effects
  import opened EventLog
  import opened Invariants
  import opened Quote
  import opened Conservation

  function Abs(x: real): real {
    if x < 0.0 then -x else x
  }

  function Max(x: real, y: real): real {
    if x < y then y else x
  }

  /** `amountsMatch`, test by test. */
  predicate AmountsMatch(expected: real, received: real, base: Option<real>) {
    if RoundHalfUp(expected * 100.0) == RoundHalfUp(received * 100.0) then true
    else if base.Some? && RoundHalfUp(base.value * 100.0) == RoundHalfUp(received * 100.0) then true
    else
      var maxAllowedDiff := Max(expected * 0.05, 500.0);
      Abs(expected - received) <= maxAllowedDiff || (base.Some? && Abs(base.value - received) <= maxAllowedDiff)
  }

  /** Within 5% of the expected amount, or within 500, of the expected or of the base amount. */
  predicate WithinTolerance(expected: real, received: real, base: real) {
    var tolerance := Max(expected * 0.05, 500.0);
    Abs(expected - received) <= tolerance || Abs(base - received) <= tolerance
  }

  /** The two tests on rounded cents decide nothing: the tolerance test already accepts what they accept. */
  lemma CentTestsAreImplied(expected: real, received: real, base: real)
    ensures AmountsMatch(expected, received, Some(base)) <==> WithinTolerance(expected, received, base)
  {
    RoundsToNearest(expected * 100.0);
    RoundsToNearest(received * 100.0);
    RoundsToNearest(base * 100.0);
  }

  /** An amount matches exactly when it is no more than 500, or than a twentieth of the expected amount, away from the
      expected or from the base amount. */
  lemma MatchesExactlyWhen(expected: real, received: real, base: real)
    ensures AmountsMatch(expected, received, Some(base)) <==>
              || expected - 500.0 <= received <= expected + 500.0 || base - 500.0 <= received <= base + 500.0
              || 0.95 * expected <= received <= 1.05 * expected
              || base - 0.05 * expected <= received <= base + 0.05 * expected
  {
    CentTestsAreImplied(expected, received, base);
  }

  /** A transaction as a payment provider reports it. */
  datatype Transaction = Transaction(provider: Text, paymentReference: Text, status: Text, amount: real,
                                     processorFee: Option<real>, payload: Option<Payload>)

  /** The status of the newest row of a reference. */
  function StoredStatus(txns: seq<Txn>, reference: Text): Option<string> {
    if txns == [] then None
    else
      var last := txns[|txns| - 1];
      if last.reference == Some(reference) then Some(last.status) else StoredStatus(txns[..|txns| - 1], reference)
  }

  /** `expectedFundingAmount`; `charge` is what the fee settings charge for this escrow. */
  function ExpectedFunding(row: EscrowRow, charge: real): real {
    PayoutQuoteFor(row.amount, row.currency, row.feePayer, charge).totalWithFee
  }

  function ReviewOf(tx: Transaction, flag: string, reason: string): Finding {
    Finding(Some(tx.amount), Some(tx.status), [flag], reason, Some(tx.paymentReference), Some(tx.provider))
  }

  function ReceiptOf(tx: Transaction): Receipt {
    Receipt(Some(tx.amount), Some(tx.status), Some(tx.provider), tx.processorFee, tx.payload)
  }

  // The four reasons for a review.

  function LateForInstruction(tx: Transaction): Finding {
    ReviewOf(tx, "late_payment_after_expired_instruction",
             "Payment arrived for an expired or inactive payment instruction")
  }

  function LateForEscrow(tx: Transaction): Finding {
    ReviewOf(tx, "late_payment_after_expiry", "Payment arrived after the payment instruction expired")
  }

  function NotConfirmed(tx: Transaction): Finding {
    ReviewOf(tx, tx.provider + "_verification_not_success", tx.provider + " verification returned " + tx.status)
  }

  function Mismatch(tx: Transaction): Finding {
    ReviewOf(tx, "payment_amount_mismatch", "Expected amount not received")
  }

  /** The decision, once the stored status is known, and whether the amount matches. */
  function DecideStored(row: EscrowRow, stored: Option<string>, tx: Transaction, matches: bool, now: int): Command {
    if stored == Some("expired")
       || (row.paymentReference.Some? && row.paymentReference.value != tx.paymentReference)
    then Review(LateForInstruction(tx), now)
    else DecideLive(row, tx, matches, now)
  }

  /** The decision on a live instruction. */
  function DecideLive(row: EscrowRow, tx: Transaction, matches: bool, now: int): Command {
    if row.status == EXPIRED then Review(LateForEscrow(tx), now)
    else if tx.status != "success" then Review(NotConfirmed(tx), now)
    else if !matches then Review(Mismatch(tx), now)
    else Fund(tx.paymentReference, ReceiptOf(tx), now)
  }

  function DecideGiven(row: EscrowRow, txns: seq<Txn>, tx: Transaction, matches: bool, now: int): Command {
    DecideStored(row, StoredStatus(txns, tx.paymentReference), tx, matches, now)
  }

  /** The command that `reconcileEscrowPayment` decides on, on the books it has just refreshed. */
  function Decide(b: Book, tx: Transaction, charge: real, now: int): Command {
    DecideGiven(b.row, b.txns, tx, AmountsMatch(ExpectedFunding(b.row, charge), tx.amount, Some(b.row.amount)), now)
  }

  lemma DecideForms(b: Book, tx: Transaction, charge: real, now: int)
    ensures Decides(tx, Decide(b, tx, charge, now), now)
  {
    DecideGivenForms(b.row, b.txns, tx, AmountsMatch(ExpectedFunding(b.row, charge), tx.amount, Some(b.row.amount)),
                     now);
  }

  /** The two forms of a decision. */
  predicate Decides(tx: Transaction, c: Command, now: int) {
    || c == Fund(tx.paymentReference, ReceiptOf(tx), now)
    || (c.Review? && c.now == now && c.finding.reference == Some(tx.paymentReference))
  }

  lemma DecideGivenForms(row: EscrowRow, txns: seq<Txn>, tx: Transaction, matches: bool, now: int)
    ensures Decides(tx, DecideGiven(row, txns, tx, matches, now), now)
  {
  }

  /** When the decision is to fund: the instruction is live, the transaction confirmed and close enough. */
  lemma DecidesToFundExactlyWhen(b: Book, tx: Transaction, charge: real, now: int)
    ensures Decide(b, tx, charge, now).Fund? <==>
              && Live(b, tx) && tx.status == "success"
              && WithinTolerance(ExpectedFunding(b.row, charge), tx.amount, b.row.amount)
  {
    CentTestsAreImplied(ExpectedFunding(b.row, charge), tx.amount, b.row.amount);
  }

  /** The escrow still waits for, or has got, a payment by this instruction. */
  predicate Live(b: Book, tx: Transaction) {
    && StoredStatus(b.txns, tx.paymentReference) != Some("expired")
    && b.row.paymentReference in {None, Some(tx.paymentReference)}
    && b.row.status != EXPIRED
  }

  /** The transaction is a new payment of this escrow. */
  predicate Fundable(b: Book, tx: Transaction, charge: real) {
    && Live(b, tx)
    && tx.status == "success"
    && WithinTolerance(ExpectedFunding(b.row, charge), tx.amount, b.row.amount)
    && AwaitsPayment(b.row.status)
    && LeadsTo(b, tx.paymentReference)
  }

  /** One funding entry has been added, and the escrow is in progress. */
  predicate Funded(b: Book, b': Book) {
    && |b'.ledger| == |b.ledger| + 1 && b'.ledger[..|b.ledger|] == b.ledger
    && b'.ledger[|b.ledger|].entryType == FundingEntry
    && b'.row.status == IN_PROGRESS
  }

  lemma ReviewKeepsLedger(b: Book, f: Finding, now: int)
    ensures MarkReviewRequired(b, f, now).ledger == b.ledger
  {
  }

  lemma FundingAddsEntry(b: Book, reference: Text, receipt: Receipt, now: int)
    requires AwaitsPayment(b.row.status)
    ensures var b' := MarkFunded(b, reference, receipt, now);
            && Funded(b, b')
            && b'.ledger[|b.ledger|].amount == AmountOr(receipt.amount, b.row.amount)
            && b'.ledger[|b.ledger|].reference == Some(reference)
            && b'.row.receivedAmount == Either(receipt.amount, b.row.receivedAmount)
  {
  }

  /** The one new entry of a funded escrow is for this transaction. */
  predicate BooksTransaction(b: Book, b': Book, tx: Transaction) {
    && Funded(b, b')
    && b'.ledger[|b.ledger|].amount == AmountOr(Some(tx.amount), b.row.amount)
    && b'.ledger[|b.ledger|].reference == Some(tx.paymentReference)
    && b'.row.receivedAmount == Some(tx.amount)
  }

  lemma NewPaymentFunds(b: Book, tx: Transaction, charge: real, now: int)
    requires Fundable(b, tx, charge)
    ensures BooksTransaction(b, After(b, Decide(b, tx, charge, now)), tx)
  {
    DecidesToFundExactlyWhen(b, tx, charge, now);
    var c := Decide(b, tx, charge, now);
    FundingAddsEntry(b, c.reference, c.receipt, now);
  }

  /** A decision that is no payment for the escrow. */
  lemma DecisionKeepsLedger(b: Book, tx: Transaction, c: Command, now: int)
    requires Decides(tx, c, now) && (c.Fund? ==> !AwaitsPayment(b.row.status) || !LeadsTo(b, tx.paymentReference))
    ensures After(b, c).ledger == b.ledger
  {
    if c.Review? {
      ReviewKeepsLedger(b, c.finding, now);
    } else {
      PaymentEnds(b, tx.paymentReference, ReceiptOf(tx), now);
    }
  }

  lemma NothingElseFunds(b: Book, tx: Transaction, charge: real, now: int)
    requires !Fundable(b, tx, charge)
    ensures After(b, Decide(b, tx, charge, now)).ledger == b.ledger
  {
    DecidesToFundExactlyWhen(b, tx, charge, now);
    DecideForms(b, tx, charge, now);
    DecisionKeepsLedger(b, tx, Decide(b, tx, charge, now), now);
  }

  /** A transaction adds a funding entry and puts the escrow in progress exactly when it is a new payment of it; the
      entry then has its amount and its reference, and in every other case the ledger stays as it is. */
  lemma FundsExactlyWhen(b: Book, tx: Transaction, charge: real, now: int)
    ensures var b' := After(b, Decide(b, tx, charge, now));
            && (Funded(b, b') <==> Fundable(b, tx, charge))
            && (Fundable(b, tx, charge) ==> BooksTransaction(b, b', tx))
            && (!Fundable(b, tx, charge) ==> b'.ledger == b.ledger)
  {
    if Fundable(b, tx, charge) {
      NewPaymentFunds(b, tx, charge, now);
    } else {
      NothingElseFunds(b, tx, charge, now);
    }
  }

  /** The newest row of a reference is the one at `k`. */
  ghost predicate NewestAt(txns: seq<Txn>, reference: Text, k: int) {
    && 0 <= k < |txns| && Names(txns[k], reference)
    && forall m :: k < m < |txns| ==> !Names(txns[m], reference)
  }

  ghost predicate RowExpired(txns: seq<Txn>, reference: Text) {
    exists k :: NewestAt(txns, reference, k) && txns[k].status == "expired"
  }

  lemma NewestBefore(txns: seq<Txn>, reference: Text, k: int)
    requires txns != [] && !Names(txns[|txns| - 1], reference)
    ensures NewestAt(txns, reference, k) <==> NewestAt(txns[..|txns| - 1], reference, k)
  {
    var before := txns[..|txns| - 1];
    if NewestAt(before, reference, k) {
      forall m | k < m < |txns| ensures !Names(txns[m], reference) {
        assert m < |before| ==> before[m] == txns[m];
      }
    }
  }

  lemma {:induction false} StoredIsNewest(txns: seq<Txn>, reference: Text)
    ensures forall k :: NewestAt(txns, reference, k) ==> StoredStatus(txns, reference) == Some(txns[k].status)
    ensures StoredStatus(txns, reference).Some? <==> exists k :: NewestAt(txns, reference, k)
  {
    if txns != [] {
      var n := |txns| - 1;
      if Names(txns[n], reference) {
        assert NewestAt(txns, reference, n);
      } else {
        StoredIsNewest(txns[..n], reference);
        forall k ensures NewestAt(txns, reference, k) <==> NewestAt(txns[..n], reference, k) {
          NewestBefore(txns, reference, k);
        }
      }
    }
  }

  lemma ExpiredIsStored(txns: seq<Txn>, reference: Text)
    ensures RowExpired(txns, reference) <==> StoredStatus(txns, reference) == Some("expired")
  {
    StoredIsNewest(txns, reference);
    if StoredStatus(txns, reference).Some? {
      var k :| NewestAt(txns, reference, k);
      assert StoredStatus(txns, reference) == Some(txns[k].status);
    }
  }

  /** The instruction has been replaced, or its row has expired. */
  ghost predicate Inactive(b: Book, tx: Transaction) {
    RowExpired(b.txns, tx.paymentReference) || b.row.paymentReference !in {None, Some(tx.paymentReference)}
  }

  /** The books of a payment put before a human: what was received and what the provider said are on the row, under one
      flag, and no money has moved. */
  predicate PutToReview(b: Book, b': Book, tx: Transaction, flag: string, now: int) {
    && b' == b.(row := b'.row, txns := b'.txns, log := b'.log)
    && b'.row == b.row.(status := REVIEW_REQUIRED, receivedAmount := Some(tx.amount),
                        providerPaymentStatus := Some(tx.status), paymentCheckedAt := Some(now),
                        reconciliationFlags := [flag])
    && RowsGot(b.txns, b'.txns, tx.paymentReference, "review_required", None, Some(Payload(None, 0)))
    && |b'.log| == |b.log| + 1 && b'.log[..|b.log|] == b.log
    && b'.log[|b.log|].eventType == PaymentReviewRequired(Some(tx.amount))
    && b'.log[|b.log|].actor == tx.provider && b'.log[|b.log|].nextStatus == Some(REVIEW_REQUIRED)
  }

  lemma ReviewPuts(b: Book, tx: Transaction, flag: string, reason: string, now: int)
    ensures PutToReview(b, After(b, Review(ReviewOf(tx, flag, reason), now)), tx, flag, now)
  {
    ReviewWrites(b, ReviewOf(tx, flag, reason), now);
  }

  /** What a reported transaction is put before a human for: the first of four reasons that applies. */
  ghost function FlagFor(b: Book, tx: Transaction, within: bool): Option<string> {
    if Inactive(b, tx) then Some("late_payment_after_expired_instruction")
    else if b.row.status == EXPIRED then Some("late_payment_after_expiry")
    else if tx.status != "success" then Some(tx.provider + "_verification_not_success")
    else if !within then Some("payment_amount_mismatch")
    else None
  }

  /** What a reported transaction comes to: a review under its flag, or, without one, a payment of the amount and the
      status reported. */
  ghost predicate EndsAs(b: Book, b': Book, tx: Transaction, flag: Option<string>, now: int) {
    match flag
    case Some(f) => PutToReview(b, b', tx, f, now)
    case None =>
      b' == After(b, Fund(tx.paymentReference, Receipt(Some(tx.amount), Some(tx.status), Some(tx.provider),
                                                       tx.processorFee, tx.payload), now))
  }

  lemma FlagGiven(b: Book, tx: Transaction, matches: bool, now: int)
    ensures var c, flag := DecideGiven(b.row, b.txns, tx, matches, now), FlagFor(b, tx, matches);
            if flag.Some? then c.Review? && c == Review(ReviewOf(tx, flag.value, c.finding.reason), now)
            else c == Fund(tx.paymentReference, ReceiptOf(tx), now)
  {
    ExpiredIsStored(b.txns, tx.paymentReference);
    assert Inactive(b, tx) <==>
             || StoredStatus(b.txns, tx.paymentReference) == Some("expired")
             || (b.row.paymentReference.Some? && b.row.paymentReference.value != tx.paymentReference);
  }

  lemma GivenEnds(b: Book, tx: Transaction, matches: bool, now: int)
    ensures EndsAs(b, After(b, DecideGiven(b.row, b.txns, tx, matches, now)), tx, FlagFor(b, tx, matches), now)
  {
    var c, flag := DecideGiven(b.row, b.txns, tx, matches, now), FlagFor(b, tx, matches);
    FlagGiven(b, tx, matches, now);
    if flag.Some? {
      ReviewPuts(b, tx, flag.value, c.finding.reason, now);
    }
  }

  /** The amount is right when it is within tolerance of the quoted total or of the escrow's amount. */
  lemma ReconciliationEnds(b: Book, tx: Transaction, charge: real, now: int)
    ensures var asked := PayoutQuoteFor(b.row.amount, b.row.currency, b.row.feePayer, charge).totalWithFee;
            EndsAs(b, After(b, Decide(b, tx, charge, now)), tx,
                   FlagFor(b, tx, WithinTolerance(asked, tx.amount, b.row.amount)), now)
  {
    CentTestsAreImplied(ExpectedFunding(b.row, charge), tx.amount, b.row.amount);
    GivenEnds(b, tx, AmountsMatch(ExpectedFunding(b.row, charge), tx.amount, Some(b.row.amount)), now);
  }

  lemma {:induction false} RestatusedIsNotExpired(txns: seq<Txn>, reference: Text, status: string, fee: Option<real>,
                                                  payload: Option<Payload>)
    requires status in {"success", "review_required"}
    ensures StoredStatus(RestatusAll(txns, reference, status, fee, payload), reference) != Some("expired")
  {
    if txns != [] {
      var before := txns[..|txns| - 1];
      var after := RestatusAll(txns, reference, status, fee, payload);
      assert after[..|after| - 1] == RestatusAll(before, reference, status, fee, payload);
      assert status[0] != "expired"[0];
      RestatusedIsNotExpired(before, reference, status, fee, payload);
    }
  }

  lemma StillCarries(b: Book, reference: Text, receipt: Receipt, now: int)
    requires Carries(b, reference)
    ensures Carries(MarkFunded(b, reference, receipt, now), reference)
  {
    var b' := MarkFunded(b, reference, receipt, now);
    if b.row.paymentReference != Some(reference) {
      var i :| 0 <= i < |b.txns| && b.txns[i].reference == Some(reference);
      assert b'.txns[i].reference == Some(reference);
    }
  }

  /** A transaction that has funded the escrow and is reported again is a payment of it still, and changes nothing, at
      whatever time. */
  lemma RetryChangesNothing(b: Book, tx: Transaction, charge: real, now: int, later: int)
    requires Fundable(b, tx, charge)
    ensures var b' := After(b, Decide(b, tx, charge, now));
            After(b', Decide(b', tx, charge, later)) == b' && Carries(b', tx.paymentReference)
  {
    var b', c := After(b, Decide(b, tx, charge, now)), Decide(b, tx, charge, now);
    FundsExactlyWhen(b, tx, charge, now);
    DecidesToFundExactlyWhen(b, tx, charge, now);
    RestatusedIsNotExpired(b.txns, tx.paymentReference, "success", tx.processorFee, tx.payload);
    DecidesToFundExactlyWhen(b', tx, charge, later);
    StillCarries(b, tx.paymentReference, c.receipt, now);
  }

  /** Where funding calls come from: a reconciliation, the sandbox route with the quoted total,
      or the balance route with the bare amount. */
  ghost predicate Gated(b: Book, c: Command, charge: real) {
    c.Fund? ==>
      || (exists tx: Transaction :: c == Decide(b, tx, charge, c.now))
      || c.receipt.amount == Some(ExpectedFunding(b.row, charge))
      || c.receipt.amount == Some(b.row.amount)
  }

  ghost predicate GatedRun(b: Book, cs: seq<Command>, charge: real) {
    cs == [] || (GatedRun(b, cs[..|cs| - 1], charge) && Gated(Run(b, cs[..|cs| - 1]), cs[|cs| - 1], charge))
  }

  predicate PaymentsWithin(b: Book, charge: real) {
    forall i :: 0 <= i < |b.log| && b.log[i].eventType.PaymentVerified? ==>
      WithinTolerance(ExpectedFunding(b.row, charge), AmountOr(b.log[i].eventType.amount, b.row.amount), b.row.amount)
  }

  lemma GatedAmount(b: Book, c: Command, charge: real)
    requires c.Fund? && Gated(b, c, charge)
    ensures WithinTolerance(ExpectedFunding(b.row, charge), AmountOr(c.receipt.amount, b.row.amount), b.row.amount)
  {
    if tx: Transaction :| c == Decide(b, tx, charge, c.now) {
      CentTestsAreImplied(ExpectedFunding(b.row, charge), tx.amount, b.row.amount);
    }
  }

  /** Only a funding call logs a verified payment, with the amount it was called with. */
  lemma PaymentsComeFromFunding(b: Book, c: Command)
    requires |After(b, c).log| > |b.log| && After(b, c).log[|b.log|].eventType.PaymentVerified?
    ensures c.Fund? && After(b, c).log[|b.log|].eventType.amount == c.receipt.amount
  {
    StepLogsItsOwn(b, c);
    assert Carries(b, c.reference);
  }

  lemma {:induction false} PaymentsAlwaysWithin(id: string, input: NewEscrow, t0: int, cs: seq<Command>, charge: real)
    requires DisciplinedRun(Create(id, input, t0), cs) && GatedRun(Create(id, input, t0), cs, charge)
    ensures PaymentsWithin(Run(Create(id, input, t0), cs), charge)
  {
    if cs != [] {
      var before, c := Run(Create(id, input, t0), cs[..|cs| - 1]), cs[|cs| - 1];
      PaymentsAlwaysWithin(id, input, t0, cs[..|cs| - 1], charge);
      StepShape(before, c);
      var after := After(before, c);
      if Logs(before, after) && after.log[|before.log|].eventType.PaymentVerified? {
        PaymentsComeFromFunding(before, c);
        GatedAmount(before, c, charge);
      }
      PaymentsStayWithin(before, after, charge);
    }
  }

  lemma PaymentsStayWithin(b: Book, b': Book, charge: real)
    requires PaymentsWithin(b, charge) && Shaped(b, b')
    requires Logs(b, b') && b'.log[|b.log|].eventType.PaymentVerified? ==>
               WithinTolerance(ExpectedFunding(b.row, charge), AmountOr(b'.log[|b.log|].eventType.amount, b.row.amount),
                               b.row.amount)
    ensures PaymentsWithin(b', charge)
  {
    forall i | 0 <= i < |b'.log| && b'.log[i].eventType.PaymentVerified?
      ensures WithinTolerance(ExpectedFunding(b'.row, charge), AmountOr(b'.log[i].eventType.amount, b'.row.amount),
                              b'.row.amount)
    {
      if i < |b.log| {
        assert b'.log[i] == b'.log[..|b.log|][i] == b.log[i];
      }
    }
  }

  /** Every funding posting of a log is one of its payments. */
  lemma {:induction false} FundingIsPayment(t: Terms, log: seq<Event>, p: Posting)
    requires p in ReplayLedger(t, log) && p.entryType == FundingEntry
    ensures exists i | 0 <= i < |log| ::
              log[i].eventType.PaymentVerified? && AmountOr(log[i].eventType.amount, t.amount) == p.amount
  {
    var before, last := log[..|log| - 1], log[|log| - 1];
    if p in ReplayLedger(t, before) {
      FundingIsPayment(t, before, p);
      var i :| 0 <= i < |before| && before[i].eventType.PaymentVerified?
          && AmountOr(before[i].eventType.amount, t.amount) == p.amount;
      assert log[i] == before[i];
    }
  }

  lemma {:induction false} EntryIsPosted(ledger: seq<LedgerEntry>, m: nat)
    requires m < |ledger|
    ensures PostingOf(ledger[m]) in Postings(ledger)
  {
    if m < |ledger| - 1 {
      EntryIsPosted(ledger[..|ledger| - 1], m);
    }
  }

  /** In every run whose fundings come through the gate, every funding entry is within tolerance. */
  lemma {:induction false} FundingWithinTolerance(id: string, input: NewEscrow, t0: int, cs: seq<Command>, charge: real,
                                                  m: nat)
    requires DisciplinedRun(Create(id, input, t0), cs) && GatedRun(Create(id, input, t0), cs, charge)
    requires var b := Run(Create(id, input, t0), cs); m < |b.ledger| && b.ledger[m].entryType == FundingEntry
    ensures var b := Run(Create(id, input, t0), cs);
            WithinTolerance(ExpectedFunding(b.row, charge), b.ledger[m].amount, b.row.amount)
  {
    InvAlways(id, input, t0, cs);
    PaymentsAlwaysWithin(id, input, t0, cs, charge);
    var b := Run(Create(id, input, t0), cs);
    EntryIsPosted(b.ledger, m);
    FundingIsPayment(TermsOf(b), b.log, PostingOf(b.ledger[m]));
  }

  /** Paid once, at `i`, and released once by an approval, the command at `k`, called with the quote of a whole-unit
      amount and fee. */
  ghost predicate WholeQuotedRelease(b: Book, cs: seq<Command>, charge: real, i: nat, k: nat) {
    && ApprovesQuoteAt(b, cs, k, charge) && PaidOnceSettledOnce(Run(b, cs).log, i, EventOf(b, cs, k))
    && OnGrid(b.row.currency, b.row.amount) && OnGrid(b.row.currency, NonNegative(charge))
  }

  /** At most the tolerance and the buyer's share of the fee, and what the quote would have the seller pay, if
      anything. */
  predicate SmallResidue(b: Book, charge: real) {
    var q := QuoteOf(b.row, charge);
    Abs(LiabilityBalance(b.ledger)) <=
    Max(q.totalWithFee * 0.05, 500.0) + (q.totalWithFee - b.row.amount) + NonNegative(-q.sellerNetAmount)
  }

  lemma ResidueOf(b: Book, charge: real, i: nat, j: nat)
    requires Inv(b) && PaymentsWithin(b, charge) && PaidOnceSettledOnce(b.log, i, j)
    requires ReleasedWith(b.log[j], QuoteOf(b.row, charge))
    requires OnGrid(b.row.currency, b.row.amount) && OnGrid(b.row.currency, NonNegative(charge))
    ensures SmallResidue(b, charge)
  {
    BalanceOfTwo(b, i, j);
    QuotedResidue(b.row, charge, AmountOr(b.log[i].eventType.amount, b.row.amount));
  }

  /** What a release of a gated, once-funded escrow can leave behind, for whole-unit amounts and fees. */
  lemma {:induction false} ReleaseResidue(id: string, input: NewEscrow, t0: int, cs: seq<Command>, charge: real, i: nat,
                                          k: nat)
    requires DisciplinedRun(Create(id, input, t0), cs) && GatedRun(Create(id, input, t0), cs, charge)
    requires WholeQuotedRelease(Create(id, input, t0), cs, charge, i, k)
    ensures SmallResidue(Run(Create(id, input, t0), cs), charge)
  {
    var b0 := Create(id, input, t0);
    InvAlways(id, input, t0, cs);
    PaymentsAlwaysWithin(id, input, t0, cs, charge);
    QuoteIsLogged(b0, cs, k, charge);
    RunKeepsLog(b0, cs, 0);
    assert cs[..0] == [];
    ResidueOf(Run(b0, cs), charge, i, EventOf(b0, cs, k));
  }

  lemma QuotedResidue(row: EscrowRow, charge: real, paid: real)
    requires OnGrid(row.currency, row.amount) && OnGrid(row.currency, NonNegative(charge))
    requires WithinTolerance(ExpectedFunding(row, charge), paid, row.amount)
    ensures var q := PayoutQuoteFor(row.amount, row.currency, row.feePayer, charge);
            Abs(paid - NonNegative(q.sellerNetAmount) - q.platformFeeAmount) <=
            Max(q.totalWithFee * 0.05, 500.0) + (q.totalWithFee - row.amount) + NonNegative(-q.sellerNetAmount)
  {
    WholeQuote(row.amount, row.currency, row.feePayer, charge);
  }
}
