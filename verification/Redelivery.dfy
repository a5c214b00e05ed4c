/** A payment transaction that is reported more than once: webhooks are repeated, and nothing remembers them. */
module Redelivery {
  import opened Wrappers
  import opened Escrow
  import opened Lifecycle
  import opened Effects
  import opened Invariants
  import opened Conservation
  import opened Tables
  import opened Reconciliation
  import opened EscrowService

  /** The provider has confirmed the payment, with an amount within tolerance. */
  predicate Confirmed(b: Book, tx: Transaction, charge: real) {
    tx.status == "success" && WithinTolerance(ExpectedFunding(b.row, charge), tx.amount, b.row.amount)
  }

  /** The books after a report of a transaction. */
  function Reported(b: Book, tx: Transaction, charge: real, now: int): Book {
    After(b, Decide(b, tx, charge, now))
  }

  // ----- what a run leaves of an escrow -----

  predicate OnRow(b: Book, r: Text) {
    exists i :: 0 <= i < |b.txns| && b.txns[i].reference == Some(r)
  }

  predicate SameTerms(b: Book, b': Book) {
    b'.row.amount == b.row.amount && b'.row.currency == b.row.currency && b'.row.feePayer == b.row.feePayer
  }

  lemma StepKeeps(b: Book, c: Command, r: Text)
    requires Disciplined(b, c)
    ensures SameTerms(b, After(b, c)) && (OnRow(b, r) ==> OnRow(After(b, c), r))
  {
    StepShape(b, c);
    StepReferences(b, c);
    if OnRow(b, r) {
      var i :| 0 <= i < |b.txns| && b.txns[i].reference == Some(r);
      assert After(b, c).txns[i].reference == Some(r);
    }
  }

  lemma {:induction false} RunKeeps(b: Book, cs: seq<Command>, r: Text)
    requires DisciplinedRun(b, cs)
    ensures SameTerms(b, Run(b, cs)) && (OnRow(b, r) ==> OnRow(Run(b, cs), r))
  {
    if cs != [] {
      RunKeeps(b, cs[..|cs| - 1], r);
      StepKeeps(Run(b, cs[..|cs| - 1]), cs[|cs| - 1], r);
    }
  }

  lemma {:induction false} RunConcat(b: Book, cs: seq<Command>, ds: seq<Command>)
    requires DisciplinedRun(b, cs) && DisciplinedRun(Run(b, cs), ds)
    ensures DisciplinedRun(b, cs + ds) && Run(b, cs + ds) == Run(Run(b, cs), ds)
  {
    if ds == [] {
      assert cs + ds == cs;
    } else {
      var before := ds[..|ds| - 1];
      RunConcat(b, cs, before);
      RunMore(b, cs + before, ds[|ds| - 1]);
      assert cs + ds == cs + before + [ds[|ds| - 1]];
    }
  }

  lemma DecisionIsDisciplined(b: Book, tx: Transaction, charge: real, now: int)
    ensures Disciplined(b, Decide(b, tx, charge, now))
  {
    DecideForms(b, tx, charge, now);
  }

  /** A refresh is a run of its own. */
  lemma RefreshIsRun(b: Book, r: Refresh, charge: real, now: int) returns (cs: seq<Command>)
    ensures DisciplinedRun(b, cs) && Run(b, cs) == Refreshed(b, r, charge, now)
  {
    cs := [];
    if !r.Skipped? {
      RunMore(b, cs, Expire(now));
      cs := cs + [Expire(now)];
      var swept := Run(b, cs);
      if !EndsEarly(swept.row, r) {
        var tx := EscrowService.Reported(swept.row, r);
        if tx.Some? {
          DecisionIsDisciplined(swept, tx.value, charge, now);
          RunMore(b, cs, Decide(swept, tx.value, charge, now));
          cs := cs + [Decide(swept, tx.value, charge, now)];
        }
        if ReminderDue(Run(b, cs).row, r, now) {
          RunMore(b, cs, Remind(now));
          cs := cs + [Remind(now)];
        }
      }
    }
  }

  lemma ActiveStaysOnRow(b: Book, c: Command)
    requires b.row.paymentReference.Some? ==> OnRow(b, b.row.paymentReference.value)
    requires Disciplined(b, c)
    ensures var row := After(b, c).row; row.paymentReference.Some? ==> OnRow(After(b, c), row.paymentReference.value)
  {
    StepReferences(b, c);
    var b' := After(b, c);
    if c.Attach? {
      assert b'.txns[|b'.txns| - 1].reference == b'.row.paymentReference;
    } else if b'.row.paymentReference.Some? {
      StepKeeps(b, c, b'.row.paymentReference.value);
    }
  }

  /** In every run the active payment reference is on a transaction row. */
  lemma {:induction false} ActiveIsOnRow(id: string, input: NewEscrow, t0: int, cs: seq<Command>)
    requires DisciplinedRun(Create(id, input, t0), cs)
    ensures var b := Run(Create(id, input, t0), cs);
            b.row.paymentReference.Some? ==> OnRow(b, b.row.paymentReference.value)
  {
    if cs != [] {
      ActiveIsOnRow(id, input, t0, cs[..|cs| - 1]);
      ActiveStaysOnRow(Run(Create(id, input, t0), cs[..|cs| - 1]), cs[|cs| - 1]);
    }
  }

  // ----- the first payment -----

  predicate SaysPaid(t: Txn, reference: Text) {
    Names(t, reference) && t.status == "success"
  }

  /** In every run that ends pending payment under an active reference, a payment by that reference puts the escrow in
      progress, with one event, one funding entry and its amount on the liability account; and a row of the reference
      says that it has been paid. */
  lemma {:induction false} FirstPaymentIsBooked(id: string, input: NewEscrow, t0: int, cs: seq<Command>,
                                                reference: Text, receipt: Receipt, now: int)
    requires DisciplinedRun(Create(id, input, t0), cs)
    requires var row := Run(Create(id, input, t0), cs).row;
             row.status == PENDING_PAYMENT && row.paymentReference == Some(reference)
    ensures var b := Run(Create(id, input, t0), cs);
            var b' := After(b, Fund(reference, receipt, now));
            && BookedAs(b, b', reference, receipt, now)
            && LiabilityBalance(b'.ledger) == LiabilityBalance(b.ledger) + PaidIn(b.row, receipt)
            && exists k :: 0 <= k < |b'.txns| && SaysPaid(b'.txns[k], reference)
  {
    var b := Run(Create(id, input, t0), cs);
    PaymentIsBookedExactlyWhen(id, input, t0, cs, reference, receipt, now);
    ActiveIsOnRow(id, input, t0, cs);
    var k :| 0 <= k < |b.txns| && b.txns[k].reference == Some(reference);
    assert SaysPaid(After(b, Fund(reference, receipt, now)).txns[k], reference);
  }

  // ----- the next report -----

  lemma ReviewLogs(b: Book, f: Finding, now: int)
    ensures |MarkReviewRequired(b, f, now).log| == |b.log| + 1
  {
  }

  /** What a report of a confirmed payment does: nothing, if the instruction is live and the status is on the skip list;
      it funds the escrow, if the instruction is live and the status is not; and else it is a review. */
  predicate ActsByStatus(m: Book, m': Book, tx: Transaction) {
    && (m' == m <==> Live(m, tx) && !AwaitsPayment(m.row.status))
    && (Funded(m, m') <==> Live(m, tx) && AwaitsPayment(m.row.status))
    && (!Live(m, tx) ==> m'.row.status == REVIEW_REQUIRED && m'.ledger == m.ledger)
  }

  lemma ConfirmedReport(m: Book, tx: Transaction, charge: real, now: int)
    requires Confirmed(m, tx, charge) && Carries(m, tx.paymentReference)
    ensures ActsByStatus(m, Reported(m, tx, charge, now), tx)
  {
    FundsExactlyWhen(m, tx, charge, now);
    DecidesToFundExactlyWhen(m, tx, charge, now);
    var c := Decide(m, tx, charge, now);
    DecideForms(m, tx, charge, now);
    if c.Review? {
      ReviewLogs(m, c.finding, now);
    }
  }

  /** After a first report, funded or reviewed, and any commands since: what the next reconciliation finds. */
  function FoundAgain(b: Book, tx: Transaction, charge: real, now: int, cs: seq<Command>, r: Refresh,
                      later: int): Book
  {
    Refreshed(Run(Reported(b, tx, charge, now), cs), r, charge, later)
  }

  lemma FoundAgainKeeps(b: Book, tx: Transaction, charge: real, now: int, cs: seq<Command>, r: Refresh, later: int)
    requires DisciplinedRun(Reported(b, tx, charge, now), cs)
    ensures var m := FoundAgain(b, tx, charge, now, cs, r, later);
            SameTerms(b, m) && (OnRow(b, tx.paymentReference) ==> OnRow(m, tx.paymentReference))
  {
    var first := Reported(b, tx, charge, now);
    DecisionIsDisciplined(b, tx, charge, now);
    StepKeeps(b, Decide(b, tx, charge, now), tx.paymentReference);
    RunKeeps(first, cs, tx.paymentReference);
    var ds := RefreshIsRun(Run(first, cs), r, charge, later);
    RunKeeps(Run(first, cs), ds, tx.paymentReference);
  }

  /** After the first report of a confirmed payment of the escrow, and any commands, the second acts by status. */
  ghost predicate SecondReportActs(b: Book, tx: Transaction, charge: real, now: int, cs: seq<Command>, r: Refresh,
                                   later: int)
  {
    Confirmed(b, tx, charge) && Carries(b, tx.paymentReference) && DisciplinedRun(Reported(b, tx, charge, now), cs) ==>
      var m := FoundAgain(b, tx, charge, now, cs, r, later);
      ActsByStatus(m, Reported(m, tx, charge, later), tx)
  }

  /** A confirmed payment of an escrow, in any run, is reported; then any commands follow, and the transaction is
      reconciled again, after any refresh. That changes nothing exactly when its instruction is still live and the
      status is on the skip list, and it posts a funding entry, again if the first report did, exactly when the
      instruction is live and the status is not on the list. */
  lemma {:induction false} SecondReportExactlyWhen(id: string, input: NewEscrow, t0: int, cs0: seq<Command>,
                                                   tx: Transaction, charge: real, now: int, cs: seq<Command>,
                                                   r: Refresh, later: int)
    requires DisciplinedRun(Create(id, input, t0), cs0)
    ensures SecondReportActs(Run(Create(id, input, t0), cs0), tx, charge, now, cs, r, later)
  {
    var b := Run(Create(id, input, t0), cs0);
    ActiveIsOnRow(id, input, t0, cs0);
    if Confirmed(b, tx, charge) && Carries(b, tx.paymentReference) && DisciplinedRun(Reported(b, tx, charge, now), cs) {
      assert OnRow(b, tx.paymentReference);
      FoundAgainKeeps(b, tx, charge, now, cs, r, later);
      ConfirmedReport(FoundAgain(b, tx, charge, now, cs, r, later), tx, charge, later);
    }
  }

  // ----- two inputs -----

  lemma DeliveryKeeps(b: Book, actor: Text, channel: string, summary: string, days: int, t: int, r: Refresh,
                      charge: real, later: int)
    requires b.row.status == IN_PROGRESS
    ensures var m := After(b, Deliver(actor, channel, summary, days, t));
            && m.row.status == DELIVERED && m.ledger == b.ledger && m.txns == b.txns
            && m.row.paymentReference == b.row.paymentReference && SameTerms(b, m)
            && Refreshed(m, r, charge, later) == m
  {
  }

  /** Two funding entries of one amount have been added. */
  predicate FundedTwice(b: Book, b': Book) {
    && |b'.ledger| == |b.ledger| + 2
    && b'.ledger[|b.ledger|].entryType == FundingEntry == b'.ledger[|b.ledger| + 1].entryType
    && b'.ledger[|b.ledger|].amount == b'.ledger[|b.ledger| + 1].amount
  }

  lemma SecondFunding(b: Book, first: Book, m: Book, tx: Transaction, charge: real, later: int)
    requires BooksTransaction(b, first, tx) && m.ledger == first.ledger && SameTerms(b, m)
    requires Fundable(m, tx, charge)
    ensures FundedTwice(b, Reported(m, tx, charge, later)) && Reported(m, tx, charge, later).row.status == IN_PROGRESS
  {
    FundsExactlyWhen(m, tx, charge, later);
    var m' := Reported(m, tx, charge, later);
    assert m'.ledger[|b.ledger|] == m'.ledger[..|m.ledger|][|b.ledger|] == m.ledger[|b.ledger|];
  }

  /** The list omits DELIVERED: a payment that funds an escrow, and is reported again once the seller has delivered,
      funds it a second time and puts it back in progress, whatever the payment, the escrow and the refresh. */
  lemma DeliveredIsFundedTwice(b: Book, tx: Transaction, charge: real, now: int, actor: Text, channel: string,
                               summary: string, days: int, t: int, r: Refresh, later: int)
    requires Fundable(b, tx, charge)
    ensures var m := FoundAgain(b, tx, charge, now, [Deliver(actor, channel, summary, days, t)], r, later);
            && m.row.status == DELIVERED
            && FundedTwice(b, Reported(m, tx, charge, later))
               && Reported(m, tx, charge, later).row.status == IN_PROGRESS
  {
    var first, deliver := Reported(b, tx, charge, now), Deliver(actor, channel, summary, days, t);
    FundsExactlyWhen(b, tx, charge, now);
    DeliveryKeeps(first, actor, channel, summary, days, t, r, charge, later);
    RunMore(first, [], deliver);
    assert [] + [deliver] == [deliver];
    var m := After(first, deliver);
    assert FoundAgain(b, tx, charge, now, [deliver], r, later) == m;
    FirstReportKeepsTerms(b, tx, charge, now);
    LiveAfterFunding(b, tx, charge, now);
    DeliveredIsFundable(b, first, m, tx, charge);
    SecondFunding(b, first, m, tx, charge, later);
  }

  lemma DeliveredIsFundable(b: Book, first: Book, m: Book, tx: Transaction, charge: real)
    requires Confirmed(b, tx, charge) && SameTerms(b, m) && Live(first, tx) && Carries(first, tx.paymentReference)
    requires m.txns == first.txns && m.row.paymentReference == first.row.paymentReference && m.row.status == DELIVERED
    ensures Fundable(m, tx, charge)
  {
  }

  lemma FirstReportKeepsTerms(b: Book, tx: Transaction, charge: real, now: int)
    ensures SameTerms(b, Reported(b, tx, charge, now))
  {
    DecisionIsDisciplined(b, tx, charge, now);
    StepKeeps(b, Decide(b, tx, charge, now), tx.paymentReference);
  }

  /** Funding leaves the instruction live. */
  lemma LiveAfterFunding(b: Book, tx: Transaction, charge: real, now: int)
    requires Fundable(b, tx, charge)
    ensures var first := Reported(b, tx, charge, now); Live(first, tx) && Carries(first, tx.paymentReference)
  {
    FundsExactlyWhen(b, tx, charge, now);
    DecidesToFundExactlyWhen(b, tx, charge, now);
    DecideForms(b, tx, charge, now);
    RestatusedIsNotExpired(b.txns, tx.paymentReference, "success", tx.processorFee, tx.payload);
    StillCarries(b, tx.paymentReference, ReceiptOf(tx), now);
  }

  lemma ReviewLeavesLive(b: Book, f: Finding, tx: Transaction, now: int, r: Refresh, charge: real, later: int)
    requires f.reference == Some(tx.paymentReference)
    ensures var first := MarkReviewRequired(b, f, now);
            && first.row.status == REVIEW_REQUIRED && Refreshed(first, r, charge, later) == first
            && (Live(first, tx) <==> b.row.paymentReference in {None, Some(tx.paymentReference)})
            && (Carries(first, tx.paymentReference) <==> Carries(b, tx.paymentReference))
  {
    RestatusedIsNotExpired(b.txns, tx.paymentReference, "review_required", None, Some(NO_DATES));
    RestatusKeepsReferences(b.txns, tx.paymentReference, "review_required", None, Some(NO_DATES));
  }

  lemma RestatusKeepsReferences(txns: seq<Txn>, reference: Text, status: string, fee: Option<real>,
                                payload: Option<Payload>)
    ensures var txns' := RestatusAll(txns, reference, status, fee, payload);
            |txns'| == |txns| && forall i :: 0 <= i < |txns| ==> txns'[i].reference == txns[i].reference
  {
  }

  lemma FundableOnSameTerms(b: Book, m: Book, tx: Transaction, charge: real)
    requires SameTerms(b, m) && m.row.status == REVIEW_REQUIRED
    requires Live(m, tx) <==> b.row.paymentReference in {None, Some(tx.paymentReference)}
    requires Carries(m, tx.paymentReference) <==> Carries(b, tx.paymentReference)
    ensures Fundable(m, tx, charge) <==> RetryFunds(b, tx, charge)
  {
  }

  /** Confirmed, carried, and not replaced by another active instruction. */
  predicate RetryFunds(b: Book, tx: Transaction, charge: real) {
    && Confirmed(b, tx, charge) && Carries(b, tx.paymentReference)
    && b.row.paymentReference in {None, Some(tx.paymentReference)}
  }

  lemma ReviewedReport(b: Book, tx: Transaction, charge: real, now: int)
    requires Decide(b, tx, charge, now).Review?
    ensures var f := Decide(b, tx, charge, now).finding;
            f.reference == Some(tx.paymentReference) && Reported(b, tx, charge, now) == MarkReviewRequired(b, f, now)
  {
    DecideForms(b, tx, charge, now);
  }

  /** A report that goes to review overwrites the row's `expired`: reported once more, after any refresh, the same
      transaction funds the escrow exactly when it is confirmed, carried, and not replaced by another active
      instruction. A late payment put before a human is thus funded by the provider's retry. */
  lemma ReviewedIsFundedByRetryExactlyWhen(b: Book, tx: Transaction, charge: real, now: int, r: Refresh, later: int)
    requires Decide(b, tx, charge, now).Review?
    ensures var m := FoundAgain(b, tx, charge, now, [], r, later);
            && m.row.status == REVIEW_REQUIRED
            && (Funded(m, Reported(m, tx, charge, later)) <==> RetryFunds(b, tx, charge))
  {
    var f := Decide(b, tx, charge, now).finding;
    var first := MarkReviewRequired(b, f, now);
    ReviewedReport(b, tx, charge, now);
    ReviewLeavesLive(b, f, tx, now, r, charge, later);
    FirstReportKeepsTerms(b, tx, charge, now);
    FundableOnSameTerms(b, first, tx, charge);
    FundsExactlyWhen(first, tx, charge, later);
    assert FoundAgain(b, tx, charge, now, [], r, later) == first;
  }
}
