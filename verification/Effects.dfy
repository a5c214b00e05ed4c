/** What each store operation does, seen from outside: when it goes through, when it is refused, and what it leaves in
    the row, the transactions, the ledger and the log. Every figure, status and guard is written out here. */
module Effects {
  import opened Wrappers
  import opened Escrow
  import opened Lifecycle

  // ----- what the statements below share -----

  /** The transaction row names the reference. */
  predicate Names(t: Txn, reference: Text) {
    t.reference == Some(reference)
  }

  /** The rows of a reference have got a status, and a fee and a payload if given; no other row has changed. */
  predicate RowsGot(txns: seq<Txn>, txns': seq<Txn>, reference: Text, status: string, fee: Option<real>,
                    payload: Option<Payload>)
  {
    && |txns'| == |txns|
    && forall k :: 0 <= k < |txns| ==>
         txns'[k] ==
         if !Names(txns[k], reference) then txns[k]
         else txns[k].(status := status, processorFee := if fee.None? then txns[k].processorFee else fee,
                       payload := if payload.None? then txns[k].payload else payload)
  }

  /** Verified, with a strong or medium name match, and not shared. */
  predicate PayoutCleared(payout: Option<PayoutAccount>) {
    payout.Some? && payout.value.verified && payout.value.nameMatch in {Some(Strong), Some(Medium)}
      && !payout.value.shared
  }

  /** What a payout account that is not cleared is refused for, the first reason first. */
  predicate PayoutRefused(payout: Option<PayoutAccount>, error: Error) {
    match error
    case PayoutAccountNotVerified => payout.Some? ==> !payout.value.verified
    case PayoutNameMatchTooWeak =>
      payout.Some? && payout.value.verified && payout.value.nameMatch in {None, Some(Weak), Some(Lifecycle.Failed)}
    case PayoutAccountShared =>
      payout.Some? && payout.value.verified && payout.value.nameMatch in {Some(Strong), Some(Medium)}
        && payout.value.shared
    case _ => false
  }

  lemma PayoutErrorIsRefusal(payout: Option<PayoutAccount>, e: Error)
    ensures PayoutError(payout).None? <==> PayoutCleared(payout)
    ensures PayoutError(payout) == Some(e) <==> PayoutRefused(payout, e)
  {
    if payout.Some? && payout.value.nameMatch.Some? {
      match payout.value.nameMatch.value
      case Strong =>
      case Medium =>
      case Weak =>
      case Failed =>
    }
  }

  /** Nothing but spaces, tabs, line and page breaks, no-break spaces and byte order marks. */
  predicate NoText(s: string) {
    forall i :: 0 <= i < |s| ==>
      s[i] == ' ' || s[i] == '\t' || s[i] == '\n' || s[i] == '\r' || s[i] == '\U{000B}' || s[i] == '\U{000C}'
      || s[i] == '\U{00A0}' || s[i] == '\U{FEFF}'
  }

  // ----- creation, instructions, acceptance -----

  lemma CreationWrites(id: string, input: NewEscrow, now: int)
    ensures var b, invited := Create(id, input, now), input.sellerUserId.None?;
            && b.id == id && b.txns == [] && b.ledger == []
            && b.row.amount == input.amount && b.row.currency == input.currency
            && b.row.feePayer == (if input.feePayer.None? then BuyerPays else input.feePayer.value)
            && b.row.sellerUserId == input.sellerUserId && b.row.sellerWhatsapp == input.sellerWhatsapp
            && b.row.status == (if invited then PENDING_PROFILE else PENDING_ACCEPTANCE)
            && b.row.paymentReference == b.row.paymentProvider == b.row.manualPayoutReference == b.row.releasedBy
               == b.row.providerPaymentStatus == b.row.payoutNotes == None
            && b.row.fundingExpiresAt == b.row.activePaymentExpiresAt == None && b.row.receivedAmount == None
            && b.row.lastPaymentReminderAt == b.row.paymentCheckedAt == b.row.releaseRequestedAt == b.row.deliveredAt
               == b.row.inspectionExpiresAt == b.row.releasedAt == None
            && b.row.paymentRegenerationCount == 0 && b.row.reconciliationFlags == []
            && b.log == [Event(input.buyerUserId, "buyer", input.createdByChannel, None, Some(b.row.status),
                               EscrowCreated, if input.purpose == "" then None else Some(input.purpose), now)]
  {
  }

  /** The row of a new payment instruction: a deadline given replaces the stored one, the instruction's own deadline is
      the one given or else the one in its metadata, and only a regeneration is counted. */
  lemma InstructionSetsRow(b: Book, i: Instruction, now: int)
    ensures After(b, Attach(i, now)).row ==
            b.row.(paymentReference := Some(i.paymentReference), paymentProvider := Some(i.paymentProvider),
                   fundingExpiresAt := if i.fundingExpiresAt.None? then b.row.fundingExpiresAt else i.fundingExpiresAt,
                   activePaymentExpiresAt := if i.activePaymentExpiresAt.Some? then i.activePaymentExpiresAt
                                             else if i.metadata.Some? then i.metadata.value.expiresAt else None,
                   paymentRegenerationCount := if i.regenerate then b.row.paymentRegenerationCount + 1
                                               else b.row.paymentRegenerationCount,
                   status := if i.status.None? then b.row.status else i.status.value)
  {
  }

  /** An instruction expires the rows of the one it replaces, if that is another, and adds one pending row and one
      event; it moves no money. */
  lemma InstructionBooks(b: Book, i: Instruction, now: int)
    ensures var b', n := After(b, Attach(i, now)), |b.txns|;
            && b'.id == b.id && b'.ledger == b.ledger
            && |b'.txns| == n + 1
            && b'.txns[n] == Txn(i.paymentProvider, FundingTxn, "pending", Some(i.paymentReference),
                                 if i.amount.None? then b.row.amount else i.amount.value, b.row.currency, None,
                                 i.metadata, now)
            && (b.row.paymentReference in {None, Some(i.paymentReference)} ==> b'.txns[..n] == b.txns)
            && (b.row.paymentReference !in {None, Some(i.paymentReference)} ==>
                  RowsGot(b.txns, b'.txns[..n], b.row.paymentReference.value, "expired", None, Some(Payload(None, 0))))
            && b'.log == b.log + [Event("system", "system", "api", Some(b.row.status),
                                        if i.status.None? then Some(b.row.status) else i.status,
                                        if i.regenerate then PaymentInstructionRegenerated else PaymentInitialized,
                                        Some(i.paymentReference), now)]
  {
    ReplacedRows(b, i.paymentReference);
    assert After(b, Attach(i, now)).txns[..|b.txns|] == WithReplaced(b, i.paymentReference).txns;
  }

  lemma ReplacedRows(b: Book, reference: Text)
    ensures var b' := WithReplaced(b, reference);
            && |b'.txns| == |b.txns|
            && (b.row.paymentReference in {None, Some(reference)} ==> b'.txns == b.txns)
            && (b.row.paymentReference !in {None, Some(reference)} ==>
                  RowsGot(b.txns, b'.txns, b.row.paymentReference.value, "expired", None, Some(Payload(None, 0))))
  {
  }

  /** An acceptance is refused exactly when somebody else was invited; it changes something exactly when the escrow
      still waits for its seller, and then it waits for its payment. */
  lemma AcceptanceEnds(b: Book, seller: Text, invited: bool, sellerUser: Option<Text>, now: int)
    ensures var o, waits := Apply(b, Accept(seller, invited, sellerUser, now)),
                            b.row.status in {PENDING_ACCEPTANCE, PENDING_PROFILE};
            && (o == Rejected(OnlyInvitedSeller) <==> b.row.sellerWhatsapp.Some? && !invited)
            && (o.Rejected? ==> o.error == OnlyInvitedSeller)
            && (o.Done? && !waits ==> o.book == b)
            && (o.Done? && waits ==>
                  o.book == b.(row := o.book.row,
                               log := b.log + [Event(seller, "seller", "whatsapp_dm", Some(b.row.status),
                                                     Some(PENDING_PAYMENT), SellerAccepted,
                                                     Some("Seller accepted escrow invitation"), now)])
                  && (if b.row.sellerUserId.Some? || sellerUser.None?
                      then o.book.row == b.row.(status := PENDING_PAYMENT)
                      else o.book.row == b.row.(status := PENDING_PAYMENT, sellerUserId := sellerUser,
                                                sellerWhatsapp := Some(seller))))
  {
  }

  // ----- payments -----

  /** The ten statuses in which a payment is booked; in the other five it is not. */
  predicate AwaitsPayment(s: Status) {
    match s
    case FUNDED => false
    case IN_PROGRESS => false
    case COMPLETED => false
    case PENDING_RELEASE => false
    case RELEASED => false
    case _ => true
  }

  /** These are the ten. */
  lemma StatusesThatAwait(s: Status)
    ensures AwaitsPayment(s) <==>
              s in {CREATED, PENDING_PROFILE, PENDING_ACCEPTANCE, PENDING_PAYMENT, DELIVERED, DISPUTED,
                    REVIEW_REQUIRED, Status.FAILED, EXPIRED, CANCELLED}
  {
    match s
    case CREATED | PENDING_PROFILE | PENDING_ACCEPTANCE | PENDING_PAYMENT | FUNDED =>
    case IN_PROGRESS | DELIVERED | COMPLETED | PENDING_RELEASE | RELEASED =>
    case DISPUTED | REVIEW_REQUIRED | FAILED | EXPIRED | CANCELLED =>
  }

  /** Whether a payment reference leads to the escrow: it is the active one, or on one of its rows. */
  predicate LeadsTo(b: Book, reference: Text) {
    b.row.paymentReference == Some(reference) || exists k :: 0 <= k < |b.txns| && Names(b.txns[k], reference)
  }

  lemma CarriesIsLeadsTo(b: Book, reference: Text)
    ensures Carries(b, reference) <==> LeadsTo(b, reference)
  {
    if LeadsTo(b, reference) && b.row.paymentReference != Some(reference) {
      var k :| 0 <= k < |b.txns| && Names(b.txns[k], reference);
      assert b.txns[k].reference == Some(reference);
    }
    if Carries(b, reference) && b.row.paymentReference != Some(reference) {
      var k :| 0 <= k < |b.txns| && b.txns[k].reference == Some(reference);
      assert Names(b.txns[k], reference);
    }
  }

  /** Who is named as the payer. */
  function PaidBy(given: Option<Text>, row: EscrowRow): string {
    if given.Some? then given.value
    else if row.paymentProvider.Some? then row.paymentProvider.value
    else "payment_provider"
  }

  /** The books of a payment: the escrow is in progress, with what was received on its row; there is one event of the
      payment, and one funding entry of the amount reported, or of the escrow's amount if none was. */
  predicate BookedAs(b: Book, b': Book, reference: Text, receipt: Receipt, now: int) {
    && b' == b.(row := b'.row, txns := b'.txns, ledger := b'.ledger, log := b'.log)
    && b'.row == b.row.(status := IN_PROGRESS,
                        receivedAmount := if receipt.amount.None? then b.row.receivedAmount else receipt.amount,
                        providerPaymentStatus := if receipt.status.None? then Some("success") else receipt.status,
                        paymentCheckedAt := Some(now), reconciliationFlags := [])
    && b'.log == b.log + [Event(PaidBy(receipt.provider, b.row), "payment_provider", "webhook", Some(b.row.status),
                                Some(IN_PROGRESS), PaymentVerified(receipt.amount), Some(reference), now)]
    && RowsGot(b.txns, b'.txns, reference, "success", receipt.processorFee, receipt.payload)
    && |b'.ledger| == |b.ledger| + 1 && b'.ledger[..|b.ledger|] == b.ledger
    && FundingBooked(b.row, b'.ledger[|b.ledger|], reference, receipt)
  }

  predicate FundingBooked(row: EscrowRow, e: LedgerEntry, reference: Text, receipt: Receipt) {
    && e.entryType == FundingEntry && e.credit == EscrowLiability
    && e.debit == BuyerPayment(if row.currency != NAIRA then "x402"
                               else if receipt.provider.Some? then receipt.provider.value
                               else if row.paymentProvider.Some? then row.paymentProvider.value
                               else "provider")
    && e.amount == (if receipt.amount in {None, Some(0.0)} then row.amount else receipt.amount.value)
    && e.currency == row.currency && e.reference == Some(reference)
  }

  lemma PaymentWrites(b: Book, reference: Text, receipt: Receipt, now: int)
    requires b.row.status !in {FUNDED, IN_PROGRESS, COMPLETED, PENDING_RELEASE, RELEASED}
    ensures BookedAs(b, MarkFunded(b, reference, receipt, now), reference, receipt, now)
  {
  }

  /** A payment by a reference that leads to the escrow is booked in each of ten statuses; in the other five, and by any
      other reference, it changes nothing. */
  lemma PaymentEnds(b: Book, reference: Text, receipt: Receipt, now: int)
    ensures var b' := After(b, Fund(reference, receipt, now));
            && (LeadsTo(b, reference)
                && b.row.status in {CREATED, PENDING_PROFILE, PENDING_ACCEPTANCE, PENDING_PAYMENT, DELIVERED, DISPUTED,
                                    REVIEW_REQUIRED, Status.FAILED, EXPIRED, CANCELLED} ==>
                  BookedAs(b, b', reference, receipt, now))
            && (b.row.status in {FUNDED, IN_PROGRESS, COMPLETED, PENDING_RELEASE, RELEASED} ==> b' == b)
            && (!LeadsTo(b, reference) ==> b' == b)
  {
    CarriesIsLeadsTo(b, reference);
    if LeadsTo(b, reference) && b.row.status !in {FUNDED, IN_PROGRESS, COMPLETED, PENDING_RELEASE, RELEASED} {
      PaymentWrites(b, reference, receipt, now);
    }
  }

  /** A review records what was received, puts the escrow under review and marks the rows of the reference, if one is
      given; it moves no money. */
  lemma ReviewWrites(b: Book, f: Finding, now: int)
    ensures var b' := After(b, Review(f, now));
            && b' == b.(row := b'.row, txns := b'.txns, log := b'.log)
            && b'.row == b.row.(status := REVIEW_REQUIRED,
                                receivedAmount := if f.receivedAmount.None? then b.row.receivedAmount
                                                  else f.receivedAmount,
                                providerPaymentStatus := if f.providerPaymentStatus.None?
                                                         then b.row.providerPaymentStatus
                                                         else f.providerPaymentStatus,
                                paymentCheckedAt := Some(now), reconciliationFlags := f.flags)
            && b'.log == b.log + [Event(PaidBy(f.provider, b.row), "payment_provider", "reconciliation",
                                        Some(b.row.status), Some(REVIEW_REQUIRED),
                                        PaymentReviewRequired(f.receivedAmount),
                                        if f.reason == "" then None else Some(f.reason), now)]
            && (f.reference.None? ==> b'.txns == b.txns)
            && (f.reference.Some? ==>
                  RowsGot(b.txns, b'.txns, f.reference.value, "review_required", None, Some(Payload(None, 0))))
  {
  }

  lemma ReminderWrites(b: Book, now: int)
    ensures After(b, Remind(now)) ==
            b.(row := b.row.(lastPaymentReminderAt := Some(now)),
               log := b.log + [Event("system", "system", "api", Some(PENDING_PAYMENT), Some(PENDING_PAYMENT),
                                     PaymentReminderSent, None, now)])
  {
  }

  // ----- the sweep -----

  predicate PendingFunding(t: Txn, reference: Text) {
    t.kind == FundingTxn && t.status == "pending" && Names(t, reference)
  }

  /** The newest pending funding row of a reference is the one at `k`. */
  ghost predicate NewestPendingAt(txns: seq<Txn>, reference: Text, k: int) {
    && 0 <= k < |txns| && PendingFunding(txns[k], reference)
    && forall m :: k < m < |txns| ==> !PendingFunding(txns[m], reference)
  }

  /** When an instruction lapses: at its active deadline, or else at the one its payload states, or else so many seconds
      after its row was written. */
  ghost predicate LapsesAt(row: EscrowRow, t: Txn, deadline: int) {
    && t.payload.Some?
    && if row.activePaymentExpiresAt.Some? then row.activePaymentExpiresAt == Some(At(deadline))
       else if t.payload.value.expiresAt.Some? then t.payload.value.expiresAt == Some(At(deadline))
       else
         t.payload.value.expiresInSeconds > 0 && deadline == t.createdAt + 1000 * t.payload.value.expiresInSeconds
  }

  /** The funding deadline is a time, and past. */
  ghost predicate WindowClosed(row: EscrowRow, now: int) {
    exists deadline :: deadline <= now && row.fundingExpiresAt == Some(At(deadline))
  }

  ghost predicate LapsedAt(b: Book, now: int, k: int, deadline: int) {
    && b.row.paymentReference.Some? && NewestPendingAt(b.txns, b.row.paymentReference.value, k)
    && LapsesAt(b.row, b.txns[k], deadline) && deadline <= now
  }

  /** The instruction has lapsed: its newest pending row has, at a deadline that is past. */
  ghost predicate Lapsed(b: Book, now: int) {
    exists k, deadline :: LapsedAt(b, now, k, deadline)
  }

  lemma NewestPendingBefore(txns: seq<Txn>, reference: Text, k: int)
    requires txns != [] && !PendingFunding(txns[|txns| - 1], reference)
    ensures NewestPendingAt(txns, reference, k) <==> NewestPendingAt(txns[..|txns| - 1], reference, k)
  {
    var before := txns[..|txns| - 1];
    if NewestPendingAt(before, reference, k) {
      forall m | k < m < |txns| ensures !PendingFunding(txns[m], reference) {
        assert m < |before| ==> before[m] == txns[m];
      }
    }
  }

  lemma {:induction false} NewestPendingIsAt(txns: seq<Txn>, reference: Text)
    ensures NewestPending(txns, reference).Some? <==> exists k :: NewestPendingAt(txns, reference, k)
    ensures forall k :: NewestPendingAt(txns, reference, k) ==> NewestPending(txns, reference) == Some(txns[k])
  {
    if txns != [] {
      var n := |txns| - 1;
      if PendingFunding(txns[n], reference) {
        assert NewestPendingAt(txns, reference, n);
      } else {
        NewestPendingIsAt(txns[..n], reference);
        forall k ensures NewestPendingAt(txns, reference, k) <==> NewestPendingAt(txns[..n], reference, k) {
          NewestPendingBefore(txns, reference, k);
        }
      }
    }
  }

  lemma DeadlineIsLapse(row: EscrowRow, t: Txn, now: int)
    ensures Due(InstructionDeadline(row, t), now) <==> exists deadline :: LapsesAt(row, t, deadline) && deadline <= now
    ensures forall deadline :: LapsesAt(row, t, deadline) ==> InstructionDeadline(row, t) == Some(At(deadline))
  {
    if Due(InstructionDeadline(row, t), now) {
      assert LapsesAt(row, t, InstructionDeadline(row, t).value.ms);
    }
  }

  lemma LapsedIsDue(b: Book, now: int)
    requires b.row.paymentReference.Some?
    ensures var funding := NewestPending(b.txns, b.row.paymentReference.value);
            Lapsed(b, now) <==> funding.Some? && Due(InstructionDeadline(b.row, funding.value), now)
  {
    var reference := b.row.paymentReference.value;
    NewestPendingIsAt(b.txns, reference);
    if k, deadline :| LapsedAt(b, now, k, deadline) {
      DeadlineIsLapse(b.row, b.txns[k], now);
    }
    var funding := NewestPending(b.txns, reference);
    if funding.Some? && Due(InstructionDeadline(b.row, funding.value), now) {
      var k :| NewestPendingAt(b.txns, reference, k);
      DeadlineIsLapse(b.row, b.txns[k], now);
      var deadline :| LapsesAt(b.row, b.txns[k], deadline) && deadline <= now;
      assert LapsedAt(b, now, k, deadline);
    }
  }

  /** A sweep leads to EXPIRED exactly when the escrow is pending payment and its funding deadline is past. Otherwise it
      drops the active reference exactly when the escrow is pending payment and its instruction has lapsed. Otherwise
      it changes nothing. */
  lemma SweepEnds(b: Book, now: int)
    ensures var b', pending := After(b, Expire(now)), b.row.status == PENDING_PAYMENT;
            && (b'.row.status == EXPIRED && b.row.status != EXPIRED <==> pending && WindowClosed(b.row, now))
            && (b.row.paymentReference.Some? && b'.row.paymentReference.None? <==>
                  pending && !WindowClosed(b.row, now) && Lapsed(b, now))
            && (b' == b <==> !pending || (!WindowClosed(b.row, now) && !Lapsed(b, now)))
  {
    assert Due(b.row.fundingExpiresAt, now) <==> WindowClosed(b.row, now);
    if b.row.paymentReference.Some? {
      LapsedIsDue(b, now);
    }
  }

  /** What an expired escrow looks like: its row keeps its reference, whose rows are expired too. */
  lemma ExpiryWrites(b: Book, now: int)
    requires b.row.status == PENDING_PAYMENT && WindowClosed(b.row, now)
    ensures var b' := After(b, Expire(now));
            && b' == b.(row := b.row.(status := EXPIRED), txns := b'.txns, log := b'.log)
            && b'.log == b.log + [Event("system", "system", "api", Some(PENDING_PAYMENT), Some(EXPIRED),
                                        EscrowFundingExpired,
                                        if b.row.paymentReference.Some? then b.row.paymentReference
                                        else if b.id == "" then None else Some(b.id), now)]
            && (b.row.paymentReference.None? ==> b'.txns == b.txns)
            && (b.row.paymentReference.Some? ==>
                  RowsGot(b.txns, b'.txns, b.row.paymentReference.value, "expired", None, Some(Payload(None, 0))))
  {
    assert Due(b.row.fundingExpiresAt, now);
  }

  /** What a lapsed instruction leaves: an escrow that still waits for its payment, without a reference. */
  lemma LapseWrites(b: Book, now: int, k: int, deadline: int)
    requires b.row.status == PENDING_PAYMENT && !WindowClosed(b.row, now) && LapsedAt(b, now, k, deadline)
    ensures var b', reference := After(b, Expire(now)), b.row.paymentReference.value;
            && b' == b.(row := b.row.(paymentReference := None, activePaymentExpiresAt := None), txns := b'.txns,
                        log := b'.log)
            && b'.log == b.log + [Event(PaidBy(None, b.row), "payment_provider", "api", Some(PENDING_PAYMENT),
                                        Some(PENDING_PAYMENT), PaymentExpired, Some(reference), now)]
            && RowsGot(b.txns, b'.txns, reference, "expired", None, Some(Payload(Some(At(deadline)), 0)))
  {
    assert !Due(b.row.fundingExpiresAt, now);
    LapsedIsDue(b, now);
    NewestPendingIsAt(b.txns, b.row.paymentReference.value);
    DeadlineIsLapse(b.row, b.txns[k], now);
  }

  // ----- the buyer and the seller -----

  /** A release request, from the guards to the four ways in which it can end. A Naira escrow is measured against the
      given Naira bound, or 500000; any other against the given USDC bound, or 2500. */
  lemma ReleaseRequestEnds(b: Book, actor: Text, directory: Directory, channel: string, payout: Option<PayoutAccount>,
                           t: Thresholds, now: int)
    ensures var o, row := Apply(b, RequestRelease(actor, directory, channel, payout, t, now)), b.row;
            var buyer := actor == "system-sweep" || directory.buyer == Some(actor);
            var ready := buyer && row.status in {COMPLETED, DELIVERED};
            var high := row.amount >= (if row.currency == NAIRA then if t.naira.Some? then t.naira.value else 500000.0
                                       else if t.usdc.Some? then t.usdc.value else 2500.0);
            var cleared := row.sellerUserId.None? || PayoutCleared(payout);
            && (o == Rejected(OnlyBuyer) <==> !buyer)
            && (o == Rejected(CannotBeReleasedFrom(row.status)) <==> buyer && row.status !in {COMPLETED, DELIVERED})
            && (o == Rejected(HighValueNeedsManualReview) <==> ready && row.currency == USDC && high)
            && (o.Done? && o.book.row.status == RELEASED <==> ready && row.currency == USDC && !high)
            && (o.Rejected? && PayoutRefused(payout, o.error) <==> ready && row.currency != USDC && !cleared)
            && (o.Done? && o.book.row.status == REVIEW_REQUIRED <==> ready && row.currency != USDC && cleared && high)
            && (o.Done? && o.book.row.status == PENDING_RELEASE <==>
                  ready && row.currency != USDC && cleared && !high)
            && (o.Done? ==> o.book.row.status in {RELEASED, REVIEW_REQUIRED, PENDING_RELEASE})
  {
    forall e { PayoutErrorIsRefusal(payout, e); }
  }

  /** The row and the event of each of the three ways in which a release request goes through. */
  lemma ReleaseRequestWrites(b: Book, actor: Text, directory: Directory, channel: string,
                             payout: Option<PayoutAccount>, t: Thresholds, now: int)
    requires Apply(b, RequestRelease(actor, directory, channel, payout, t, now)).Done?
    ensures var b' := Apply(b, RequestRelease(actor, directory, channel, payout, t, now)).book;
            && b' == b.(row := b'.row, log := b'.log)
            && |b'.log| == |b.log| + 1 && b'.log[..|b.log|] == b.log
            && var e := b'.log[|b.log|];
            && e == Event(actor, "buyer", channel, Some(b.row.status), Some(b'.row.status), e.eventType, e.reason, now)
            && e.reason.Some?
            && match b'.row.status
               case RELEASED =>
                 e.eventType == AutonomousUsdcRelease && ReleasedRow(b.id, b.row, b'.row, actor, now)
               case REVIEW_REQUIRED =>
                 e.eventType == HighValueReleaseReviewRequired && b'.row == b.row.(status := REVIEW_REQUIRED)
               case _ =>
                 && e.eventType == ReleaseRequested
                 && b'.row == b.row.(status := PENDING_RELEASE, releaseRequestedAt := Some(now))
  {
  }

  /** The row of a release before a payout is recorded: time and releaser are kept if there are any; a USDC escrow
      without a payout reference gets its payment reference, or else one made of its id. */
  predicate ReleasedRow(id: string, row: EscrowRow, row': EscrowRow, actor: Text, now: int) {
    && row' == row.(status := RELEASED, releasedAt := row'.releasedAt, releasedBy := row'.releasedBy,
                    manualPayoutReference := row'.manualPayoutReference)
    && row'.releasedAt == (if row.releasedAt.Some? then row.releasedAt else Some(now))
    && row'.releasedBy == (if row.releasedBy.Some? then row.releasedBy else Some(actor))
    && (row.currency == USDC && row.manualPayoutReference.None? ==>
          row'.manualPayoutReference == (if row.paymentReference.Some? then row.paymentReference
                                         else Some("x402-" + id)))
    && (row.currency != USDC || row.manualPayoutReference.Some? ==>
          row'.manualPayoutReference == row.manualPayoutReference)
  }

  lemma CompletionEnds(b: Book, actor: Text, directory: Directory, channel: string, now: int)
    ensures var o := Apply(b, Complete(actor, directory, channel, now));
            var buyer := actor == "system-sweep" || directory.buyer == Some(actor);
            var open := b.row.status in {IN_PROGRESS, FUNDED, DELIVERED};
            && (o == Rejected(OnlyBuyer) <==> !buyer)
            && (o == Rejected(CannotBeCompletedFrom(b.row.status)) <==> buyer && !open)
            && (o.Done? <==> buyer && open)
            && (o.Done? ==>
                  o.book == b.(row := b.row.(status := COMPLETED),
                               log := b.log + [Event(actor, "buyer", channel, Some(b.row.status), Some(COMPLETED),
                                                     BuyerCompleted, Some("Buyer confirmed work is complete"), now)]))
  {
  }

  lemma DeliveryEnds(b: Book, actor: Text, channel: string, summary: string, inspectionDays: int, now: int)
    ensures var o := Apply(b, Deliver(actor, channel, summary, inspectionDays, now));
            var open := b.row.status in {FUNDED, IN_PROGRESS, DELIVERED};
            (o == Rejected(CannotBeDeliveredFrom(b.row.status)) <==> !open) && (o.Done? <==> open)
  {
  }

  /** A delivery opens an inspection of so many days of 86400000 milliseconds. */
  lemma DeliveryWrites(b: Book, actor: Text, channel: string, summary: string, inspectionDays: int, now: int)
    requires Apply(b, Deliver(actor, channel, summary, inspectionDays, now)).Done?
    ensures var b' := Apply(b, Deliver(actor, channel, summary, inspectionDays, now)).book;
            && b'.row == b.row.(status := DELIVERED, deliveredAt := Some(now),
                                inspectionExpiresAt := Some(now + 86400000 * inspectionDays))
            && b' == b.(row := b'.row, log := b'.log)
            && b'.log == b.log + [Event(actor, "seller", channel, Some(b.row.status), Some(DELIVERED),
                                        SellerDeliveryProofRecorded, if summary == "" then None else Some(summary),
                                        now)]
  {
  }

  /** A received amount other than zero, or a confirmed provider status. */
  predicate SeemsFunded(row: EscrowRow) {
    || row.receivedAmount !in {None, Some(0.0)}
    || row.providerPaymentStatus == Some("success") || row.providerPaymentStatus == Some("sandbox_success")
  }

  lemma SeemsFundedIsTested(row: EscrowRow)
    ensures SeemsFunded(row) <==>
              || AmountOr(row.receivedAmount, 0.0) != 0.0
              || TextOr(row.providerPaymentStatus, "") in {"success", "sandbox_success"}
  {
  }

  lemma CancelledIsLogged(b: Book, actor: Text, channel: string, now: int)
    ensures Cancelled(b, actor, channel, now) != b
  {
    assert |Cancelled(b, actor, channel, now).log| == |b.log| + 1;
  }

  lemma CancellationEnds(b: Book, actor: Text, directory: Directory, channel: string, now: int)
    ensures var o := Apply(b, Cancel(actor, directory, channel, now));
            var buyer := actor == "system-sweep" || directory.buyer == Some(actor);
            var open := b.row.status in {PENDING_PROFILE, PENDING_ACCEPTANCE, PENDING_PAYMENT};
            && (o == Rejected(OnlyBuyer) <==> !buyer)
            && (o == Rejected(CannotBeCancelledFrom(b.row.status)) <==>
                  buyer && !open && b.row.status != CANCELLED)
            && (o == Rejected(FundedCannotBeCancelled) <==> buyer && open && SeemsFunded(b.row))
            && (o == Done(b) <==> buyer && b.row.status == CANCELLED)
            && (o.Done? && o.book != b <==> buyer && open && !SeemsFunded(b.row))
  {
    SeemsFundedIsTested(b.row);
    CancelledIsLogged(b, actor, channel, now);
  }

  lemma CancellationWrites(b: Book, actor: Text, directory: Directory, channel: string, now: int)
    requires var o := Apply(b, Cancel(actor, directory, channel, now)); o.Done? && o.book != b
    ensures var b' := Apply(b, Cancel(actor, directory, channel, now)).book;
            && b' == b.(row := b.row.(status := CANCELLED), txns := b'.txns, log := b'.log)
            && b'.log == b.log + [Event(actor, "buyer", channel, Some(b.row.status), Some(CANCELLED),
                                        BuyerCancelledUnfunded, Some("Cancelled before funding"), now)]
            && (b.row.paymentReference.None? ==> b'.txns == b.txns)
            && (b.row.paymentReference.Some? ==>
                  RowsGot(b.txns, b'.txns, b.row.paymentReference.value, "cancelled", None, Some(Payload(None, 0))))
  {
  }

  // ----- payouts -----

  /** An approval goes through exactly when there is a payout reference, the gross amount is the escrow's, the net is no
      larger, and a Naira escrow is pending release with a cleared account; else the first of these that fails is
      named. */
  lemma ApprovalEnds(b: Book, admin: Text, r: Release, payout: Option<PayoutAccount>, now: int)
    ensures var o, row := Apply(b, Approve(admin, r, payout, now)), b.row;
            var gross := if r.grossAmount.Some? then r.grossAmount.value else row.amount;
            var net := if r.sellerNetAmount.Some? then r.sellerNetAmount.value else gross;
            var named, fits := !NoText(r.payoutReference), net <= gross && 0.0 <= gross;
            var pending := row.currency != NAIRA || row.status == PENDING_RELEASE;
            var cleared := row.currency != NAIRA || row.sellerUserId.None? || PayoutCleared(payout);
            && (o == Rejected(PayoutReferenceRequired) <==> !named)
            && (o == Rejected(GrossAmountMismatch) <==> named && gross != row.amount)
            && (o == Rejected(NetExceedsGross) <==> named && gross == row.amount && !fits)
            && (o == Rejected(MustBePendingRelease) <==> named && gross == row.amount && fits && !pending)
            && (o.Rejected? && PayoutRefused(payout, o.error) <==>
                  named && gross == row.amount && fits && pending && !cleared)
            && (o.Done? <==> named && gross == row.amount && fits && pending && cleared)
  {
    BlankIsNoText(r.payoutReference);
    forall e { PayoutErrorIsRefusal(payout, e); }
  }

  lemma BlankIsNoText(s: string)
    ensures Blank(s) <==> NoText(s)
  {
  }

  /** The fee of an approval: what the call gives, and nothing below zero. */
  predicate IsFee(r: Release, fee: real) {
    fee >= 0.0 && fee == (if r.platformFeeAmount.Some? && r.platformFeeAmount.value > 0.0 then r.platformFeeAmount.value
                          else 0.0)
  }

  /** The net of an approval: what the call gives, or else its gross amount, or else the escrow's, and nothing below
      zero. */
  predicate IsNet(row: EscrowRow, r: Release, net: real) {
    var given := if r.sellerNetAmount.Some? then r.sellerNetAmount.value
                 else if r.grossAmount.Some? then r.grossAmount.value
                 else row.amount;
    net >= 0.0 && net == (if given > 0.0 then given else 0.0)
  }

  /** The new entries of an approval: the net to the seller, and the fee, if there is one, to the platform. */
  predicate PaysOut(row: EscrowRow, entries: seq<LedgerEntry>, r: Release, reference: Text, fee: real, net: real) {
    var seller := if row.currency != NAIRA then "x402"
                  else if r.payoutProvider.Some? then r.payoutProvider.value
                  else "manual_bank_transfer";
    && |entries| == (if fee > 0.0 then 2 else 1)
    && entries[0] == LedgerEntry(ReleaseEntry, EscrowLiability, SellerPayable(seller), net, row.currency,
                                 Some(reference))
    && (fee > 0.0 ==>
          entries[1] == LedgerEntry(FeeEntry, EscrowLiability, PlatformFeeRevenue, fee, row.currency, Some(reference)))
  }

  predicate PayoutRow(row: EscrowRow, t: Txn, r: Release, reference: Text, net: real, now: int) {
    && t.provider == (if r.payoutProvider.Some? then r.payoutProvider.value
                      else if row.currency == NAIRA then "manual_bank_transfer" else "x402")
    && t.kind == ReleaseTxn && t.status == (if row.currency == NAIRA then "payout_succeeded" else "released")
    && t == Txn(t.provider, t.kind, t.status, Some(reference), net, row.currency, None, Some(Payload(None, 0)), now)
  }

  /** One event, one transaction row and the entries, all with the same fee and net: those of the call. */
  predicate ApprovalBooked(b: Book, b': Book, admin: Text, r: Release, reference: Text, now: int) {
    && |b'.log| == |b.log| + 1 && b'.log[..|b.log|] == b.log
    && b'.log[|b.log|].eventType.ManualReleaseApproved?
    && var t := b'.log[|b.log|].eventType;
    && IsFee(r, t.platformFeeAmount) && IsNet(b.row, r, t.sellerNetAmount)
    && b'.log[|b.log|] == Event(admin, "admin", "admin", Some(b.row.status), Some(RELEASED),
                                ManualReleaseApproved(reference, t.platformFeeAmount, t.sellerNetAmount),
                                Some("Payout approved"), now)
    && |b'.ledger| >= |b.ledger| && b'.ledger[..|b.ledger|] == b.ledger
    && PaysOut(b.row, b'.ledger[|b.ledger|..], r, reference, t.platformFeeAmount, t.sellerNetAmount)
    && |b'.txns| == |b.txns| + 1 && b'.txns[..|b.txns|] == b.txns
    && PayoutRow(b.row, b'.txns[|b.txns|], r, reference, t.sellerNetAmount, now)
  }

  lemma PaidOutWrites(b: Book, admin: Text, r: Release, reference: Text, now: int)
    ensures ApprovalBooked(b, PaidOut(b, admin, r, reference, now), admin, r, reference, now)
  {
  }

  /** Every approval that goes through books the figures of its call. */
  lemma ApprovalWrites(b: Book, admin: Text, r: Release, payout: Option<PayoutAccount>, now: int)
    requires Apply(b, Approve(admin, r, payout, now)).Done?
    ensures r.payoutReference != ""
            && ApprovalBooked(b, Apply(b, Approve(admin, r, payout, now)).book, admin, r, r.payoutReference, now)
  {
    assert Blank("");
    PaidOutWrites(b, admin, r, r.payoutReference, now);
  }

  /** The row of an approved release: the payout is recorded as the call gives it. */
  lemma ApprovalSetsRow(b: Book, admin: Text, r: Release, payout: Option<PayoutAccount>, now: int)
    requires Apply(b, Approve(admin, r, payout, now)).Done?
    ensures var b' := Apply(b, Approve(admin, r, payout, now)).book;
            && b'.id == b.id
            && r.payoutReference != ""
            && b'.row == b.row.(status := RELEASED, manualPayoutReference := Some(r.payoutReference),
                                payoutNotes := r.payoutNotes, releasedBy := Some(admin), releasedAt := Some(now))
  {
    assert Blank("");
  }

  lemma PayoutPendingWrites(b: Book, admin: Text, provider: string, status: string, amount: real, reference: string,
                            message: string, now: int)
    ensures After(b, PayoutPending(admin, provider, status, amount, reference, message, now)) ==
            b.(txns := b.txns + [Txn(provider, ReleaseTxn, "payout_" + status,
                                     if reference == "" then None else Some(reference), amount, b.row.currency, None,
                                     Some(Payload(None, 0)), now)],
               log := b.log + [Event(admin, "admin", "admin", Some(b.row.status), Some(b.row.status),
                                     Annotation("payout_not_finalized"), if message == "" then None else Some(message),
                                     now)])
  {
  }

  lemma RemarkWrites(b: Book, actor: Text, role: string, channel: string, name: string, withStatus: bool,
                     reason: string, now: int)
    ensures var s := if withStatus then Some(b.row.status) else None;
            After(b, Annotate(actor, role, channel, name, withStatus, reason, now)) ==
            b.(log := b.log + [Event(actor, role, channel, s, s, Annotation(name),
                                     if reason == "" then None else Some(reason), now)])
  {
  }

  // ----- disputes -----

  /** A dispute is refused exactly to somebody who is neither an admin nor the buyer, the seller or the invited
      number. */
  lemma DisputeEnds(b: Book, actor: Text, directory: Directory, channel: string, reason: string, now: int)
    ensures var o := Apply(b, Command.Dispute(actor, directory, channel, reason, now));
            var participant := directory.buyer == Some(actor) || b.row.sellerWhatsapp == Some(actor)
                               || (directory.seller == Some(actor) && b.row.sellerUserId.Some?);
            && (o == Rejected(OnlyParticipants) <==> channel != "admin" && !participant)
            && (o.Done? <==> channel == "admin" || participant)
            && (o.Done? ==>
                  o.book == b.(row := b.row.(status := DISPUTED),
                               log := b.log + [Event(actor, "participant", channel, Some(b.row.status), Some(DISPUTED),
                                                     DisputeOpened,
                                                     Some(if reason == "" then "Dispute opened" else reason), now)]))
  {
  }

  lemma ResolutionEnds(b: Book, admin: Text, outcome: DisputeOutcome, reason: string, reference: string, now: int)
    ensures var o := Apply(b, Resolve(admin, outcome, reason, reference, now));
            var unnamed := outcome == ReleaseToSeller && b.row.currency == NAIRA && NoText(reference);
            && (o == Rejected(CannotBeResolvedFrom(b.row.status)) <==> b.row.status != DISPUTED)
            && (o == Rejected(PayoutReferenceRequired) <==> b.row.status == DISPUTED && unnamed)
            && (o.Done? <==> b.row.status == DISPUTED && !unnamed)
            && (o.Done? ==> ResolutionLogs(b, o.book, admin, outcome, reason, reference, now))
  {
    BlankIsNoText(reference);
  }

  /** The one event of a decided dispute, and where it leads. */
  predicate ResolutionLogs(b: Book, b': Book, admin: Text, outcome: DisputeOutcome, reason: string, reference: string,
                           now: int)
  {
    && b'.id == b.id
    && b'.row.status == (match outcome
                         case ReleaseToSeller => RELEASED
                         case _ => CANCELLED)
    && b'.log == b.log + [Event(admin, "admin", "admin", Some(DISPUTED), Some(b'.row.status),
                                DisputeResolved(outcome, if reference == "" then None else Some(reference)),
                                if reason == "" then None else Some(reason), now)]
  }

  /** A dispute decided for the seller pays the escrow's amount, under the given reference or one made of the id. */
  lemma ResolutionPaysSeller(b: Book, admin: Text, reason: string, reference: string, now: int)
    requires Apply(b, Resolve(admin, ReleaseToSeller, reason, reference, now)).Done?
    ensures var b' := Apply(b, Resolve(admin, ReleaseToSeller, reason, reference, now)).book;
            var paid := if reference == "" then "dispute-release-" + b.id else reference;
            && paid != ""
            && b'.row == b.row.(status := RELEASED, manualPayoutReference := Some(paid),
                                payoutNotes := Some("Dispute resolution: " + reason), releasedBy := Some(admin),
                                releasedAt := Some(now))
            && b'.txns == b.txns + [Txn(PaidThrough(b.row), ReleaseTxn, "manual_dispute_release", Some(paid),
                                        b.row.amount, b.row.currency, None, Some(Payload(None, 0)), now)]
            && b'.ledger == b.ledger + [LedgerEntry(ReleaseEntry, EscrowLiability,
                                                    SellerPayable(if b.row.currency == NAIRA then "naira" else "x402"),
                                                    b.row.amount, b.row.currency, Some(paid))]
  {
  }

  /** What a refund owes: what was received, or the escrow's amount if nothing was. */
  predicate Owed(row: EscrowRow, owed: real) {
    if row.receivedAmount in {None, Some(0.0)} then owed == row.amount else row.receivedAmount == Some(owed)
  }

  /** A dispute decided for the buyer pays that back. */
  lemma ResolutionPaysBuyer(b: Book, admin: Text, reason: string, reference: string, now: int, owed: real)
    requires Apply(b, Resolve(admin, RefundBuyer, reason, reference, now)).Done? && Owed(b.row, owed)
    ensures var b' := Apply(b, Resolve(admin, RefundBuyer, reason, reference, now)).book;
            var given := if reference == "" then None else Some(reference);
            && b'.row == b.row.(status := CANCELLED)
            && b'.txns == b.txns + [Txn(PaidThrough(b.row), RefundTxn, "manual_refund_recorded", given, owed,
                                        b.row.currency, None, Some(Payload(None, 0)), now)]
            && b'.ledger == b.ledger + [LedgerEntry(RefundEntry, EscrowLiability,
                                                    BuyerRefund(if b.row.currency == NAIRA then "naira" else "x402"),
                                                    owed, b.row.currency, given)]
  {
    assert owed == AmountOr(b.row.receivedAmount, b.row.amount);
  }

  /** A dispute closed without a payout moves no money. */
  lemma ResolutionPaysNobody(b: Book, admin: Text, outcome: DisputeOutcome, reason: string, reference: string, now: int)
    requires Apply(b, Resolve(admin, outcome, reason, reference, now)).Done?
    requires outcome == CancelNoFunds || outcome == NoActionClose
    ensures var b' := Apply(b, Resolve(admin, outcome, reason, reference, now)).book;
            b'.row == b.row.(status := CANCELLED) && b'.txns == b.txns && b'.ledger == b.ledger
  {
  }

  /** The provider that a dispute is settled through. */
  function PaidThrough(row: EscrowRow): string {
    if row.paymentProvider.Some? then row.paymentProvider.value
    else if row.currency == NAIRA then "paystack"
    else "x402"
  }
}
