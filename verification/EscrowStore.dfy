/** The store itself: four shared tables, updated in place, one method per operation. */
module EscrowStore {
  import opened Wrappers
  import opened Escrow
  import opened Lifecycle
  import opened Tables

  class EscrowStore {
    var escrows: map<string, EscrowRow>
    var transactions: seq<Row<Txn>>
    var ledger: seq<Row<LedgerEntry>>
    var events: seq<Row<Event>>

    /** What the tables hold, escrow by escrow. */
    ghost var books: Books

    /** The rows of one escrow are its books; an unknown escrow has none. */
    ghost predicate Shows(id: string)
      requires escrows.Keys == books.Keys
      reads this
    {
      if id in books
      then books[id] == Book(id, escrows[id], Owned(transactions, id), Owned(ledger, id), Owned(events, id))
      else Owned(transactions, id) == [] && Owned(ledger, id) == [] && Owned(events, id) == []
    }

    ghost predicate Tied()
      reads this
    {
      escrows.Keys == books.Keys && forall id {:trigger Shows(id)} :: Shows(id)
    }

    ghost predicate Valid()
      reads this
    {
      Tied() && ValidBooks(books)
    }

    constructor ()
      ensures Valid() && books == map[]
    {
      escrows, transactions, ledger, events, books := map[], [], [], [], map[];
    }

    // ----- single-table writes -----

    method UpdateEscrow(id: string, row: EscrowRow)
      requires Tied() && id in books
      modifies this`escrows, this`books
      ensures Tied() && books == old(books)[id := old(books[id]).(row := row)]
    {
      escrows, books := escrows[id := row], books[id := books[id].(row := row)];
      forall o ensures Shows(o) {
        assert old(Shows(o));
      }
    }

    method AddTransaction(id: string, t: Txn)
      requires Tied() && id in books
      modifies this`transactions, this`books
      ensures Tied() && books == old(books)[id := WithTxn(old(books[id]), t)]
    {
      transactions, books := transactions + [Row(id, t)], books[id := WithTxn(books[id], t)];
      forall o ensures Shows(o) {
        assert old(Shows(o));
        OwnedAppend(old(transactions), Row(id, t), o);
      }
    }

    method AddLedgerEntry(id: string, e: LedgerEntry)
      requires Tied() && id in books
      modifies this`ledger, this`books
      ensures Tied() && books == old(books)[id := WithEntry(old(books[id]), e)]
    {
      ledger, books := ledger + [Row(id, e)], books[id := WithEntry(books[id], e)];
      forall o ensures Shows(o) {
        assert old(Shows(o));
        OwnedAppend(old(ledger), Row(id, e), o);
      }
    }

    method AddEvent(id: string, e: Event)
      requires Tied() && id in books
      modifies this`events, this`books
      ensures Tied() && books == old(books)[id := WithEvent(old(books[id]), e)]
    {
      events, books := events + [Row(id, e)], books[id := WithEvent(books[id], e)];
      forall o ensures Shows(o) {
        assert old(Shows(o));
        OwnedAppend(old(events), Row(id, e), o);
      }
    }

    /** The update goes by reference alone, whatever escrow the rows belong to. */
    method UpdateTransactionStatus(reference: Text, status: string, fee: Option<real>, payload: Option<Payload>)
      requires Tied()
      modifies this`transactions, this`books
      ensures Tied() && books == Everywhere(old(books), reference, status, fee, payload)
    {
      transactions := RestatusRows(transactions, reference, status, fee, payload);
      books := Everywhere(books, reference, status, fee, payload);
      forall o ensures Shows(o) {
        assert old(Shows(o));
        RestatusIsLocal(old(transactions), o, reference, status, fee, payload);
      }
    }

    /** It stays within one escrow when only that one carries the reference. */
    method UpdateOwnTransactions(ghost id: string, reference: Text, status: string, fee: Option<real>,
                                 payload: Option<Payload>)
      requires Tied() && id in books && Exclusive(books, id, reference)
      modifies this`transactions, this`books
      ensures Tied() && books == old(books)[id := Lifecycle.UpdateTransactionStatus(old(books[id]), reference, status,
          fee, payload)]
    {
      EverywhereIsLocal(books, id, reference, status, fee, payload);
      UpdateTransactionStatus(reference, status, fee, payload);
    }

    method TransitionEscrow(id: string, next: Status, actor: Text, actorRole: string, channel: string,
                            eventType: EventType, reason: Option<Text>, now: int)
      requires Tied() && id in books
      modifies this`escrows, this`events, this`books
      ensures Tied() && books == old(books)[id := Transition(old(books[id]), next, actor, actorRole, channel, eventType,
                                                             reason, now)]
    {
      assert Shows(id);
      var current := escrows[id];
      UpdateEscrow(id, TransitionedRow(id, current, next, actor, now));
      AddEvent(id, Event(actor, actorRole, channel, Some(current.status), Some(next), eventType, reason, now));
    }

    method RecordPayoutReconciliation(id: string, releasedBy: Text, reference: Text, notes: Option<Text>, now: int)
      requires Tied() && id in books
      modifies this`escrows, this`books
      ensures Tied()
      ensures books == old(books)[id := old(books[id]).(row := Lifecycle.RecordPayoutReconciliation(old(books[id]).row,
          releasedBy, reference, notes, now))]
    {
      assert Shows(id);
      UpdateEscrow(id, Lifecycle.RecordPayoutReconciliation(escrows[id], releasedBy, reference, notes, now));
    }

    method Reconcile(id: string, received: Option<real>, status: Option<Text>, flags: seq<string>,
                     next: Status, payer: Text, channel: string, eventType: EventType, reason: Option<Text>, now: int)
      requires Tied() && id in books
      modifies this`escrows, this`events, this`books
      ensures Tied()
      ensures books == old(books)[id := Reconciled(old(books[id]), received, status, flags, next, payer, channel,
                                                   eventType, reason, now)]
    {
      assert Shows(id);
      UpdateEscrow(id, RecordPaymentReconciliation(escrows[id], received, status, flags, now));
      TransitionEscrow(id, next, payer, "payment_provider", channel, eventType, reason, now);
    }

    // ----- operations -----

    method CreateEscrow(id: string, input: NewEscrow, now: int)
      requires Valid() && id !in books
      modifies this
      ensures Valid() && books == old(books)[id := Create(id, input, now)]
    {
      var created := Create(id, input, now);
      escrows, books := escrows[id := created.row], books[id := created.(log := [])];
      forall o ensures Shows(o) {
        assert old(Shows(o));
      }
      AddEvent(id, created.log[0]);
      assert WithEvent(created.(log := []), created.log[0]) == created;
      assert books == old(books)[id := created];
      CreatedKeepsValid(old(books), id, input, now);
    }

    method AttachPayment(id: string, i: Instruction, now: int) returns (error: Option<Error>)
      requires Valid()
      modifies this
      ensures Tied() && Performed(old(books), books, id, Attach(i, now), error)
      ensures Permitted(old(books), id, Attach(i, now)) ==> Valid()
    {
      if id !in escrows {
        return Some(EscrowNotFound);
      }
      ActiveIsExclusive(books, id);
      WriteInstruction(id, i, now);
      error := None;
      if Permitted(old(books), id, Attach(i, now)) {
        PerformedKeepsValid(old(books), books, id, Attach(i, now), error);
      }
    }

    /** The writes of a new payment instruction. */
    method WriteInstruction(id: string, i: Instruction, now: int)
      requires Tied() && id in books
      requires OwnsActive(books, id)
      modifies this
      ensures Tied() && books == old(books)[id := Lifecycle.AttachPayment(old(books[id]), i, now)]
    {
      assert Shows(id);
      var current := escrows[id];
      ExpireReplaced(id, i.paymentReference);
      UpdateEscrow(id, AttachedRow(current, i));
      AddTransaction(id, InstructionTxn(current, i, now));
      AddEvent(id, InstructionEvent(current, i, now));
    }

    method ExpireReplaced(id: string, reference: Text)
      requires Tied() && id in books
      requires OwnsActive(books, id)
      modifies this`transactions, this`books
      ensures Tied() && books == old(books)[id := WithReplaced(old(books[id]), reference)]
    {
      assert Shows(id);
      var current := escrows[id];
      if current.paymentReference.Some? && current.paymentReference.value != reference {
        UpdateOwnTransactions(id, current.paymentReference.value, "expired", None, Some(NO_DATES));
      }
    }

    method AcceptEscrow(id: string, seller: Text, invited: bool, sellerUser: Option<Text>, now: int)
      returns (error: Option<Error>)
      requires Valid()
      modifies this
      ensures Valid() && Performed(old(books), books, id, Accept(seller, invited, sellerUser, now), error)
    {
      if id !in escrows {
        return Some(EscrowNotFound);
      }
      error := WriteAcceptance(id, seller, invited, sellerUser, now);
      PerformedKeepsValid(old(books), books, id, Accept(seller, invited, sellerUser, now), error);
    }

    method WriteAcceptance(id: string, seller: Text, invited: bool, sellerUser: Option<Text>, now: int)
      returns (error: Option<Error>)
      requires Tied() && id in books
      modifies this
      ensures Tied() && Wrote(old(books), books, id, Lifecycle.AcceptEscrow(old(books[id]), seller, invited, sellerUser,
                                                                            now), error)
    {
      assert Shows(id);
      var escrow := escrows[id];
      if escrow.sellerWhatsapp.Some? && !invited {
        return Some(OnlyInvitedSeller);
      }
      if escrow.status in {PENDING_ACCEPTANCE, PENDING_PROFILE} {
        UpdateEscrow(id, InvitedRow(escrow, seller, sellerUser));
        TransitionEscrow(id, PENDING_PAYMENT, seller, "seller", "whatsapp_dm", SellerAccepted,
                         Some("Seller accepted escrow invitation"), now);
      }
      return None;
    }

    /** The escrow that carries a reference, as its active one or on any of its rows. */
    method FindEscrowByPaymentReference(reference: Text) returns (found: Option<string>)
      requires Tied()
      ensures found.None? ==> forall o :: o in books ==> !Carries(books[o], reference)
      ensures found.Some? ==> found.value in books && Carries(books[found.value], reference)
    {
      var holders := set o | o in escrows && RefersTo(escrows[o], Owned(transactions, o), reference);
      assert forall o {:trigger Shows(o)} :: Shows(o);
      forall o | o in books ensures o in holders <==> Carries(books[o], reference) {
        assert Shows(o);
      }
      if holders == {} {
        return None;
      }
      var o :| o in holders;
      return Some(o);
    }

    method MarkFundedByPaymentReference(reference: Text, receipt: Receipt, now: int) returns (found: Option<string>)
      requires Valid()
      modifies this
      ensures Valid()
      ensures found.None? ==> books == old(books) && forall o :: o in books ==> !Carries(books[o], reference)
      ensures found.Some? ==> found.value in old(books) && Carries(old(books[found.value]), reference)
      ensures found.Some? ==> books == FundIn(old(books), found.value, reference, receipt, now)
      ensures found.Some? && Exclusive(old(books), found.value, reference) ==>
                Performed(old(books), books, found.value, Fund(reference, receipt, now), None)
    {
      found := FindEscrowByPaymentReference(reference);
      if found.None? {
        return;
      }
      WriteFunding(found.value, reference, receipt, now);
      FundInKeepsValid(old(books), found.value, reference, receipt, now);
      if Exclusive(old(books), found.value, reference) {
        FundInIsLocal(old(books), found.value, reference, receipt, now);
      }
    }

    method WriteFunding(id: string, reference: Text, receipt: Receipt, now: int)
      requires Tied() && id in books
      modifies this
      ensures Tied() && books == FundIn(old(books), id, reference, receipt, now)
    {
      assert Shows(id);
      var escrow := escrows[id];
      if escrow.status in FUNDED_OR_LATER {
        return;
      }
      Reconcile(id, receipt.amount, Either(receipt.status, Some("success")), [],
                IN_PROGRESS, Payer(receipt.provider, escrow), "webhook", PaymentVerified(receipt.amount),
                  Some(reference), now);
      UpdateTransactionStatus(reference, "success", receipt.processorFee, receipt.payload);
      AddLedgerEntry(id, FundingEntryOf(escrow, reference, receipt));
    }

    method ExpirePendingPaymentIfDue(id: string, now: int) returns (error: Option<Error>)
      requires Valid()
      modifies this
      ensures Valid() && Performed(old(books), books, id, Expire(now), error)
    {
      if id !in escrows {
        return Some(EscrowNotFound);
      }
      ActiveIsExclusive(books, id);
      WriteExpiry(id, now);
      error := None;
      PerformedKeepsValid(old(books), books, id, Expire(now), error);
    }

    method WriteExpiry(id: string, now: int)
      requires Tied() && id in books && OwnsActive(books, id)
      modifies this
      ensures Tied() && books == old(books)[id := ExpirePendingPayment(old(books[id]), now)]
    {
      assert Shows(id);
      var escrow := escrows[id];
      if escrow.status != PENDING_PAYMENT {
        return;
      }
      if Due(escrow.fundingExpiresAt, now) {
        if escrow.paymentReference.Some? {
          UpdateOwnTransactions(id, escrow.paymentReference.value, "expired", None, Some(NO_DATES));
        }
        TransitionEscrow(id, EXPIRED, "system", "system", "api", EscrowFundingExpired,
                         Either(escrow.paymentReference, Present(id)), now);
      } else if escrow.paymentReference.Some? {
        ExpireInstruction(id, now);
      }
    }

    /** The second half of the sweep: the active instruction has lapsed, the funding window has not. */
    method ExpireInstruction(id: string, now: int)
      requires Tied() && id in books && books[id].row.status == PENDING_PAYMENT
               && !Due(books[id].row.fundingExpiresAt, now)
      requires books[id].row.paymentReference.Some? && OwnsActive(books, id)
      modifies this
      ensures Tied() && books == old(books)[id := ExpirePendingPayment(old(books[id]), now)]
    {
      assert Shows(id);
      var escrow := escrows[id];
      var reference := escrow.paymentReference.value;
      var funding := NewestPending(Owned(transactions, id), reference);
      if funding.None? {
        return;
      }
      var deadline := InstructionDeadline(escrow, funding.value);
      if !Due(deadline, now) {
        return;
      }
      UpdateOwnTransactions(id, reference, "expired", None, Some(Payload(deadline, 0)));
      UpdateEscrow(id, LapsedRow(escrow));
      AddEvent(id, Event(TextOr(escrow.paymentProvider, "payment_provider"), "payment_provider", "api",
                         Some(PENDING_PAYMENT), Some(PENDING_PAYMENT), PaymentExpired, Some(reference), now));
    }

    method MarkPaymentReminderSent(id: string, now: int) returns (error: Option<Error>)
      requires Valid()
      modifies this
      ensures Tied() && Performed(old(books), books, id, Remind(now), error)
      ensures Permitted(old(books), id, Remind(now)) ==> Valid()
    {
      if id !in escrows {
        return Some(EscrowNotFound);
      }
      assert Shows(id);
      UpdateEscrow(id, escrows[id].(lastPaymentReminderAt := Some(now)));
      AddEvent(id, Event("system", "system", "api", Some(PENDING_PAYMENT), Some(PENDING_PAYMENT), PaymentReminderSent,
                         None, now));
      error := None;
      if Permitted(old(books), id, Remind(now)) {
        PerformedKeepsValid(old(books), books, id, Remind(now), error);
      }
    }

    method MarkPaymentReviewRequired(id: string, f: Finding, now: int) returns (error: Option<Error>)
      requires Valid()
      modifies this
      ensures Valid()
      ensures if id !in old(books) then books == old(books) && error == Some(EscrowNotFound)
              else books == ReviewIn(old(books), id, f, now) && error == None
      ensures (f.reference.Some? ==> Exclusive(old(books), id, f.reference.value)) ==>
                Performed(old(books), books, id, Review(f, now), error)
    {
      if id !in escrows {
        return Some(EscrowNotFound);
      }
      WriteReview(id, f, now);
      error := None;
      ReviewInKeepsValid(old(books), id, f, now);
      if f.reference.Some? ==> Exclusive(old(books), id, f.reference.value) {
        ReviewInIsLocal(old(books), id, f, now);
      }
    }

    method WriteReview(id: string, f: Finding, now: int)
      requires Tied() && id in books
      modifies this
      ensures Tied() && books == ReviewIn(old(books), id, f, now)
    {
      assert Shows(id);
      var escrow := escrows[id];
      Reconcile(id, f.receivedAmount, f.providerPaymentStatus, f.flags,
                REVIEW_REQUIRED, Payer(f.provider, escrow), "reconciliation", PaymentReviewRequired(f.receivedAmount),
                  Present(f.reason), now);
      if f.reference.Some? {
        UpdateTransactionStatus(f.reference.value, "review_required", None, Some(NO_DATES));
      }
    }

    method RequestRelease(id: string, actor: Text, directory: Directory, channel: string, payout: Option<PayoutAccount>,
                          t: Thresholds, now: int)
      returns (error: Option<Error>)
      requires Valid()
      modifies this
      ensures Valid() && Performed(old(books), books, id, Command.RequestRelease(actor, directory, channel, payout, t,
          now), error)
    {
      if id !in escrows {
        return Some(EscrowNotFound);
      }
      error := WriteReleaseRequest(id, actor, directory, channel, payout, t, now);
      PerformedKeepsValid(old(books), books, id, Command.RequestRelease(actor, directory, channel, payout, t, now),
                          error);
    }

    method WriteReleaseRequest(id: string, actor: Text, directory: Directory, channel: string,
                               payout: Option<PayoutAccount>, t: Thresholds, now: int)
      returns (error: Option<Error>)
      requires Tied() && id in books
      modifies this
      ensures Tied() && Wrote(old(books), books, id, RequestReleaseOf(old(books[id]), actor, directory, channel, payout,
                                                                      t, now), error)
    {
      assert Shows(id);
      var escrow := escrows[id];
      if !IsBuyer(actor, directory) {
        return Some(OnlyBuyer);
      }
      if escrow.status !in {COMPLETED, DELIVERED} {
        return Some(CannotBeReleasedFrom(escrow.status));
      }
      var threshold := Threshold(escrow.currency, t);
      if escrow.currency == USDC {
        if escrow.amount >= threshold {
          return Some(HighValueNeedsManualReview);
        }
        TransitionEscrow(id, RELEASED, actor, "buyer", channel, AutonomousUsdcRelease, Some("Buyer confirmed release"),
                         now);
        return None;
      }
      if escrow.sellerUserId.Some? && PayoutError(payout).Some? {
        return PayoutError(payout);
      }
      if escrow.amount >= threshold {
        TransitionEscrow(id, REVIEW_REQUIRED, actor, "buyer", channel, HighValueReleaseReviewRequired,
                         Some("High-value review required"), now);
      } else {
        TransitionEscrow(id, PENDING_RELEASE, actor, "buyer", channel, ReleaseRequested,
                         Some("Manual payout approval required"), now);
      }
      return None;
    }

    method CompleteEscrow(id: string, actor: Text, directory: Directory, channel: string, now: int)
      returns (error: Option<Error>)
      requires Valid()
      modifies this
      ensures Valid() && Performed(old(books), books, id, Complete(actor, directory, channel, now), error)
    {
      if id !in escrows {
        return Some(EscrowNotFound);
      }
      error := WriteCompletion(id, actor, directory, channel, now);
      PerformedKeepsValid(old(books), books, id, Complete(actor, directory, channel, now), error);
    }

    method WriteCompletion(id: string, actor: Text, directory: Directory, channel: string, now: int)
      returns (error: Option<Error>)
      requires Tied() && id in books
      modifies this
      ensures Tied() && Wrote(old(books), books, id, Lifecycle.CompleteEscrow(old(books[id]), actor, directory, channel,
                                                                              now), error)
    {
      assert Shows(id);
      if !IsBuyer(actor, directory) {
        return Some(OnlyBuyer);
      }
      if escrows[id].status !in {IN_PROGRESS, FUNDED, DELIVERED} {
        return Some(CannotBeCompletedFrom(escrows[id].status));
      }
      TransitionEscrow(id, COMPLETED, actor, "buyer", channel, BuyerCompleted, Some("Buyer confirmed work is complete"),
                       now);
      return None;
    }

    method MarkDelivered(id: string, actor: Text, channel: string, summary: string, inspectionDays: int, now: int)
      returns (error: Option<Error>)
      requires Valid()
      modifies this
      ensures Valid() && Performed(old(books), books, id, Deliver(actor, channel, summary, inspectionDays, now), error)
    {
      if id !in escrows {
        return Some(EscrowNotFound);
      }
      error := WriteDelivery(id, actor, channel, summary, inspectionDays, now);
      PerformedKeepsValid(old(books), books, id, Deliver(actor, channel, summary, inspectionDays, now), error);
    }

    method WriteDelivery(id: string, actor: Text, channel: string, summary: string, inspectionDays: int, now: int)
      returns (error: Option<Error>)
      requires Tied() && id in books
      modifies this
      ensures Tied() && Wrote(old(books), books, id, Lifecycle.MarkDelivered(old(books[id]), actor, channel, summary,
                                                                             inspectionDays, now), error)
    {
      assert Shows(id);
      if escrows[id].status !in {FUNDED, IN_PROGRESS, DELIVERED} {
        return Some(CannotBeDeliveredFrom(escrows[id].status));
      }
      TransitionEscrow(id, DELIVERED, actor, "seller", channel, SellerDeliveryProofRecorded, Present(summary), now);
      assert Shows(id);
      UpdateEscrow(id, DeliveredRow(escrows[id], inspectionDays, now));
      return None;
    }

    method CancelUnfundedEscrow(id: string, actor: Text, directory: Directory, channel: string, now: int)
      returns (error: Option<Error>)
      requires Valid()
      modifies this
      ensures Valid() && Performed(old(books), books, id, Cancel(actor, directory, channel, now), error)
    {
      if id !in escrows {
        return Some(EscrowNotFound);
      }
      ActiveIsExclusive(books, id);
      error := WriteCancellation(id, actor, directory, channel, now);
      PerformedKeepsValid(old(books), books, id, Cancel(actor, directory, channel, now), error);
    }

    method WriteCancellation(id: string, actor: Text, directory: Directory, channel: string, now: int)
      returns (error: Option<Error>)
      requires Tied() && id in books && OwnsActive(books, id)
      modifies this
      ensures Tied() && Wrote(old(books), books, id, CancelUnfunded(old(books[id]), actor, directory, channel, now),
                              error)
    {
      assert Shows(id);
      var escrow := escrows[id];
      if !IsBuyer(actor, directory) {
        return Some(OnlyBuyer);
      }
      if escrow.status == CANCELLED {
        return None;
      }
      if escrow.status !in {PENDING_PROFILE, PENDING_ACCEPTANCE, PENDING_PAYMENT} {
        return Some(CannotBeCancelledFrom(escrow.status));
      }
      if AmountOr(escrow.receivedAmount, 0.0) != 0.0
         || TextOr(escrow.providerPaymentStatus, "") in {"success", "sandbox_success"} {
        return Some(FundedCannotBeCancelled);
      }
      BookCancellation(id, actor, channel, now);
      return None;
    }

    /** The writes of a cancellation. */
    method BookCancellation(id: string, actor: Text, channel: string, now: int)
      requires Tied() && id in books && OwnsActive(books, id)
      modifies this
      ensures Tied() && books == old(books)[id := Cancelled(old(books[id]), actor, channel, now)]
    {
      assert Shows(id);
      var escrow := escrows[id];
      TransitionEscrow(id, CANCELLED, actor, "buyer", channel, BuyerCancelledUnfunded, Some("Cancelled before funding"),
                       now);
      if escrow.paymentReference.Some? {
        StaysExclusive(old(books), books, id, escrow.paymentReference.value);
        UpdateOwnTransactions(id, escrow.paymentReference.value, "cancelled", None, Some(NO_DATES));
      }
    }

    method ApproveManualRelease(id: string, admin: Text, r: Release, payout: Option<PayoutAccount>, now: int)
      returns (error: Option<Error>)
      requires Valid()
      modifies this
      ensures Tied() && Performed(old(books), books, id, Approve(admin, r, payout, now), error)
      ensures Permitted(old(books), id, Approve(admin, r, payout, now)) ==> Valid()
    {
      if id !in escrows {
        return Some(EscrowNotFound);
      }
      assert Shows(id);
      var escrow := escrows[id];
      error := ApproveError(escrow, r, payout);
      if error.Some? {
        return;
      }
      BookRelease(id, admin, r, r.payoutReference, now);
      if Permitted(old(books), id, Approve(admin, r, payout, now)) {
        PerformedKeepsValid(old(books), books, id, Approve(admin, r, payout, now), error);
      }
    }

    /** The writes of an approved release. */
    method BookRelease(id: string, admin: Text, r: Release, reference: Text, now: int)
      requires Tied() && id in books
      modifies this
      ensures Tied() && books == old(books)[id := PaidOut(old(books[id]), admin, r, reference, now)]
    {
      assert Shows(id);
      var escrow := escrows[id];
      var fee := NonNegative(AmountElse(r.platformFeeAmount, 0.0));
      var net := NonNegative(AmountElse(r.sellerNetAmount, AmountElse(r.grossAmount, escrow.amount)));
      TransitionEscrow(id, RELEASED, admin, "admin", "admin", ManualReleaseApproved(reference, fee, net),
                       Some("Payout approved"), now);
      RecordPayoutReconciliation(id, admin, reference, r.payoutNotes, now);
      BookPayout(id, escrow, r, reference, fee, net, now);
    }

    method BookPayout(id: string, escrow: EscrowRow, r: Release, reference: Text, fee: real, net: real, now: int)
      requires Tied() && id in books
      modifies this`transactions, this`ledger, this`books
      ensures Tied() && books == old(books)[id := WithPayout(old(books[id]), escrow, r, reference, fee, net, now)]
    {
      AddTransaction(id, ReleaseTxnOf(escrow, r, reference, net, now));
      AddLedgerEntry(id, ReleaseEntryOf(escrow, r, reference, net));
      if fee > 0.0 {
        AddLedgerEntry(id, FeeEntryOf(escrow, reference, fee));
      }
    }

    method MarkDisputed(id: string, actor: Text, directory: Directory, channel: string, reason: string, now: int)
      returns (error: Option<Error>)
      requires Valid()
      modifies this
      ensures Valid() && Performed(old(books), books, id, Command.Dispute(actor, directory, channel, reason, now),
                                   error)
    {
      if id !in escrows {
        return Some(EscrowNotFound);
      }
      error := WriteDispute(id, actor, directory, channel, reason, now);
      PerformedKeepsValid(old(books), books, id, Command.Dispute(actor, directory, channel, reason, now), error);
    }

    method WriteDispute(id: string, actor: Text, directory: Directory, channel: string, reason: string, now: int)
      returns (error: Option<Error>)
      requires Tied() && id in books
      modifies this
      ensures Tied() && Wrote(old(books), books, id, Lifecycle.MarkDisputed(old(books[id]), actor, directory, channel,
                                                                            reason, now), error)
    {
      assert Shows(id);
      if channel != "admin" && !IsParticipant(escrows[id], actor, directory) {
        return Some(OnlyParticipants);
      }
      TransitionEscrow(id, DISPUTED, actor, "participant", channel, DisputeOpened,
                       Either(Present(reason), Some("Dispute opened")), now);
      return None;
    }

    method ResolveDispute(id: string, admin: Text, outcome: DisputeOutcome, reason: string, reference: string, now: int)
      returns (error: Option<Error>)
      requires Valid()
      modifies this
      ensures Tied() && Performed(old(books), books, id, Resolve(admin, outcome, reason, reference, now), error)
      ensures Permitted(old(books), id, Resolve(admin, outcome, reason, reference, now)) ==> Valid()
    {
      if id !in escrows {
        return Some(EscrowNotFound);
      }
      assert Shows(id);
      var escrow := escrows[id];
      if escrow.status != DISPUTED {
        return Some(CannotBeResolvedFrom(escrow.status));
      }
      if outcome == ReleaseToSeller && escrow.currency == NAIRA && Blank(reference) {
        return Some(PayoutReferenceRequired);
      }
      BookResolution(id, admin, outcome, reason, Present(reference), now);
      error := None;
      if Permitted(old(books), id, Resolve(admin, outcome, reason, reference, now)) {
        PerformedKeepsValid(old(books), books, id, Resolve(admin, outcome, reason, reference, now), error);
      }
    }

    /** The writes of a resolved dispute. */
    method BookResolution(id: string, admin: Text, outcome: DisputeOutcome, reason: string, given: Option<Text>,
                          now: int)
      requires Tied() && id in books && books[id].id == id
      modifies this
      ensures Tied() && books == old(books)[id := Resolved(old(books[id]), admin, outcome, reason, given, now)]
    {
      assert Shows(id);
      var escrow := escrows[id];
      TransitionEscrow(id, if outcome == ReleaseToSeller then RELEASED else CANCELLED, admin, "admin", "admin",
                       DisputeResolved(outcome, given), Present(reason), now);
      if outcome == ReleaseToSeller {
        BookDisputeRelease(id, escrow, admin, reason, ResolvedReference(id, given), now);
      }
      if outcome == RefundBuyer {
        BookRefund(id, escrow, given, now);
      }
    }

    method BookDisputeRelease(id: string, escrow: EscrowRow, admin: Text, reason: string, paid: Text, now: int)
      requires Tied() && id in books
      modifies this
      ensures Tied() && books == old(books)[id := WithDisputeRelease(old(books[id]), escrow, admin, reason, paid, now)]
    {
      RecordPayoutReconciliation(id, admin, paid, Some("Dispute resolution: " + reason), now);
      AddTransaction(id, Txn(DisputeProvider(escrow), ReleaseTxn, "manual_dispute_release", Some(paid), escrow.amount,
                             escrow.currency, None, Some(NO_DATES), now));
      AddLedgerEntry(id, LedgerEntry(ReleaseEntry, EscrowLiability, SellerPayable(DisputeSuffix(escrow)), escrow.amount,
                                     escrow.currency, Some(paid)));
    }

    method BookRefund(id: string, escrow: EscrowRow, given: Option<Text>, now: int)
      requires Tied() && id in books
      modifies this
      ensures Tied() && books == old(books)[id := WithRefund(old(books[id]), escrow, given, now)]
    {
      var owed := AmountOr(escrow.receivedAmount, escrow.amount);
      AddTransaction(id, Txn(DisputeProvider(escrow), RefundTxn, "manual_refund_recorded", given, owed, escrow.currency,
                             None, Some(NO_DATES), now));
      AddLedgerEntry(id, LedgerEntry(RefundEntry, EscrowLiability, BuyerRefund(DisputeSuffix(escrow)), owed,
                                     escrow.currency, given));
    }

    /** What the release route records when the payout provider has not finished. */
    method RecordPayoutPending(id: string, admin: Text, provider: string, status: string, amount: real,
                               reference: string, message: string, now: int)
      returns (error: Option<Error>)
      requires Valid()
      modifies this
      ensures Tied() && Performed(old(books), books, id, PayoutPending(admin, provider, status, amount, reference,
                                                                       message, now), error)
      ensures Permitted(old(books), id, PayoutPending(admin, provider, status, amount, reference, message, now)) ==>
                Valid()
    {
      if id !in escrows {
        return Some(EscrowNotFound);
      }
      assert Shows(id);
      var escrow := escrows[id];
      AddTransaction(id, PendingPayoutTxn(escrow, provider, status, amount, reference, now));
      AddEvent(id, PendingPayoutEvent(escrow, admin, message, now));
      error := None;
      if Permitted(old(books), id, PayoutPending(admin, provider, status, amount, reference, message, now)) {
        PerformedKeepsValid(old(books), books, id, PayoutPending(admin, provider, status, amount, reference, message,
                                                                 now), error);
      }
    }

    /** A remark in the log, by a route, a webhook or the reminder. */
    method AddAnnotation(id: string, actor: Text, actorRole: string, channel: string, name: string, withStatus: bool,
                         reason: string, now: int)
      returns (error: Option<Error>)
      requires Valid()
      modifies this
      ensures Valid() && Performed(old(books), books, id, Annotate(actor, actorRole, channel, name, withStatus, reason,
                                                                   now), error)
    {
      if id !in escrows {
        return Some(EscrowNotFound);
      }
      assert Shows(id);
      AddEvent(id, AnnotationEvent(escrows[id], actor, actorRole, channel, name, withStatus, reason, now));
      error := None;
      PerformedKeepsValid(old(books), books, id, Annotate(actor, actorRole, channel, name, withStatus, reason, now),
                          error);
    }
  }
}
