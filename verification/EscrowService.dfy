/** The service calls that turn a provider's transaction into store operations. */
module EscrowService {
  import opened Wrappers
  import opened Escrow
  import opened Lifecycle
  import Effects
  import opened Quote
  import opened Tables
  import opened Reconciliation
  import Store = EscrowStore

  // ----- what the calls do to the books of one escrow -----

  /** What the payment provider says when it is asked: nothing of use (or the call fails), that a USDC payment is active
      or settled, or the transaction of a Naira or USDT payment. */
  datatype Report = Silent | UsdcPaid | Verified(tx: Transaction)

  /** Whether a reconciliation refreshes the escrow first; if so, what the provider says, whether the active reference
      is a sandbox one, and how long before the funding deadline the reminder is due. */
  datatype Refresh = Skipped | Asked(report: Report, sandbox: bool, reminderLead: int)

  /** The transaction that a refresh reconciles, if any. */
  function Reported(row: EscrowRow, r: Refresh): Option<Transaction> {
    if r.Skipped? || row.status != PENDING_PAYMENT || row.paymentReference.None? then None
    else if row.currency == USDC then
      if r.report.UsdcPaid?
      then Some(Transaction(Either(row.paymentProvider, Some("x402")).value, row.paymentReference.value, "success",
                            row.amount, None, Some(NO_DATES)))
      else None
    else if !r.sandbox && r.report.Verified? && r.report.tx.status in {"success", "successful"} then Some(r.report.tx)
    else None
  }

  function Synced(b: Book, r: Refresh, charge: real, now: int): Book {
    var tx := Reported(b.row, r);
    if tx.Some? then After(b, Decide(b, tx.value, charge, now)) else b
  }

  /** A refresh of a sandbox payment ends before the reminder. */
  predicate EndsEarly(row: EscrowRow, r: Refresh) {
    r.Asked? && row.status == PENDING_PAYMENT && row.paymentReference.Some? && row.currency != USDC && r.sandbox
  }

  predicate ReminderDue(row: EscrowRow, r: Refresh, now: int) {
    && r.Asked? && row.status == PENDING_PAYMENT && row.lastPaymentReminderAt.None?
    && row.fundingExpiresAt.Some? && row.fundingExpiresAt.value.At?
    && row.fundingExpiresAt.value.ms - r.reminderLead <= now < row.fundingExpiresAt.value.ms
  }

  /** What a refresh does after its sweep. */
  function Followed(b: Book, r: Refresh, charge: real, now: int): Book {
    if EndsEarly(b.row, r) then b
    else
      var synced := Synced(b, r, charge, now);
      if ReminderDue(synced.row, r, now) then MarkReminderSent(synced, now) else synced
  }

  /** `refreshEscrowPaymentLifecycle`: the sweep, the provider's status, and the reminder. */
  function Refreshed(b: Book, r: Refresh, charge: real, now: int): Book {
    if r.Skipped? then b else Followed(ExpirePendingPayment(b, now), r, charge, now)
  }

  /** The outcome of a reconciliation that decides on the books `b` of one escrow. */
  ghost predicate Settles(bs: Books, bs': Books, id: string, b: Book, tx: Transaction, charge: real, now: int,
                          error: Option<Error>)
  {
    && bs' == bs[id := After(b, Decide(b, tx, charge, now))]
    && error == (if Decide(b, tx, charge, now).Fund? && !Carries(b, tx.paymentReference)
                 then Some(NoEscrowForPayment) else None)
  }

  /** No other escrow carries the references that the call works with. */
  ghost predicate OwnTransactions(bs: Books, id: string, tx: Transaction, r: Refresh) {
    Exclusive(bs, id, tx.paymentReference) && OwnReport(bs, id, r)
  }

  ghost predicate OwnReport(bs: Books, id: string, r: Refresh) {
    r.Asked? && r.report.Verified? ==> Exclusive(bs, id, r.report.tx.paymentReference)
  }

  // ----- what the calls do to all books, whoever carries the references -----

  ghost predicate FundedIn(bs: Books, bs': Books, o: string, reference: Text, receipt: Receipt, now: int) {
    o in bs && Carries(bs[o], reference) && bs' == FundIn(bs, o, reference, receipt, now)
  }

  /** The decision on the books of one escrow, carried out: a review of that escrow, or the funding of an escrow that
      carries the reference, if there is one. */
  ghost predicate CarriedOut(bs: Books, bs': Books, id: string, c: Command, error: Option<Error>)
    requires id in bs
  {
    match c
    case Review(f, now) => error == None && bs' == ReviewIn(bs, id, f, now)
    case Fund(reference, receipt, now) =>
      if error.None? then exists o :: FundedIn(bs, bs', o, reference, receipt, now)
      else error == Some(NoEscrowForPayment) && bs' == bs
           && forall o {:trigger Holds(bs, o, reference)} :: o in bs ==> !Holds(bs, o, reference)
    case _ => false
  }

  /** The status of the newest row of a reference, whichever escrow has that row. */
  ghost predicate StoredIn(bs: Books, reference: Text, stored: Option<string>) {
    if stored.None? then forall o {:trigger Stored(bs, o, reference)} :: o in bs ==> Stored(bs, o, reference) == None
    else exists o :: o in bs && Stored(bs, o, reference) == stored
  }

  function Stored(bs: Books, id: string, reference: Text): Option<string>
    requires id in bs
  {
    StoredStatus(bs[id].txns, reference)
  }

  ghost predicate DecidedOn(bs: Books, bs': Books, id: string, stored: Option<string>, tx: Transaction, matches: bool,
                            now: int, error: Option<Error>)
    requires id in bs
  {
    && StoredIn(bs, tx.paymentReference, stored)
    && CarriedOut(bs, bs', id, DecideStored(bs[id].row, stored, tx, matches, now), error)
  }

  ghost predicate DecidedGiven(bs: Books, bs': Books, id: string, tx: Transaction, matches: bool, now: int,
                               error: Option<Error>)
    requires id in bs
  {
    exists stored :: DecidedOn(bs, bs', id, stored, tx, matches, now, error)
  }

  ghost predicate Decided(bs: Books, bs': Books, id: string, tx: Transaction, charge: real, now: int,
                          error: Option<Error>)
    requires id in bs
  {
    DecidedGiven(bs, bs', id, tx, AmountsMatch(ExpectedFunding(bs[id].row, charge), tx.amount, Some(bs[id].row.amount)),
                 now, error)
  }

  ghost predicate SyncedIn(bs: Books, bs': Books, id: string, r: Refresh, charge: real, now: int)
    requires id in bs
  {
    var tx := Reported(bs[id].row, r);
    if tx.None? then bs' == bs else exists error :: Decided(bs, bs', id, tx.value, charge, now, error)
  }

  function RemindedIn(bs: Books, id: string, r: Refresh, now: int): Books
    requires id in bs
  {
    if ReminderDue(bs[id].row, r, now) then bs[id := MarkReminderSent(bs[id], now)] else bs
  }

  ghost predicate FollowedIn(bs: Books, bs': Books, id: string, r: Refresh, charge: real, now: int)
    requires id in bs
  {
    if EndsEarly(bs[id].row, r) then bs' == bs
    else exists synced ::
      id in synced && SyncedIn(bs, synced, id, r, charge, now) && bs' == RemindedIn(synced, id, r, now)
  }

  ghost predicate RefreshedIn(bs: Books, bs': Books, id: string, r: Refresh, charge: real, now: int)
    requires id in bs
  {
    if r.Skipped? then bs' == bs
    else FollowedIn(bs[id := ExpirePendingPayment(bs[id], now)], bs', id, r, charge, now)
  }

  lemma ReviewedSettles(bs: Books, id: string, tx: Transaction, charge: real, f: Finding, now: int)
    requires id in bs && Exclusive(bs, id, tx.paymentReference)
    requires Decide(bs[id], tx, charge, now) == Review(f, now) && f.reference == Some(tx.paymentReference)
    ensures Settles(bs, ReviewIn(bs, id, f, now), id, bs[id], tx, charge, now, None)
  {
    ReviewInIsLocal(bs, id, f, now);
  }

  lemma FundedSettles(bs: Books, bs': Books, o: string, id: string, tx: Transaction, charge: real, now: int)
    requires id in bs && Exclusive(bs, id, tx.paymentReference)
    requires Decide(bs[id], tx, charge, now) == Fund(tx.paymentReference, ReceiptOf(tx), now)
    requires FundedIn(bs, bs', o, tx.paymentReference, ReceiptOf(tx), now)
    ensures Settles(bs, bs', id, bs[id], tx, charge, now, None)
  {
    assert Holds(bs, o, tx.paymentReference);
    FundInIsLocal(bs, id, tx.paymentReference, ReceiptOf(tx), now);
  }

  lemma UnfundedSettles(bs: Books, id: string, tx: Transaction, charge: real, now: int)
    requires id in bs && !Carries(bs[id], tx.paymentReference)
    requires Decide(bs[id], tx, charge, now) == Fund(tx.paymentReference, ReceiptOf(tx), now)
    ensures Settles(bs, bs, id, bs[id], tx, charge, now, Some(NoEscrowForPayment))
  {
    assert bs[id := bs[id]] == bs;
  }

  lemma {:induction false} UnnamedIsUnstored(txns: seq<Txn>, reference: Text)
    requires forall i :: 0 <= i < |txns| ==> txns[i].reference != Some(reference)
    ensures StoredStatus(txns, reference) == None
  {
    if txns != [] {
      UnnamedIsUnstored(txns[..|txns| - 1], reference);
    }
  }

  /** With a reference of its own, an escrow's rows tell the stored status. */
  lemma OwnStored(bs: Books, id: string, reference: Text, stored: Option<string>)
    requires id in bs && Exclusive(bs, id, reference) && StoredIn(bs, reference, stored)
    ensures stored == StoredStatus(bs[id].txns, reference)
  {
    if stored.Some? {
      var o :| o in bs && Stored(bs, o, reference) == stored;
      if o != id {
        assert !Holds(bs, o, reference);
        UnnamedIsUnstored(bs[o].txns, reference);
      }
    } else {
      assert Stored(bs, id, reference) == None;
    }
  }

  /** With a reference of its own, the decision settles on the one escrow. */
  lemma DecidedSettles(bs: Books, bs': Books, id: string, tx: Transaction, charge: real, now: int,
                       error: Option<Error>)
    requires id in bs && Decided(bs, bs', id, tx, charge, now, error) && Exclusive(bs, id, tx.paymentReference)
    ensures Settles(bs, bs', id, bs[id], tx, charge, now, error)
  {
    var matches := AmountsMatch(ExpectedFunding(bs[id].row, charge), tx.amount, Some(bs[id].row.amount));
    var stored :| DecidedOn(bs, bs', id, stored, tx, matches, now, error);
    OwnStored(bs, id, tx.paymentReference, stored);
    CarriedOutSettles(bs, bs', id, tx, charge, now, error);
  }

  lemma CarriedOutSettles(bs: Books, bs': Books, id: string, tx: Transaction, charge: real, now: int,
                          error: Option<Error>)
    requires id in bs && Exclusive(bs, id, tx.paymentReference)
    requires CarriedOut(bs, bs', id, Decide(bs[id], tx, charge, now), error)
    ensures Settles(bs, bs', id, bs[id], tx, charge, now, error)
  {
    DecideForms(bs[id], tx, charge, now);
    match Decide(bs[id], tx, charge, now)
    case Review(f, _) => ReviewedSettles(bs, id, tx, charge, f, now);
    case Fund(reference, receipt, _) =>
      if error.None? {
        var o :| FundedIn(bs, bs', o, reference, receipt, now);
        FundedSettles(bs, bs', o, id, tx, charge, now);
      } else {
        assert !Holds(bs, id, reference);
        UnfundedSettles(bs, id, tx, charge, now);
      }
  }

  lemma SyncedIsLocal(bs: Books, bs': Books, id: string, r: Refresh, charge: real, now: int)
    requires id in bs && SyncedIn(bs, bs', id, r, charge, now) && OwnsActive(bs, id) && OwnReport(bs, id, r)
    ensures bs' == bs[id := Synced(bs[id], r, charge, now)]
  {
    var tx := Reported(bs[id].row, r);
    if tx.Some? {
      var error :| Decided(bs, bs', id, tx.value, charge, now, error);
      DecidedSettles(bs, bs', id, tx.value, charge, now, error);
    } else {
      assert bs[id := bs[id]] == bs;
    }
  }

  lemma FollowedIsLocal(bs: Books, bs': Books, id: string, r: Refresh, charge: real, now: int)
    requires id in bs && FollowedIn(bs, bs', id, r, charge, now) && OwnsActive(bs, id) && OwnReport(bs, id, r)
    ensures bs' == bs[id := Followed(bs[id], r, charge, now)]
  {
    if !EndsEarly(bs[id].row, r) {
      var synced :| id in synced && SyncedIn(bs, synced, id, r, charge, now) && bs' == RemindedIn(synced, id, r, now);
      SyncedIsLocal(bs, synced, id, r, charge, now);
    } else {
      assert bs[id := bs[id]] == bs;
    }
  }

  lemma SweepKeepsReference(b: Book, now: int)
    ensures ExpirePendingPayment(b, now).row.paymentReference in {None, b.row.paymentReference}
  {
  }

  lemma SweptOwns(bs: Books, swept: Books, id: string, r: Refresh, now: int)
    requires ValidBooks(bs) && id in bs && OwnReport(bs, id, r)
    requires swept == bs[id := ExpirePendingPayment(bs[id], now)]
    ensures OwnsActive(swept, id) && OwnReport(swept, id, r)
  {
    ActiveIsExclusive(bs, id);
    SweepKeepsReference(bs[id], now);
    if swept[id].row.paymentReference.Some? {
      StaysExclusive(bs, swept, id, swept[id].row.paymentReference.value);
    }
    if r.Asked? && r.report.Verified? {
      StaysExclusive(bs, swept, id, r.report.tx.paymentReference);
    }
  }

  lemma RefreshedIsLocal(bs: Books, bs': Books, id: string, r: Refresh, charge: real, now: int)
    requires ValidBooks(bs) && id in bs && RefreshedIn(bs, bs', id, r, charge, now) && OwnReport(bs, id, r)
    ensures bs' == bs[id := Refreshed(bs[id], r, charge, now)]
  {
    if r.Skipped? {
      assert bs[id := bs[id]] == bs;
    } else {
      var swept := bs[id := ExpirePendingPayment(bs[id], now)];
      SweptOwns(bs, swept, id, r, now);
      FollowedIsLocal(swept, bs', id, r, charge, now);
    }
  }

  lemma ReconciledSettles(bs: Books, refreshed: Books, bs': Books, id: string, tx: Transaction, r: Refresh,
                          charge: real,
                          now: int, error: Option<Error>)
    requires ValidBooks(bs) && id in bs && RefreshedIn(bs, refreshed, id, r, charge, now)
    requires OwnTransactions(bs, id, tx, r) && id in refreshed && Decided(refreshed, bs', id, tx, charge, now, error)
    ensures Settles(bs, bs', id, Refreshed(bs[id], r, charge, now), tx, charge, now, error)
  {
    RefreshedIsLocal(bs, refreshed, id, r, charge, now);
    StaysExclusive(bs, refreshed, id, tx.paymentReference);
    DecidedSettles(refreshed, bs', id, tx, charge, now, error);
    SettlesAfterRefresh(bs, refreshed, bs', id, tx, charge, now, error);
  }

  /** It makes no difference to the others whether the books were refreshed first. */
  lemma SettlesAfterRefresh(bs: Books, refreshed: Books, bs': Books, id: string, tx: Transaction, charge: real,
                            now: int, error: Option<Error>)
    requires id in bs && id in refreshed && refreshed == bs[id := refreshed[id]]
    requires Settles(refreshed, bs', id, refreshed[id], tx, charge, now, error)
    ensures Settles(bs, bs', id, refreshed[id], tx, charge, now, error)
  {
  }

  // ----- the calls -----

  /** The books in between, after the refresh, are a ghost result. */
  method ReconcileEscrowPayment(store: Store.EscrowStore, id: string, tx: Transaction, r: Refresh, charge: real,
                                now: int)
    returns (error: Option<Error>, ghost refreshed: Books)
    requires store.Valid()
    modifies store
    ensures store.Valid()
    ensures id !in old(store.books) ==> error == Some(EscrowNotFound) && store.books == old(store.books)
    ensures id in old(store.books) ==>
              && RefreshedIn(old(store.books), refreshed, id, r, charge, now)
              && id in refreshed && Decided(refreshed, store.books, id, tx, charge, now, error)
    ensures id in old(store.books) && OwnTransactions(old(store.books), id, tx, r) ==>
              Settles(old(store.books), store.books, id, Refreshed(old(store.books[id]), r, charge, now), tx, charge,
                      now,
                      error)
  {
    refreshed := store.books;
    if id !in store.escrows {
      return Some(EscrowNotFound), refreshed;
    }
    RefreshEscrowPaymentLifecycle(store, id, r, charge, now);
    refreshed := store.books;
    error := ReconcileRefreshed(store, id, tx, charge, now);
    if OwnTransactions(old(store.books), id, tx, r) {
      ReconciledSettles(old(store.books), refreshed, store.books, id, tx, r, charge, now, error);
    }
  }

  method RefreshEscrowPaymentLifecycle(store: Store.EscrowStore, id: string, r: Refresh, charge: real, now: int)
    requires store.Valid() && id in store.books
    modifies store
    ensures store.Valid() && id in store.books
    ensures RefreshedIn(old(store.books), store.books, id, r, charge, now)
    ensures OwnReport(old(store.books), id, r) ==>
              store.books == old(store.books)[id := Refreshed(old(store.books[id]), r, charge, now)]
  {
    if !r.Skipped? {
      var _ := store.ExpirePendingPaymentIfDue(id, now);
      FollowUp(store, id, r, charge, now);
    }
    if OwnReport(old(store.books), id, r) {
      RefreshedIsLocal(old(store.books), store.books, id, r, charge, now);
    }
  }

  method FollowUp(store: Store.EscrowStore, id: string, r: Refresh, charge: real, now: int)
    requires store.Valid() && id in store.books
    modifies store
    ensures store.Valid() && id in store.books && FollowedIn(old(store.books), store.books, id, r, charge, now)
  {
    assert store.Shows(id);
    if EndsEarly(store.escrows[id], r) {
      return;
    }
    SyncWithProvider(store, id, r, charge, now);
    ghost var synced := store.books;
    assert SyncedIn(old(store.books), synced, id, r, charge, now);
    RemindIfDue(store, id, r, now);
  }

  /** A reported payment is reconciled without another refresh; an error in that is only logged. */
  method SyncWithProvider(store: Store.EscrowStore, id: string, r: Refresh, charge: real, now: int)
    requires store.Valid() && id in store.books
    modifies store
    ensures store.Valid() && id in store.books && SyncedIn(old(store.books), store.books, id, r, charge, now)
  {
    assert store.Shows(id);
    var tx := Reported(store.escrows[id], r);
    if tx.Some? {
      var error := ReconcileRefreshed(store, id, tx.value, charge, now);
      assert Decided(old(store.books), store.books, id, tx.value, charge, now, error);
    }
  }

  method RemindIfDue(store: Store.EscrowStore, id: string, r: Refresh, now: int)
    requires store.Valid() && id in store.books
    modifies store
    ensures store.Valid() && id in store.books && store.books == RemindedIn(old(store.books), id, r, now)
  {
    assert store.Shows(id);
    if ReminderDue(store.escrows[id], r, now) {
      var _ := store.MarkPaymentReminderSent(id, now);
    }
  }

  method ReconcileRefreshed(store: Store.EscrowStore, id: string, tx: Transaction, charge: real, now: int)
    returns (error: Option<Error>)
    requires store.Valid() && id in store.books
    modifies store
    ensures store.Valid() && id in store.books && Decided(old(store.books), store.books, id, tx, charge, now, error)
  {
    assert store.Shows(id);
    var escrow := store.escrows[id];
    var matches := AmountsMatch(ExpectedFunding(escrow, charge), tx.amount, Some(escrow.amount));
    error := ReconcileGiven(store, id, tx, matches, now);
  }

  method ReconcileGiven(store: Store.EscrowStore, id: string, tx: Transaction, matches: bool, now: int)
    returns (error: Option<Error>)
    requires store.Valid() && id in store.books
    modifies store
    ensures store.Valid() && id in store.books
    ensures DecidedGiven(old(store.books), store.books, id, tx, matches, now, error)
  {
    var stored := StoredStatus(Values(store.transactions), tx.paymentReference);
    NewestIsStored(store, tx.paymentReference);
    error := ReconcileStored(store, id, stored, tx, matches, now);
    assert DecidedOn(old(store.books), store.books, id, stored, tx, matches, now, error);
  }

  /** The newest row of a reference is the newest of the escrow that has it. */
  lemma {:induction false} NewestOfAll(rows: seq<Row<Txn>>, reference: Text)
    ensures var stored := StoredStatus(Values(rows), reference);
            if stored.None? then forall o :: StoredStatus(Owned(rows, o), reference) == None
            else exists o :: StoredStatus(Owned(rows, o), reference) == stored
  {
    if rows != [] {
      var before, last := rows[..|rows| - 1], rows[|rows| - 1];
      assert Values(rows)[..|rows| - 1] == Values(before);
      NewestOfAll(before, reference);
      OwnNewest(rows, last.owner, reference);
      if last.value.reference != Some(reference) {
        forall o ensures StoredStatus(Owned(rows, o), reference) == StoredStatus(Owned(before, o), reference) {
          OwnNewest(rows, o, reference);
        }
      }
    }
  }

  lemma OwnNewest(rows: seq<Row<Txn>>, o: string, reference: Text)
    requires rows != []
    ensures var before, last := rows[..|rows| - 1], rows[|rows| - 1];
            StoredStatus(Owned(rows, o), reference) ==
            if last.owner == o && last.value.reference == Some(reference) then Some(last.value.status)
            else StoredStatus(Owned(before, o), reference)
  {
    var before, last := rows[..|rows| - 1], rows[|rows| - 1];
    assert (Owned(before, o) + [last.value])[..|Owned(before, o)|] == Owned(before, o);
    assert Owned(before, o) + [] == Owned(before, o);
  }

  lemma NewestIsStored(store: Store.EscrowStore, reference: Text)
    requires store.Tied()
    ensures StoredIn(store.books, reference, StoredStatus(Values(store.transactions), reference))
  {
    NewestOfAll(store.transactions, reference);
    forall o ensures store.Shows(o) {}
    var stored := StoredStatus(Values(store.transactions), reference);
    if stored.Some? {
      var o :| StoredStatus(Owned(store.transactions, o), reference) == stored;
      assert store.Shows(o);
      assert Stored(store.books, o, reference) == stored;
    } else {
      forall o | o in store.books ensures Stored(store.books, o, reference) == None {
        assert store.Shows(o);
      }
    }
  }

  method ReconcileStored(store: Store.EscrowStore, id: string, stored: Option<string>, tx: Transaction, matches: bool,
                         now: int)
    returns (error: Option<Error>)
    requires store.Valid() && id in store.books
    modifies store
    ensures store.Valid() && id in store.books
    ensures CarriedOut(old(store.books), store.books, id,
                       DecideStored(old(store.books[id]).row, stored, tx, matches, now), error)
  {
    assert store.Shows(id);
    var escrow := store.escrows[id];
    if stored == Some("expired")
       || (escrow.paymentReference.Some? && escrow.paymentReference.value != tx.paymentReference) {
      error := PutToReview(store, id, LateForInstruction(tx), now);
    } else {
      error := ReconcileLive(store, id, tx, matches, now);
    }
  }

  method ReconcileLive(store: Store.EscrowStore, id: string, tx: Transaction, matches: bool, now: int)
    returns (error: Option<Error>)
    requires store.Valid() && id in store.books
    modifies store
    ensures store.Valid() && id in store.books
    ensures CarriedOut(old(store.books), store.books, id, DecideLive(old(store.books[id]).row, tx, matches, now), error)
  {
    assert store.Shows(id);
    if store.escrows[id].status == EXPIRED {
      error := PutToReview(store, id, LateForEscrow(tx), now);
    } else if tx.status != "success" {
      error := PutToReview(store, id, NotConfirmed(tx), now);
    } else if !matches {
      error := PutToReview(store, id, Mismatch(tx), now);
    } else {
      error := FundVerified(store, tx, now);
    }
  }

  method PutToReview(store: Store.EscrowStore, id: string, f: Finding, now: int) returns (error: Option<Error>)
    requires store.Valid() && id in store.books
    modifies store
    ensures store.Valid() && store.books == ReviewIn(old(store.books), id, f, now) && error == None
  {
    error := store.MarkPaymentReviewRequired(id, f, now);
  }

  method FundVerified(store: Store.EscrowStore, tx: Transaction, now: int) returns (error: Option<Error>)
    requires store.Valid()
    modifies store
    ensures store.Valid() && old(store.books).Keys <= store.books.Keys
    ensures if error.None?
            then exists o :: FundedIn(old(store.books), store.books, o, tx.paymentReference, ReceiptOf(tx), now)
            else error == Some(NoEscrowForPayment) && store.books == old(store.books)
                 && forall o {:trigger Holds(store.books, o, tx.paymentReference)} ::
                      o in store.books ==> !Holds(store.books, o, tx.paymentReference)
  {
    var found := store.MarkFundedByPaymentReference(tx.paymentReference, ReceiptOf(tx), now);
    if found.None? {
      return Some(NoEscrowForPayment);
    }
    assert FundedIn(old(store.books), store.books, found.value, tx.paymentReference, ReceiptOf(tx), now);
    return None;
  }

  // ----- what a refresh comes to -----

  /** A USDC payment that the provider calls active or settled funds a pending escrow, with the escrow's own amount,
      unless its row has expired. */
  lemma PaidUsdcIsFunded(b: Book, reference: Text, sandbox: bool, lead: int, charge: real, now: int)
    requires b.row.status == PENDING_PAYMENT && b.row.currency == USDC && b.row.paymentReference == Some(reference)
    requires !RowExpired(b.txns, reference)
    ensures var provider := if b.row.paymentProvider.None? then Some("x402") else b.row.paymentProvider;
            Effects.BookedAs(b, Synced(b, Asked(UsdcPaid, sandbox, lead), charge, now), reference,
                             Receipt(Some(b.row.amount), Some("success"), provider, None, Some(Payload(None, 0))), now)
  {
    var tx := Reported(b.row, Asked(UsdcPaid, sandbox, lead)).value;
    ExpiredIsStored(b.txns, reference);
    DecidesToFundExactlyWhen(b, tx, charge, now);
    DecideForms(b, tx, charge, now);
    Effects.PaymentEnds(b, reference, ReceiptOf(tx), now);
  }

  /** Of another currency, a payment that the provider has verified is reconciled as reported; in a sandbox, without a
      report, without an active reference or in another status, a refresh asks for nothing. */
  lemma ReportEnds(b: Book, r: Refresh, charge: real, now: int)
    requires b.row.currency != USDC
    ensures var asked := PayoutQuoteFor(b.row.amount, b.row.currency, b.row.feePayer, charge).totalWithFee;
            if r.Asked? && !r.sandbox && r.report.Verified? && r.report.tx.status in {"success", "successful"}
               && b.row.status == PENDING_PAYMENT && b.row.paymentReference.Some?
            then
              EndsAs(b, Synced(b, r, charge, now), r.report.tx,
                     FlagFor(b, r.report.tx, WithinTolerance(asked, r.report.tx.amount, b.row.amount)), now)
            else Synced(b, r, charge, now) == b
  {
    if Reported(b.row, r).Some? {
      ReconciliationEnds(b, r.report.tx, charge, now);
    }
  }

  /** A refresh ends with a reminder exactly when the escrow then is pending payment, has had no reminder, and its
      deadline is ahead by no more than the lead; a sandbox payment in another currency than USDC gets none. */
  lemma ReminderEnds(b: Book, r: Refresh, charge: real, now: int)
    requires r.Asked?
    ensures var f, s := Followed(b, r, charge, now), Synced(b, r, charge, now);
            var sandboxed := r.sandbox && b.row.currency != USDC && b.row.status == PENDING_PAYMENT
                             && b.row.paymentReference.Some?;
            && (sandboxed ==> f == b)
            && (!sandboxed ==>
                  (f == s || f == After(s, Remind(now)))
                  && (f == s <==>
                        !(s.row.status == PENDING_PAYMENT && s.row.lastPaymentReminderAt == None
                          && exists deadline :: s.row.fundingExpiresAt == Some(At(deadline))
                                                && now < deadline <= now + r.reminderLead)))
  {
    var s := Synced(b, r, charge, now);
    Effects.ReminderWrites(s, now);
    assert |After(s, Remind(now)).log| == |s.log| + 1;
    assert ReminderDue(s.row, r, now) <==>
             s.row.status == PENDING_PAYMENT && s.row.lastPaymentReminderAt == None
             && exists deadline :: s.row.fundingExpiresAt == Some(At(deadline))
                                   && now < deadline <= now + r.reminderLead;
  }

  // ----- when a reconciliation funds -----

  /** A reconciliation that settles on the books `b` funds the escrow exactly when the transaction is a new payment of
      it: its instruction is live, it is confirmed and within tolerance, the escrow has not been funded, and it carries
      the reference. Then the one new ledger entry has the amount and the reference of the transaction; otherwise the
      ledger is as before. */
  lemma SettlementFundsExactlyWhen(bs: Books, bs': Books, id: string, b: Book, tx: Transaction, charge: real, now: int,
                                   error: Option<Error>)
    requires id in bs
    ensures Settles(bs, bs', id, b, tx, charge, now, error) ==>
              && (Funded(b, bs'[id]) <==> Fundable(b, tx, charge))
              && (if Fundable(b, tx, charge) then error == None && BooksTransaction(b, bs'[id], tx)
                  else bs'[id].ledger == b.ledger)
              && forall o :: o in bs && o != id ==> bs'[o] == bs[o]
  {
    FundsExactlyWhen(b, tx, charge, now);
    DecidesToFundExactlyWhen(b, tx, charge, now);
  }

  lemma FundedNeedsNoRefresh(b: Book, r: Refresh, charge: real, now: int)
    requires b.row.status == IN_PROGRESS
    ensures Refreshed(b, r, charge, now) == b
  {
  }

  lemma SettlesInPlace(bs: Books, id: string, b: Book, tx: Transaction, charge: real, now: int)
    requires id in bs && bs[id] == b && After(b, Decide(b, tx, charge, now)) == b && Carries(b, tx.paymentReference)
    ensures Settles(bs, bs, id, b, tx, charge, now, None)
  {
    assert bs[id := b] == bs;
  }

  lemma RetryAfterRefresh(b: Book, b': Book, tx: Transaction, r: Refresh, charge: real, now: int, later: int)
    requires Fundable(b, tx, charge) && b' == After(b, Decide(b, tx, charge, now))
    ensures Refreshed(b', r, charge, later) == b' == After(b', Decide(b', tx, charge, later))
            && Carries(b', tx.paymentReference)
  {
    FundsExactlyWhen(b, tx, charge, now);
    FundedNeedsNoRefresh(b', r, charge, later);
    RetryChangesNothing(b, tx, charge, now, later);
  }

  /** A webhook that is delivered again before any other command, after any refresh, changes nothing once its
      transaction has funded the escrow. */
  lemma RedeliveryChangesNothing(bs: Books, bs': Books, id: string, b: Book, tx: Transaction, r: Refresh, charge: real,
                                 now: int, later: int,
                                 error: Option<Error>)
    requires id in bs && Settles(bs, bs', id, b, tx, charge, now, error) && Fundable(b, tx, charge)
    ensures Settles(bs', bs', id, Refreshed(bs'[id], r, charge, later), tx, charge, later, None)
  {
    RetryAfterRefresh(b, bs'[id], tx, r, charge, now, later);
    SettlesInPlace(bs', id, bs'[id], tx, charge, later);
  }
}
