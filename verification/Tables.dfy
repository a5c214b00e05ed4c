/** The four tables the escrows share, and the books of one escrow as a view of them. */
module Tables {
  import opened Wrappers
  import opened Escrow
  import opened Lifecycle
  import Effects
  import opened EventLog
  import opened Invariants

  /** A row of a shared table, tagged with the escrow it belongs to. */
  datatype Row<+T> = Row(owner: string, value: T)

  /** `WHERE escrow_id = id`, oldest row first. */
  function Owned<T>(rows: seq<Row<T>>, id: string): seq<T> {
    if rows == [] then []
    else
      var last := rows[|rows| - 1];
      Owned(rows[..|rows| - 1], id) + (if last.owner == id then [last.value] else [])
  }

  /** The rows of everybody. */
  function Values<T>(rows: seq<Row<T>>): seq<T> {
    seq(|rows|, i requires 0 <= i < |rows| => rows[i].value)
  }

  lemma OwnedAppend<T>(rows: seq<Row<T>>, r: Row<T>, id: string)
    ensures Owned(rows + [r], id) == Owned(rows, id) + (if r.owner == id then [r.value] else [])
  {
    assert (rows + [r])[..|rows|] == rows;
  }

  /** The status update of every row of a reference, whoever owns it. */
  function RestatusRows(rows: seq<Row<Txn>>, reference: Text, status: string, fee: Option<real>,
                        payload: Option<Payload>): seq<Row<Txn>>
  {
    seq(|rows|, i requires 0 <= i < |rows| => Row(rows[i].owner, Restatus(rows[i].value, reference, status, fee,
                                                                          payload)))
  }

  /** Updating the shared table updates each escrow's rows. */
  lemma {:induction false} RestatusIsLocal(rows: seq<Row<Txn>>, id: string, reference: Text, status: string,
                                           fee: Option<real>, payload: Option<Payload>)
    ensures Owned(RestatusRows(rows, reference, status, fee, payload), id) == RestatusAll(Owned(rows, id), reference,
        status, fee, payload)
  {
    if rows != [] {
      var before := rows[..|rows| - 1];
      RestatusIsLocal(before, id, reference, status, fee, payload);
      assert RestatusRows(rows, reference, status, fee, payload)[..|rows| - 1] == RestatusRows(before, reference,
          status, fee, payload);
    }
  }

  /** Rows without the reference are left alone. */
  lemma RestatusOfOthers(txns: seq<Txn>, reference: Text, status: string, fee: Option<real>, payload: Option<Payload>)
    requires forall i :: 0 <= i < |txns| ==> txns[i].reference != Some(reference)
    ensures RestatusAll(txns, reference, status, fee, payload) == txns
  {
  }

  /** The books of every escrow. */
  type Books = map<string, Book>

  /** A payment reference of an escrow: its active one, or one of a funding row. */
  predicate Pays(b: Book, r: Text) {
    || b.row.paymentReference == Some(r)
    || exists i | 0 <= i < |b.txns| :: b.txns[i].kind == FundingTxn && b.txns[i].reference == Some(r)
  }

  // The quantified facts below are behind named predicates, so that a proof meets them only where it names them.

  predicate Clash(bs: Books, o: string, p: string, r: Text)
    requires o in bs && p in bs
  {
    Pays(bs[o], r) && Carries(bs[p], r)
  }

  /** A payment reference of one escrow is on no row of another. Payout references may be shared. */
  ghost predicate OwnReferences(bs: Books) {
    forall o, p, r {:trigger Clash(bs, o, p, r)} :: o in bs && p in bs && Clash(bs, o, p, r) ==> o == p
  }

  ghost predicate Sound(bs: Books, id: string)
    requires id in bs
  {
    bs[id].id == id && Inv(bs[id])
  }

  ghost predicate ValidBooks(bs: Books) {
    OwnReferences(bs) && forall id {:trigger Sound(bs, id)} :: id in bs ==> Sound(bs, id)
  }

  /** The payment reference a command introduces. */
  function NewPayment(c: Command): set<Text> {
    if c.Attach? then {c.instruction.paymentReference} else {}
  }

  /** The payout references a command writes. */
  function NewPayout(id: string, c: Command): set<Text> {
    match c
    case Approve(_, release, _, _) => if release.payoutReference == "" then {} else {release.payoutReference}
    case Resolve(_, outcome, _, reference, _) =>
      if reference != "" then {reference} else if outcome == ReleaseToSeller then {"dispute-release-" + id} else {}
    case PayoutPending(_, _, _, _, reference, _, _) => if reference == "" then {} else {reference}
    case _ => {}
  }

  /** No other escrow carries the reference. */
  ghost predicate Exclusive(bs: Books, id: string, r: Text) {
    forall o {:trigger Holds(bs, o, r)} :: o in bs && o != id ==> !Holds(bs, o, r)
  }

  predicate Holds(bs: Books, id: string, r: Text)
    requires id in bs
  {
    Carries(bs[id], r)
  }

  /** It is no other escrow's payment reference. */
  ghost predicate Unclaimed(bs: Books, id: string, r: Text) {
    forall o {:trigger Claims(bs, o, r)} :: o in bs && o != id ==> !Claims(bs, o, r)
  }

  predicate Claims(bs: Books, id: string, r: Text)
    requires id in bs
  {
    Pays(bs[id], r)
  }

  /** A payment reference that a command introduces is on no other escrow's rows, a payout reference is no other
      escrow's payment reference. */
  ghost predicate Free(bs: Books, id: string, c: Command) {
    && (forall r :: r in NewPayment(c) ==> Exclusive(bs, id, r))
    && (forall r :: r in NewPayout(id, c) ==> Unclaimed(bs, id, r))
  }

  /** What keeps the books valid: the callers' discipline, and references that are free. */
  ghost predicate Permitted(bs: Books, id: string, c: Command) {
    (id in bs ==> Disciplined(bs[id], c)) && Free(bs, id, c)
  }

  /** The books of one escrow are what the outcome of a call says, those of the others are as before. */
  ghost predicate Wrote(bs: Books, bs': Books, id: string, outcome: Outcome, error: Option<Error>) {
    match outcome
    case Done(b) => bs' == bs[id := b] && error == None
    case Rejected(e) => bs' == bs && error == Some(e)
  }

  /** A call on one escrow did what `Apply` says, and nothing to the others. */
  ghost predicate Performed(bs: Books, bs': Books, id: string, c: Command, error: Option<Error>) {
    if id !in bs then bs' == bs && error == Some(EscrowNotFound) else Wrote(bs, bs', id, Apply(bs[id], c), error)
  }

  /** No other escrow carries the active reference of this one. */
  ghost predicate OwnsActive(bs: Books, id: string)
    requires id in bs
  {
    bs[id].row.paymentReference.Some? ==> Exclusive(bs, id, bs[id].row.paymentReference.value)
  }

  lemma OwnerIsExclusive(bs: Books, id: string, r: Text)
    requires ValidBooks(bs) && id in bs && Pays(bs[id], r)
    ensures Exclusive(bs, id, r)
  {
    forall o | o in bs && o != id ensures !Holds(bs, o, r) {
      assert Clash(bs, id, o, r) ==> o == id;
    }
  }

  lemma ActiveIsExclusive(bs: Books, id: string)
    requires ValidBooks(bs) && id in bs
    ensures OwnsActive(bs, id)
  {
    if bs[id].row.paymentReference.Some? {
      OwnerIsExclusive(bs, id, bs[id].row.paymentReference.value);
    }
  }

  lemma StaysExclusive(bs: Books, bs': Books, id: string, r: Text)
    requires Exclusive(bs, id, r) && id in bs && id in bs' && bs' == bs[id := bs'[id]]
    ensures Exclusive(bs', id, r)
  {
    forall o | o in bs' && o != id ensures !Holds(bs', o, r) {
      assert !Holds(bs, o, r);
    }
  }

  // ----- references -----

  /** Where the references of the rows after a step come from. */
  ghost predicate ReferencesFrom(b: Book, b': Book, payments: set<Text>, payouts: set<Text>) {
    && (b'.row.paymentReference.Some? ==>
          b'.row.paymentReference == b.row.paymentReference || b'.row.paymentReference.value in payments)
    && |b'.txns| >= |b.txns|
    && (forall i :: 0 <= i < |b.txns| ==>
          b'.txns[i].reference == b.txns[i].reference && b'.txns[i].kind == b.txns[i].kind)
    && (forall i :: |b.txns| <= i < |b'.txns| && b'.txns[i].reference.Some? ==>
          b'.txns[i].reference.value in if b'.txns[i].kind == FundingTxn then payments else payouts)
  }

  lemma AttachReferences(b: Book, i: Instruction, now: int)
    ensures ReferencesFrom(b, AttachPayment(b, i, now), {i.paymentReference}, {})
  {
  }

  lemma FundReferences(b: Book, reference: Text, receipt: Receipt, now: int)
    ensures ReferencesFrom(b, MarkFunded(b, reference, receipt, now), {}, {})
  {
  }

  lemma ExpireReferences(b: Book, now: int)
    ensures ReferencesFrom(b, ExpirePendingPayment(b, now), {}, {})
  {
  }

  lemma ReviewReferences(b: Book, f: Finding, now: int)
    ensures ReferencesFrom(b, MarkReviewRequired(b, f, now), {}, {})
  {
  }

  lemma CancelReferences(b: Book, actor: Text, directory: Directory, channel: string, now: int)
    ensures var r := CancelUnfunded(b, actor, directory, channel, now); r.Done? ==> ReferencesFrom(b, r.book, {}, {})
  {
  }

  lemma ReleaseReferences(b: Book, admin: Text, release: Release, payout: Option<PayoutAccount>, now: int)
    ensures var r := ApproveManualRelease(b, admin, release, payout, now); r.Done? ==>
              ReferencesFrom(b, r.book, {}, {release.payoutReference})
  {
  }

  lemma ResolveReferences(b: Book, admin: Text, outcome: DisputeOutcome, reason: string, reference: string, now: int)
    ensures var r := ResolveDispute(b, admin, outcome, reason, reference, now);
            r.Done? ==> ReferencesFrom(b, r.book, {}, NewPayout(b.id, Resolve(admin, outcome, reason, reference, now)))
  {
  }

  /** The other operations leave the references alone, save that an unfinished payout records its own. */
  lemma OtherReferences(b: Book, c: Command)
    requires c.Accept? || c.Remind? || c.RequestRelease? || c.Complete? || c.Deliver? || c.Dispute? || c.PayoutPending?
             || c.Annotate?
    ensures ReferencesFrom(b, After(b, c), {}, NewPayout(b.id, c))
  {
  }

  lemma StepReferences(b: Book, c: Command)
    ensures ReferencesFrom(b, After(b, c), NewPayment(c), NewPayout(b.id, c))
  {
    match c
    case Attach(i, now) => AttachReferences(b, i, now);
    case Fund(reference, receipt, now) => FundReferences(b, reference, receipt, now);
    case Expire(now) => ExpireReferences(b, now);
    case Review(f, now) => ReviewReferences(b, f, now);
    case Cancel(actor, directory, channel, now) => CancelReferences(b, actor, directory, channel, now);
    case Approve(admin, release, payout, now) => ReleaseReferences(b, admin, release, payout, now);
    case Resolve(admin, outcome, reason, reference, now) => ResolveReferences(b, admin, outcome, reason, reference,
                                                                              now);
    case _ => OtherReferences(b, c);
  }

  lemma CarriedAfter(b: Book, b': Book, payments: set<Text>, payouts: set<Text>, r: Text)
    requires ReferencesFrom(b, b', payments, payouts)
    ensures Carries(b', r) ==> Carries(b, r) || r in payments || r in payouts
    ensures Pays(b', r) ==> Pays(b, r) || r in payments
  {
  }

  /** A call keeps the books valid. */
  lemma PerformedKeepsValid(bs: Books, bs': Books, id: string, c: Command, error: Option<Error>)
    requires ValidBooks(bs) && Performed(bs, bs', id, c, error)
    requires Permitted(bs, id, c)
    ensures ValidBooks(bs')
  {
    if bs' != bs {
      var b := bs[id];
      assert Sound(bs, id);
      InvStep(b, c);
      StepShape(b, c);
      forall o | o in bs' ensures Sound(bs', o) {
        assert Sound(bs, o);
      }
      forall o, p, r | o in bs' && p in bs' && Clash(bs', o, p, r) ensures o == p {
        ReferenceHasOneOwner(bs, id, c, o, p, r);
      }
    }
  }

  lemma ReferenceHasOneOwner(bs: Books, id: string, c: Command, o: string, p: string, r: Text)
    requires OwnReferences(bs) && id in bs && bs[id].id == id && o in bs && p in bs
    requires Free(bs, id, c)
    requires Clash(bs[id := After(bs[id], c)], o, p, r)
    ensures o == p
  {
    StepReferences(bs[id], c);
    CarriedAfter(bs[id], After(bs[id], c), NewPayment(c), NewPayout(id, c), r);
    if o == id && p != id {
      NewPayer(bs, id, c, p, r);
    } else if p == id && o != id {
      NewHolder(bs, id, c, o, r);
    } else if o != id && p != id {
      assert Clash(bs, o, p, r);
    }
  }

  /** The escrow of the call does not take a reference that another one carries for a payment of its own. */
  lemma NewPayer(bs: Books, id: string, c: Command, other: string, r: Text)
    requires OwnReferences(bs) && id in bs && other in bs && other != id && Free(bs, id, c)
    requires Pays(After(bs[id], c), r) ==> Pays(bs[id], r) || r in NewPayment(c)
    ensures !(Pays(After(bs[id], c), r) && Carries(bs[other], r))
  {
    if Pays(bs[id], r) {
      assert Clash(bs, id, other, r) ==> id == other;
    } else if r in NewPayment(c) {
      assert !Holds(bs, other, r);
    }
  }

  /** Nor does it write another one's payment reference on a row of its own. */
  lemma NewHolder(bs: Books, id: string, c: Command, other: string, r: Text)
    requires OwnReferences(bs) && id in bs && other in bs && other != id && Free(bs, id, c)
    requires Carries(After(bs[id], c), r) ==> Carries(bs[id], r) || r in NewPayment(c) || r in NewPayout(id, c)
    ensures !(Pays(bs[other], r) && Carries(After(bs[id], c), r))
  {
    if Carries(bs[id], r) {
      assert Clash(bs, other, id, r) ==> other == id;
    } else if r in NewPayment(c) {
      assert !Holds(bs, other, r);
    } else if r in NewPayout(id, c) {
      assert !Claims(bs, other, r);
    }
  }

  /** So does creating an escrow under an unused id. */
  lemma CreatedKeepsValid(bs: Books, id: string, input: NewEscrow, now: int)
    requires ValidBooks(bs) && id !in bs
    ensures ValidBooks(bs[id := Create(id, input, now)])
  {
    var bs' := bs[id := Create(id, input, now)];
    InvInitially(id, input, now);
    forall o | o in bs' ensures Sound(bs', o) {
      if o != id {
        assert Sound(bs, o);
      }
    }
    forall o, p, r | o in bs' && p in bs' && Clash(bs', o, p, r) ensures o == p {
      if o in bs && p in bs && o != id && p != id {
        assert Clash(bs, o, p, r);
      }
    }
  }

  // ----- updates by reference alone -----

  /** The status update of a reference, on the books of every escrow that carries it. */
  function Everywhere(bs: Books, reference: Text, status: string, fee: Option<real>, payload: Option<Payload>): Books {
    map o | o in bs :: UpdateTransactionStatus(bs[o], reference, status, fee, payload)
  }

  lemma EverywhereIsLocal(bs: Books, id: string, reference: Text, status: string, fee: Option<real>,
                          payload: Option<Payload>)
    requires id in bs && Exclusive(bs, id, reference)
    ensures Everywhere(bs, reference, status, fee, payload) == bs[id := UpdateTransactionStatus(bs[id], reference,
        status, fee, payload)]
  {
    forall o | o in bs && o != id ensures UpdateTransactionStatus(bs[o], reference, status, fee, payload) == bs[o] {
      assert !Holds(bs, o, reference);
      RestatusOfOthers(bs[o].txns, reference, status, fee, payload);
    }
  }

  /** The books after a funding of one escrow. */
  function FundIn(bs: Books, id: string, reference: Text, receipt: Receipt, now: int): Books
    requires id in bs
  {
    if bs[id].row.status in FUNDED_OR_LATER then bs
    else
      var received := FundingReceived(bs[id], reference, receipt, now);
      var bs1 := Everywhere(bs[id := received], reference, "success", receipt.processorFee, receipt.payload);
      bs1[id := WithEntry(bs1[id], FundingEntryOf(bs[id].row, reference, receipt))]
  }

  /** The books after a payment review of one escrow. */
  function ReviewIn(bs: Books, id: string, f: Finding, now: int): Books
    requires id in bs
  {
    var bs1 := bs[id := ReviewReceived(bs[id], f, now)];
    if f.reference.Some? then Everywhere(bs1, f.reference.value, "review_required", None, Some(NO_DATES)) else bs1
  }

  lemma FundInIsLocal(bs: Books, id: string, reference: Text, receipt: Receipt, now: int)
    requires id in bs && Exclusive(bs, id, reference)
    ensures FundIn(bs, id, reference, receipt, now) == bs[id := MarkFunded(bs[id], reference, receipt, now)]
  {
    if bs[id].row.status !in FUNDED_OR_LATER {
      var bs1 := bs[id := FundingReceived(bs[id], reference, receipt, now)];
      StaysExclusive(bs, bs1, id, reference);
      EverywhereIsLocal(bs1, id, reference, "success", receipt.processorFee, receipt.payload);
    }
  }

  lemma ReviewInIsLocal(bs: Books, id: string, f: Finding, now: int)
    requires id in bs && (f.reference.Some? ==> Exclusive(bs, id, f.reference.value))
    ensures ReviewIn(bs, id, f, now) == bs[id := MarkReviewRequired(bs[id], f, now)]
  {
    if f.reference.Some? {
      var bs1 := bs[id := ReviewReceived(bs[id], f, now)];
      StaysExclusive(bs, bs1, id, f.reference.value);
      EverywhereIsLocal(bs1, id, f.reference.value, "review_required", None, Some(NO_DATES));
    }
  }

  /** Of an escrow that merely shares the reference, the rows of the reference change and nothing else. */
  predicate OnlyRowsGot(b: Book, b': Book, reference: Text, status: string, fee: Option<real>,
                        payload: Option<Payload>)
  {
    b' == b.(txns := b'.txns) && Effects.RowsGot(b.txns, b'.txns, reference, status, fee, payload)
  }

  /** Whoever shares the reference, a payment is booked on the one escrow, in the statuses that take one, and changes
      nothing in the others. */
  lemma SharedPayment(bs: Books, id: string, reference: Text, receipt: Receipt, now: int)
    requires id in bs
    ensures var bs' := FundIn(bs, id, reference, receipt, now);
            if bs[id].row.status in {FUNDED, IN_PROGRESS, COMPLETED, PENDING_RELEASE, RELEASED} then bs' == bs
            else
              && bs'.Keys == bs.Keys
              && Effects.BookedAs(bs[id], bs'[id], reference, receipt, now)
              && forall o :: o in bs && o != id ==>
                   OnlyRowsGot(bs[o], bs'[o], reference, "success", receipt.processorFee, receipt.payload)
  {
    if bs[id].row.status !in {FUNDED, IN_PROGRESS, COMPLETED, PENDING_RELEASE, RELEASED} {
      Effects.PaymentWrites(bs[id], reference, receipt, now);
      assert FundIn(bs, id, reference, receipt, now)[id] == MarkFunded(bs[id], reference, receipt, now);
    }
  }

  /** Whoever shares the reference, a review is one of the one escrow. */
  lemma SharedReview(bs: Books, id: string, f: Finding, now: int)
    requires id in bs
    ensures var bs' := ReviewIn(bs, id, f, now);
            && bs'.Keys == bs.Keys
            && bs'[id] == After(bs[id], Review(f, now))
            && forall o :: o in bs && o != id ==>
                 if f.reference.None? then bs'[o] == bs[o]
                 else OnlyRowsGot(bs[o], bs'[o], f.reference.value, "review_required", None, Some(Payload(None, 0)))
  {
  }

  /** At most the status of transaction rows differs, and none has become pending. */
  ghost predicate Restatused(b: Book, b': Book) {
    || b' == b
    || exists r, status, fee, payload ::
         status != "pending" && b' == UpdateTransactionStatus(b, r, status, fee, payload)
  }

  lemma RestatusKeepsBook(b: Book, b': Book)
    requires Inv(b) && Restatused(b, b')
    ensures Inv(b') && b'.id == b.id && ReferencesFrom(b, b', {}, {})
  {
    if b' != b {
      var r, status, fee, payload :| status != "pending" && b' == UpdateTransactionStatus(b, r, status, fee, payload);
      assert Postings(b'.ledger) == Postings(b.ledger);
    }
  }

  /** A call on one escrow that restatuses rows of others keeps the books valid. */
  lemma SpreadKeepsValid(bs: Books, bs': Books, id: string, c: Command)
    requires ValidBooks(bs) && id in bs && bs'.Keys == bs.Keys && bs'[id] == After(bs[id], c)
    requires (c.Fund? || c.Review?) && forall o :: o in bs && o != id ==> Restatused(bs[o], bs'[o])
    ensures ValidBooks(bs')
  {
    var mid := bs[id := After(bs[id], c)];
    var error := match Apply(bs[id], c) case Done(_) => None case Rejected(e) => Some(e);
    PerformedKeepsValid(bs, mid, id, c, error);
    forall o | o in bs' ensures Sound(bs', o) && ReferencesFrom(mid[o], bs'[o], {}, {}) {
      assert Sound(mid, o);
      if o == id {
        RestatusKeepsBook(mid[o], bs'[o]);
      } else {
        RestatusKeepsBook(bs[o], bs'[o]);
      }
    }
    forall o, p, r | o in bs' && p in bs' && Clash(bs', o, p, r) ensures o == p {
      CarriedAfter(mid[o], bs'[o], {}, {}, r);
      CarriedAfter(mid[p], bs'[p], {}, {}, r);
      assert Clash(mid, o, p, r);
    }
  }

  lemma FundInKeepsValid(bs: Books, id: string, reference: Text, receipt: Receipt, now: int)
    requires ValidBooks(bs) && id in bs && Carries(bs[id], reference)
    ensures ValidBooks(FundIn(bs, id, reference, receipt, now))
  {
    var bs' := FundIn(bs, id, reference, receipt, now);
    forall o | o in bs && o != id ensures Restatused(bs[o], bs'[o]) {
      assert bs[id].row.status !in FUNDED_OR_LATER ==>
               "success" != "pending" && bs'[o] == UpdateTransactionStatus(bs[o], reference, "success",
                                                                           receipt.processorFee, receipt.payload);
    }
    assert "success"[0] != "pending"[0];
    SpreadKeepsValid(bs, bs', id, Fund(reference, receipt, now));
  }

  lemma ReviewInKeepsValid(bs: Books, id: string, f: Finding, now: int)
    requires ValidBooks(bs) && id in bs
    ensures ValidBooks(ReviewIn(bs, id, f, now))
  {
    var bs' := ReviewIn(bs, id, f, now);
    assert "review_required"[0] != "pending"[0];
    forall o | o in bs && o != id ensures Restatused(bs[o], bs'[o]) {
      assert f.reference.Some? ==>
               "review_required" != "pending" && bs'[o] == UpdateTransactionStatus(bs[o], f.reference.value,
                   "review_required", None, Some(NO_DATES));
    }
    SpreadKeepsValid(bs, bs', id, Review(f, now));
  }
}
