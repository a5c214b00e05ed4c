/** Calls on many escrows, in any order, on the four shared tables: each escrow lives as if the calls on it were the
    only ones. */
module Traces {
  import opened Wrappers
  import opened Escrow
  import opened Lifecycle
  import opened Tables
  import EscrowStore

  datatype Store = Store(
    escrows: map<string, EscrowRow>,
    transactions: seq<Row<Txn>>,
    ledger: seq<Row<LedgerEntry>>,
    events: seq<Row<Event>>)

  function View(s: Store, id: string): Book
    requires id in s.escrows
  {
    Book(id, s.escrows[id], Owned(s.transactions, id), Owned(s.ledger, id), Owned(s.events, id))
  }

  function BooksOf(s: Store): Books {
    map id | id in s.escrows :: View(s, id)
  }

  /** The class keeps these views in its ghost field. */
  lemma BooksOfStore(store: EscrowStore.EscrowStore)
    requires store.Tied()
    ensures BooksOf(Store(store.escrows, store.transactions, store.ledger, store.events)) == store.books
  {
    forall id | id in store.books ensures store.Shows(id) {}
  }

  // ----- one call, on the tables -----

  /** An update of the transaction table by reference alone. */
  datatype Update = Update(reference: Text, status: string, fee: Option<real>, payload: Option<Payload>)

  function Lapse(row: EscrowRow, payload: Payload): Option<Update> {
    if row.paymentReference.Some? then Some(Update(row.paymentReference.value, "expired", None, Some(payload)))
    else None
  }

  function ExpiryUpdate(b: Book, now: int): Option<Update> {
    if b.row.status != PENDING_PAYMENT then None
    else if Due(b.row.fundingExpiresAt, now) then Lapse(b.row, NO_DATES)
    else if b.row.paymentReference.None? then None
    else
      var funding := NewestPending(b.txns, b.row.paymentReference.value);
      if funding.None? || !Due(InstructionDeadline(b.row, funding.value), now) then None
      else Lapse(b.row, Payload(InstructionDeadline(b.row, funding.value), 0))
  }

  /** The one update that a command makes. */
  function UpdateOf(b: Book, c: Command): Option<Update> {
    match c
    case Attach(i, _) => if b.row.paymentReference == Some(i.paymentReference) then None else Lapse(b.row, NO_DATES)
    case Fund(reference, receipt, _) =>
      if !Carries(b, reference) || b.row.status in FUNDED_OR_LATER then None
      else Some(Update(reference, "success", receipt.processorFee, receipt.payload))
    case Expire(now) => ExpiryUpdate(b, now)
    case Review(f, _) => if f.reference.None? then None
      else Some(Update(f.reference.value, "review_required", None, Some(NO_DATES)))
    case Cancel(actor, directory, channel, now) =>
      if CancelUnfunded(b, actor, directory, channel, now).Rejected? || b.row.status == CANCELLED
         || b.row.paymentReference.None? then None
      else Some(Update(b.row.paymentReference.value, "cancelled", None, Some(NO_DATES)))
    case _ => None
  }

  function Updated(txns: seq<Txn>, u: Option<Update>): seq<Txn> {
    if u.None? then txns else RestatusAll(txns, u.value.reference, u.value.status, u.value.fee, u.value.payload)
  }

  /** The update reaches every row of the table that has the reference, whatever escrow it belongs to. */
  function UpdatedRows(rows: seq<Row<Txn>>, u: Option<Update>): seq<Row<Txn>> {
    if u.None? then rows else RestatusRows(rows, u.value.reference, u.value.status, u.value.fee, u.value.payload)
  }

  function Tag<T>(id: string, values: seq<T>): seq<Row<T>> {
    seq(|values|, i requires 0 <= i < |values| => Row(id, values[i]))
  }

  /** The tables after an escrow's row is replaced, one update by reference, and new rows at the end of three tables. */
  function Write(s: Store, id: string, b': Book, u: Option<Update>): Store
    requires id in s.escrows && Grows(View(s, id), b', u)
  {
    var b := View(s, id);
    Store(s.escrows[id := b'.row],
          UpdatedRows(s.transactions, u) + Tag(id, b'.txns[|b.txns|..]),
          s.ledger + Tag(id, b'.ledger[|b.ledger|..]),
          s.events + Tag(id, b'.log[|b.log|..]))
  }

  /** What a call writes. */
  function Perform(s: Store, id: string, c: Command): Store {
    if id !in s.escrows then s
    else
      StepGrows(View(s, id), c);
      Write(s, id, After(View(s, id), c), UpdateOf(View(s, id), c))
  }

  function Insert(s: Store, b: Book): Store {
    Store(s.escrows[b.id := b.row], s.transactions, s.ledger, s.events + Tag(b.id, b.log))
  }

  datatype Call = Open(id: string, input: NewEscrow, t0: int) | On(id: string, command: Command)

  /** The tables after one more call. An id is opened once; a call on an unknown id changes nothing. */
  function Step(s: Store, call: Call): Store {
    match call
    case Open(id, input, t0) => if id in s.escrows then s else Insert(s, Create(id, input, t0))
    case On(id, c) => Perform(s, id, c)
  }

  // ----- a command only updates and appends -----

  /** The rows of an escrow after a command are the old ones under its one update, and new ones after them. */
  predicate Grows(b: Book, b': Book, u: Option<Update>) {
    && b'.id == b.id
    && |b'.txns| >= |b.txns| && b'.txns[..|b.txns|] == Updated(b.txns, u)
    && b.ledger <= b'.ledger && b.log <= b'.log
  }

  lemma AttachGrows(b: Book, c: Command)
    requires c.Attach?
    ensures Grows(b, After(b, c), UpdateOf(b, c))
  {
  }

  lemma FundGrows(b: Book, c: Command)
    requires c.Fund? || c.Review?
    ensures Grows(b, After(b, c), UpdateOf(b, c))
  {
  }

  lemma ExpireGrows(b: Book, c: Command)
    requires c.Expire?
    ensures Grows(b, After(b, c), UpdateOf(b, c))
  {
  }

  lemma CancelGrows(b: Book, c: Command)
    requires c.Cancel?
    ensures Grows(b, After(b, c), UpdateOf(b, c))
  {
  }

  lemma SettleGrows(b: Book, c: Command)
    requires c.Approve? || c.Resolve?
    ensures Grows(b, After(b, c), None)
  {
  }

  lemma OtherGrows(b: Book, c: Command)
    requires c.Accept? || c.Remind? || c.RequestRelease? || c.Complete? || c.Deliver? || c.Dispute? || c.PayoutPending?
             || c.Annotate?
    ensures Grows(b, After(b, c), None)
  {
  }

  lemma StepGrows(b: Book, c: Command)
    ensures Grows(b, After(b, c), UpdateOf(b, c))
  {
    match c
    case Attach(_, _) => AttachGrows(b, c);
    case Fund(_, _, _) => FundGrows(b, c);
    case Review(_, _) => FundGrows(b, c);
    case Expire(_) => ExpireGrows(b, c);
    case Cancel(_, _, _, _) => CancelGrows(b, c);
    case Approve(_, _, _, _) => SettleGrows(b, c);
    case Resolve(_, _, _, _, _) => SettleGrows(b, c);
    case _ => OtherGrows(b, c);
  }

  // ----- what an escrow sees of a call on another -----

  lemma {:induction false} OwnedConcat<T>(p: seq<Row<T>>, q: seq<Row<T>>, id: string)
    ensures Owned(p + q, id) == Owned(p, id) + Owned(q, id)
  {
    if q == [] {
      assert p + q == p;
    } else {
      OwnedConcat(p, q[..|q| - 1], id);
      assert (p + q)[..|p + q| - 1] == p + q[..|q| - 1];
    }
  }

  lemma {:induction false} OwnedTag<T>(id: string, values: seq<T>, o: string)
    ensures Owned(Tag(id, values), o) == if o == id then values else []
    decreases |values|
  {
    if values != [] {
      var before := values[..|values| - 1];
      OwnedTag(id, before, o);
      assert Tag(id, values)[..|values| - 1] == Tag(id, before);
      assert values == before + [values[|values| - 1]];
    }
  }

  lemma AppendedRows<T>(rows: seq<Row<T>>, id: string, values: seq<T>, o: string)
    ensures Owned(rows + Tag(id, values), o) == Owned(rows, o) + (if o == id then values else [])
  {
    OwnedConcat(rows, Tag(id, values), o);
    OwnedTag(id, values, o);
  }

  lemma UpdatedRowsAreLocal(rows: seq<Row<Txn>>, u: Option<Update>, o: string)
    ensures Owned(UpdatedRows(rows, u), o) == Updated(Owned(rows, o), u)
  {
    if u.Some? {
      RestatusIsLocal(rows, o, u.value.reference, u.value.status, u.value.fee, u.value.payload);
    }
  }

  predicate NoRows(s: Store, id: string) {
    Owned(s.transactions, id) == [] && Owned(s.ledger, id) == [] && Owned(s.events, id) == []
  }

  /** Rows without an escrow do not exist. */
  ghost predicate Tidy(s: Store) {
    forall id :: id !in s.escrows ==> NoRows(s, id)
  }

  predicate Spared(txns: seq<Txn>, u: Option<Update>) {
    u.Some? ==> forall i :: 0 <= i < |txns| ==> txns[i].reference != Some(u.value.reference)
  }

  lemma SparedStays(txns: seq<Txn>, u: Option<Update>)
    requires Spared(txns, u)
    ensures Updated(txns, u) == txns
  {
    if u.Some? {
      RestatusOfOthers(txns, u.value.reference, u.value.status, u.value.fee, u.value.payload);
    }
  }

  predicate Sees(s: Store, s': Store, id: string, b': Book, o: string) {
    && Owned(s'.transactions, o) == (if o == id then b'.txns else Owned(s.transactions, o))
    && Owned(s'.ledger, o) == (if o == id then b'.ledger else Owned(s.ledger, o))
    && Owned(s'.events, o) == (if o == id then b'.log else Owned(s.events, o))
  }

  /** What an escrow sees of a write to `id`: its own new rows, or nothing. */
  lemma RowsAfter(s: Store, id: string, b': Book, u: Option<Update>, o: string)
    requires id in s.escrows && Grows(View(s, id), b', u) && (o != id ==> Spared(Owned(s.transactions, o), u))
    ensures Sees(s, Write(s, id, b', u), id, b', o)
  {
    var b := View(s, id);
    UpdatedRowsAreLocal(s.transactions, u, o);
    AppendedRows(UpdatedRows(s.transactions, u), id, b'.txns[|b.txns|..], o);
    AppendedRows(s.ledger, id, b'.ledger[|b.ledger|..], o);
    AppendedRows(s.events, id, b'.log[|b.log|..], o);
    if o == id {
      assert b'.txns == b'.txns[..|b.txns|] + b'.txns[|b.txns|..];
      assert b'.ledger == b.ledger + b'.ledger[|b.ledger|..] && b'.log == b.log + b'.log[|b.log|..];
    } else {
      SparedStays(Owned(s.transactions, o), u);
    }
  }

  /** No other escrow has a row of the reference that the update goes by. */
  ghost predicate Apart(s: Store, id: string, u: Option<Update>) {
    u.Some? ==> Exclusive(BooksOf(s), id, u.value.reference)
  }

  lemma ApartSpares(s: Store, id: string, u: Option<Update>, o: string)
    requires Tidy(s) && Apart(s, id, u) && o != id
    ensures Spared(Owned(s.transactions, o), u)
  {
    if u.Some? && o in s.escrows {
      assert !Holds(BooksOf(s), o, u.value.reference);
    }
  }

  lemma WriteIsLocal(s: Store, id: string, b': Book, u: Option<Update>)
    requires Tidy(s) && id in s.escrows && Grows(View(s, id), b', u) && Apart(s, id, u)
    ensures Tidy(Write(s, id, b', u))
    ensures BooksOf(Write(s, id, b', u)) == BooksOf(s)[id := b']
  {
    var s' := Write(s, id, b', u);
    assert s'.escrows == s.escrows[id := b'.row];
    forall o ensures Sees(s, s', id, b', o) {
      if o != id {
        ApartSpares(s, id, u, o);
      }
      RowsAfter(s, id, b', u, o);
    }
    SeenBooks(s, s', id, b');
  }

  lemma SeenBooks(s: Store, s': Store, id: string, b': Book)
    requires Tidy(s) && id in s.escrows && b'.id == id && s'.escrows == s.escrows[id := b'.row]
    requires forall o :: Sees(s, s', id, b', o)
    ensures Tidy(s') && BooksOf(s') == BooksOf(s)[id := b']
  {
    forall o | o !in s'.escrows ensures NoRows(s', o) {
      assert Sees(s, s', id, b', o) && NoRows(s, o);
    }
    forall o | o in s'.escrows ensures View(s', o) == if o == id then b' else View(s, o) {
      assert Sees(s, s', id, b', o);
    }
  }

  /** A call on one escrow does to its books what the command says, and nothing to those of the others. */
  lemma PerformIsLocal(s: Store, id: string, c: Command)
    requires Tidy(s) && id in s.escrows && Apart(s, id, UpdateOf(View(s, id), c))
    ensures Tidy(Perform(s, id, c))
    ensures BooksOf(Perform(s, id, c)) == BooksOf(s)[id := After(View(s, id), c)]
  {
    StepGrows(View(s, id), c);
    WriteIsLocal(s, id, After(View(s, id), c), UpdateOf(View(s, id), c));
  }

  lemma InsertIsLocal(s: Store, b: Book)
    requires Tidy(s) && b.id !in s.escrows && b.txns == [] && b.ledger == []
    ensures Tidy(Insert(s, b)) && BooksOf(Insert(s, b)) == BooksOf(s)[b.id := b]
  {
    var s' := Insert(s, b);
    forall o ensures Owned(s'.events, o) == Owned(s.events, o) + (if o == b.id then b.log else []) {
      AppendedRows(s.events, b.id, b.log, o);
    }
    forall o | o in s'.escrows ensures View(s', o) == if o == b.id then b else View(s, o) {}
  }

  // ----- traces -----

  function Play(calls: seq<Call>): Store {
    if calls == [] then Store(map[], [], [], []) else Step(Play(calls[..|calls| - 1]), calls[|calls| - 1])
  }

  /** The discipline of the callers, and payment references that belong to one escrow: those a command introduces, the
      one a payment is booked under, and the one a payment review names. */
  ghost predicate Allowed(bs: Books, call: Call) {
    call.On? ==>
      && Permitted(bs, call.id, call.command)
      && (call.command.Fund? && call.id in bs && Carries(bs[call.id], call.command.reference) ==>
            Exclusive(bs, call.id, call.command.reference))
      && (call.command.Review? && call.command.finding.reference.Some? ==>
            Exclusive(bs, call.id, call.command.finding.reference.value))
  }

  ghost predicate Proper(calls: seq<Call>) {
    calls == [] || (Proper(calls[..|calls| - 1]) && Allowed(BooksOf(Play(calls[..|calls| - 1])), calls[|calls| - 1]))
  }

  lemma AllowedIsApart(s: Store, id: string, c: Command)
    requires ValidBooks(BooksOf(s)) && id in s.escrows && Allowed(BooksOf(s), On(id, c))
    ensures Apart(s, id, UpdateOf(View(s, id), c))
  {
    ActiveIsExclusive(BooksOf(s), id);
    assert BooksOf(s)[id] == View(s, id);
  }

  /** Every call of a proper trace keeps all books valid and acts on one of them. */
  lemma StepIsLocal(s: Store, call: Call)
    requires Tidy(s) && ValidBooks(BooksOf(s)) && Allowed(BooksOf(s), call)
    ensures Tidy(Step(s, call)) && ValidBooks(BooksOf(Step(s, call)))
    ensures BooksOf(Step(s, call)) == BookStep(BooksOf(s), call)
  {
    if call.Open? && call.id !in s.escrows {
      var b := Create(call.id, call.input, call.t0);
      InsertIsLocal(s, b);
      CreatedKeepsValid(BooksOf(s), call.id, call.input, call.t0);
    } else if call.On? && call.id in s.escrows {
      AllowedIsApart(s, call.id, call.command);
      PerformIsLocal(s, call.id, call.command);
      StepKeepsValid(BooksOf(s), call.id, call.command);
    }
  }

  lemma StepKeepsValid(bs: Books, id: string, c: Command)
    requires ValidBooks(bs) && id in bs && Permitted(bs, id, c)
    ensures ValidBooks(bs[id := After(bs[id], c)])
  {
    if Apply(bs[id], c).Done? {
      PerformedKeepsValid(bs, bs[id := After(bs[id], c)], id, c, None);
    } else {
      assert bs[id := bs[id]] == bs;
    }
  }

  /** A call seen on the books. */
  function BookStep(bs: Books, call: Call): Books {
    match call
    case Open(id, input, t0) => if id in bs then bs else bs[id := Create(id, input, t0)]
    case On(id, c) => if id in bs then bs[id := After(bs[id], c)] else bs
  }

  /** This is what the contracts of the store's methods say. */
  lemma PerformedIsStep(bs: Books, bs': Books, id: string, c: Command, error: Option<Error>)
    requires Performed(bs, bs', id, c, error)
    ensures bs' == BookStep(bs, On(id, c))
  {
    if id in bs && Apply(bs[id], c).Rejected? {
      assert bs[id := bs[id]] == bs;
    }
  }

  lemma {:induction false} PlayIsConsistent(calls: seq<Call>)
    requires Proper(calls)
    ensures Tidy(Play(calls)) && ValidBooks(BooksOf(Play(calls)))
  {
    if calls != [] {
      PlayIsConsistent(calls[..|calls| - 1]);
      StepIsLocal(Play(calls[..|calls| - 1]), calls[|calls| - 1]);
    }
  }

  /** The call that opened an escrow. */
  function Opening(calls: seq<Call>, id: string): Option<Call> {
    if calls == [] then None
    else
      var before, last := Opening(calls[..|calls| - 1], id), calls[|calls| - 1];
      if before.None? && last.Open? && last.id == id then Some(last) else before
  }

  /** The commands an escrow was given since it was opened. */
  function CommandsOf(calls: seq<Call>, id: string): seq<Command> {
    if calls == [] then []
    else
      var before, last := calls[..|calls| - 1], calls[|calls| - 1];
      CommandsOf(before, id) + (if last.On? && last.id == id && Opening(before, id).Some? then [last.command] else [])
  }

  lemma {:induction false} OpeningIsOpen(calls: seq<Call>, id: string)
    ensures Opening(calls, id).Some? ==> Opening(calls, id).value.Open? && Opening(calls, id).value.id == id
    ensures Opening(calls, id).None? ==> CommandsOf(calls, id) == []
  {
    if calls != [] {
      OpeningIsOpen(calls[..|calls| - 1], id);
    }
  }

  /** The book of an opened escrow, from the calls on it alone. */
  function Alone(opening: Call, cs: seq<Command>): Book
    requires opening.Open?
  {
    Run(Create(opening.id, opening.input, opening.t0), cs)
  }

  lemma OneMore(b: Book, cs: seq<Command>, c: Command)
    ensures Run(b, cs + [c]) == After(Run(b, cs), c)
    ensures DisciplinedRun(b, cs) && Disciplined(Run(b, cs), c) ==> DisciplinedRun(b, cs + [c])
  {
    assert (cs + [c])[..|cs|] == cs;
  }

  /** In every proper trace the tables hold exactly the opened escrows, and the rows of each are the outcome of a
      disciplined run of the commands given to it, whatever happened to the others in between. */
  lemma {:induction false} EachEscrowRunsAlone(calls: seq<Call>, id: string)
    requires Proper(calls)
    ensures id in Play(calls).escrows <==> Opening(calls, id).Some?
    ensures id in Play(calls).escrows ==>
              var opening, cs := Opening(calls, id).value, CommandsOf(calls, id);
              && opening.Open? && opening.id == id
              && View(Play(calls), id) == Alone(opening, cs)
              && DisciplinedRun(Create(id, opening.input, opening.t0), cs)
  {
    if calls != [] {
      var before, last := calls[..|calls| - 1], calls[|calls| - 1];
      EachEscrowRunsAlone(before, id);
      OpeningIsOpen(before, id);
      PlayIsConsistent(before);
      StepIsLocal(Play(before), last);
      var bs, bs' := BooksOf(Play(before)), BooksOf(Play(calls));
      assert id in bs <==> id in Play(before).escrows;
      assert id in bs' <==> id in Play(calls).escrows;
      var cs := CommandsOf(before, id);
      if id in Play(before).escrows && last.On? && last.id == id {
        var opening := Opening(before, id).value;
        OneMore(Create(id, opening.input, opening.t0), cs, last.command);
      } else {
        assert CommandsOf(calls, id) == cs;
      }
    }
  }
}
