/** The promise-chain mutex and the transactions it serialises on one SQLite connection,
    as interleaved steps of any number of callers. */
module Mutex {
  import opened Wrappers

  type Write<!DB> = DB -> DB

  /** A caller of `runTransaction`: it waits on the promise it found in the queue and owns the one it left there;
      inside, it remembers whether it found a transaction open and what it has written. A caller whose BEGIN fails is
      stuck with its promise, which nobody resolves any more. */
  datatype Caller<!DB> =
    | Idle
    | Waiting(current: nat, next: nat)
    | Inside(ticket: nat, inTx: bool, writes: seq<Write<DB>>)
    | Stuck(ticket: nat)

  /** A transaction that ended in COMMIT. */
  datatype Transaction<!DB> = Transaction(ticket: nat, writes: seq<Write<DB>>)

  /** `resolved[p]` tells whether promise `p` is resolved; the first one is resolved from the start. `snapshot` is what
      a ROLLBACK restores, while a transaction is open. `granted`, `committed` and `jammed` are histories: the tickets
      in the order their callers got the mutex, the transactions in commit order, and whether a BEGIN has failed. */
  datatype System<!DB> = System(
    queue: nat,
    resolved: seq<bool>,
    callers: seq<Caller<DB>>,
    db: DB,
    snapshot: Option<DB>,
    granted: seq<nat>,
    committed: seq<Transaction<DB>>,
    jammed: bool)

  /** What one caller may do next: enqueue itself, go on once its promise is resolved and begin a transaction, fail to
      begin it, write, or end its transaction and resolve its own promise. */
  datatype Step<!DB> =
    | Acquire(c: nat)
    | Enter(c: nat)
    | BeginFails(c: nat)
    | Write(c: nat, f: Write<DB>)
    | Commit(c: nat)
    | Rollback(c: nat)

  function Start<DB>(db: DB, n: nat): System<DB> {
    System(0, [true], seq(n, i => Idle), db, None, [], [], false)
  }

  predicate Enabled<DB>(s: System<DB>, step: Step<DB>) {
    step.c < |s.callers| &&
    var caller := s.callers[step.c];
    match step
    case Acquire(_) => caller.Idle?
    case Enter(_) => caller.Waiting? && caller.current < |s.resolved| && s.resolved[caller.current]
    case BeginFails(_) => caller.Waiting? && caller.current < |s.resolved| && s.resolved[caller.current]
      && s.snapshot.None?
    case _ => caller.Inside? && caller.ticket < |s.resolved|
  }

  function Do<DB>(s: System<DB>, step: Step<DB>): System<DB>
    requires Enabled(s, step)
  {
    var c, caller := step.c, s.callers[step.c];
    match step
    case Acquire(_) =>
      var next := |s.resolved|;
      s.(queue := next, resolved := s.resolved + [false], callers := s.callers[c := Waiting(s.queue, next)])
    case Enter(_) =>
      var inTx := s.snapshot.Some?;
      s.(callers := s.callers[c := Inside(caller.next, inTx, [])],
         snapshot := if inTx then s.snapshot else Some(s.db),
         granted := s.granted + [caller.next])
    case BeginFails(_) => s.(callers := s.callers[c := Stuck(caller.next)], granted := s.granted + [caller.next],
                             jammed := true)
    case Write(_, f) => s.(db := f(s.db), callers := s.callers[c := caller.(writes := caller.writes + [f])])
    case Commit(_) =>
      s.(snapshot := if caller.inTx then s.snapshot else None,
         resolved := s.resolved[caller.ticket := true], callers := s.callers[c := Idle],
         committed := s.committed + [Transaction(caller.ticket, caller.writes)])
    case Rollback(_) =>
      s.(db := if caller.inTx || s.snapshot.None? then s.db else s.snapshot.value,
         snapshot := if caller.inTx then s.snapshot else None,
         resolved := s.resolved[caller.ticket := true], callers := s.callers[c := Idle])
  }

  ghost predicate Possible<DB>(s: System<DB>, steps: seq<Step<DB>>)
    decreases |steps|, 0
  {
    steps == [] || (Possible(s, steps[..|steps| - 1]) && Enabled(Exec(s, steps[..|steps| - 1]), steps[|steps| - 1]))
  }

  /** The system after an interleaving. */
  ghost function Exec<DB>(s: System<DB>, steps: seq<Step<DB>>): System<DB>
    requires Possible(s, steps)
    decreases |steps|, 1
  {
    if steps == [] then s else Do(Exec(s, steps[..|steps| - 1]), steps[|steps| - 1])
  }

  // ----- running alone -----

  function ApplyWrites<DB>(db: DB, writes: seq<Write<DB>>): DB {
    if writes == [] then db else writes[|writes| - 1](ApplyWrites(db, writes[..|writes| - 1]))
  }

  /** The database after the transactions, run one by one. */
  function Serial<DB>(db: DB, ts: seq<Transaction<DB>>): DB {
    if ts == [] then db else ApplyWrites(Serial(db, ts[..|ts| - 1]), ts[|ts| - 1].writes)
  }

  // ----- the invariant -----

  predicate Queued<DB>(c: Caller<DB>, ticket: int) {
    (c.Waiting? && c.next == ticket) || ((c.Inside? || c.Stuck?) && c.ticket == ticket)
  }

  predicate Busy<DB>(s: System<DB>) {
    s.snapshot.Some?
  }

  /** A transaction is open, or never will be again. */
  predicate Closed<DB>(s: System<DB>) {
    Busy(s) || s.jammed
  }

  /** `granted` counts the callers let in; the promises before the last of them are resolved, and its own
      once it has left. */
  ghost predicate Tickets<DB>(s: System<DB>) {
    var g := |s.granted|;
    && |s.resolved| == s.queue + 1 && g <= s.queue
    && (forall i :: 0 <= i < g ==> s.granted[i] == i + 1)
    && (forall p :: 0 <= p <= s.queue ==> (s.resolved[p] <==> p < g || (p == g && !Closed(s))))
    && (Closed(s) ==> g > 0) && !(Busy(s) && s.jammed)
  }

  predicate Placed<DB>(s: System<DB>, caller: Caller<DB>) {
    var g := |s.granted|;
    match caller
    case Idle => true
    case Waiting(current, next) => current + 1 == next && g < next <= s.queue
    case Inside(ticket, inTx, _) => Busy(s) && ticket == g && !inTx
    case Stuck(ticket) => s.jammed && ticket == g
  }

  predicate HasOwner<DB>(s: System<DB>, p: int) {
    exists c :: 0 <= c < |s.callers| && Queued(s.callers[c], p)
  }

  /** Whoever is inside or stuck holds the last ticket granted, the others wait for the promise just before their own,
      no ticket is held twice, and every promise still to be resolved has an owner. */
  ghost predicate Callers<DB>(s: System<DB>) {
    && (forall c :: 0 <= c < |s.callers| ==> Placed(s, s.callers[c]))
    && (forall c, d, p | 0 <= c < |s.callers| && 0 <= d < |s.callers| ::
          Queued(s.callers[c], p) && Queued(s.callers[d], p) ==> c == d)
    && (forall p {:trigger HasOwner(s, p)} :: Unresolved(s, p) ==> HasOwner(s, p))
  }

  predicate Unresolved<DB>(s: System<DB>, p: int) {
    |s.granted| <= p <= s.queue && (p == |s.granted| ==> Closed(s))
  }

  /** What a rollback would restore, and what the database is without an open transaction, is the serial outcome. */
  ghost predicate Restorable<DB>(s: System<DB>, db0: DB) {
    if s.snapshot.Some? then s.snapshot.value == Serial(db0, s.committed) else s.db == Serial(db0, s.committed)
  }

  ghost predicate Reads<DB>(s: System<DB>, db0: DB, caller: Caller<DB>) {
    caller.Inside? ==> s.db == ApplyWrites(Serial(db0, s.committed), caller.writes)
  }

  ghost predicate Ordered<DB>(s: System<DB>) {
    && (forall i :: 0 <= i < |s.committed| ==>
          s.committed[i].ticket <= |s.granted| && (Busy(s) ==> s.committed[i].ticket < |s.granted|))
    && (forall i, j :: 0 <= i < j < |s.committed| ==> s.committed[i].ticket < s.committed[j].ticket)
  }

  ghost predicate Isolated<DB>(s: System<DB>, db0: DB) {
    && Restorable(s, db0)
    && (forall c :: 0 <= c < |s.callers| ==> Reads(s, db0, s.callers[c]))
    && Ordered(s)
  }

  ghost predicate Inv<DB>(s: System<DB>, db0: DB) {
    Tickets(s) && Callers(s) && Isolated(s, db0)
  }

  lemma TicketsStep<DB>(s: System<DB>, step: Step<DB>, db0: DB)
    requires Inv(s, db0) && Enabled(s, step)
    ensures Tickets(Do(s, step))
  {
  }

  /** Nobody but the caller inside, or stuck, holds the ticket last granted. */
  lemma InsideIsAlone<DB>(s: System<DB>, c: int, d: int)
    requires Callers(s) && 0 <= c < |s.callers| && 0 <= d < |s.callers|
    requires (s.callers[c].Inside? || s.callers[c].Stuck?) && (s.callers[d].Inside? || s.callers[d].Stuck?)
    ensures c == d
  {
    assert Placed(s, s.callers[c]) && Placed(s, s.callers[d]);
    assert Queued(s.callers[c], |s.granted|) && Queued(s.callers[d], |s.granted|);
  }

  lemma ClosedHasOwner<DB>(s: System<DB>)
    requires Tickets(s) && Callers(s)
    ensures Busy(s) ==> exists c :: 0 <= c < |s.callers| && s.callers[c].Inside?
    ensures s.jammed <==> exists c :: 0 <= c < |s.callers| && s.callers[c].Stuck?
  {
    if Closed(s) {
      assert HasOwner(s, |s.granted|);
      var c :| 0 <= c < |s.callers| && Queued(s.callers[c], |s.granted|);
      assert Placed(s, s.callers[c]);
    }
    if c :| 0 <= c < |s.callers| && s.callers[c].Stuck? {
      assert Placed(s, s.callers[c]);
    }
  }

  lemma PlacedStep<DB>(s: System<DB>, step: Step<DB>, c: int)
    requires Tickets(s) && Callers(s) && Enabled(s, step) && 0 <= c < |s.callers|
    ensures Placed(Do(s, step), Do(s, step).callers[c])
  {
    assert Placed(s, s.callers[c]) && Placed(s, s.callers[step.c]);
    if c != step.c && s.callers[step.c].Inside? && s.callers[c].Inside? {
      InsideIsAlone(s, c, step.c);
    } else if c != step.c && (step.Enter? || step.BeginFails?) {
      var ticket := |s.granted| + 1;
      assert s.callers[step.c].next == ticket;
      assert Queued(s.callers[step.c], ticket);
      assert !Queued(s.callers[c], ticket);
    }
  }

  lemma OwnerStep<DB>(s: System<DB>, step: Step<DB>, p: int)
    requires Tickets(s) && Callers(s) && Enabled(s, step) && Unresolved(Do(s, step), p)
    ensures HasOwner(Do(s, step), p)
  {
    var s' := Do(s, step);
    assert Placed(s, s.callers[step.c]);
    if step.Acquire? && p == s'.queue {
      assert Queued(s'.callers[step.c], p);
    } else {
      assert HasOwner(s, p);
      var c :| 0 <= c < |s.callers| && Queued(s.callers[c], p);
      assert Queued(s'.callers[c], p);
    }
  }

  lemma CallersStep<DB>(s: System<DB>, step: Step<DB>)
    requires Tickets(s) && Callers(s) && Enabled(s, step)
    ensures Callers(Do(s, step))
  {
    var s' := Do(s, step);
    forall c | 0 <= c < |s'.callers| ensures Placed(s', s'.callers[c]) {
      PlacedStep(s, step, c);
    }
    forall p | Unresolved(s', p) ensures HasOwner(s', p) {
      OwnerStep(s, step, p);
    }
    forall c, d, p | 0 <= c < |s'.callers| && 0 <= d < |s'.callers| && Queued(s'.callers[c], p)
      && Queued(s'.callers[d], p)
      ensures c == d
    {
      assert Placed(s, s.callers[c]) && Placed(s, s.callers[d]);
    }
  }

  lemma OrderedStep<DB>(s: System<DB>, step: Step<DB>)
    requires Tickets(s) && Callers(s) && Ordered(s) && Enabled(s, step)
    ensures Ordered(Do(s, step))
  {
    assert Placed(s, s.callers[step.c]);
  }

  lemma RestorableStep<DB>(s: System<DB>, step: Step<DB>, db0: DB)
    requires Callers(s) && Restorable(s, db0) && Enabled(s, step) && Reads(s, db0, s.callers[step.c])
    ensures Restorable(Do(s, step), db0)
  {
    assert Placed(s, s.callers[step.c]);
    assert Do(s, step).committed[..|s.committed|] == s.committed;
  }

  lemma ReadsStep<DB>(s: System<DB>, step: Step<DB>, db0: DB, c: int)
    requires Tickets(s) && Callers(s) && Restorable(s, db0) && Enabled(s, step) && 0 <= c < |s.callers|
    requires Reads(s, db0, s.callers[c]) && Reads(s, db0, s.callers[step.c])
    ensures Reads(Do(s, step), db0, Do(s, step).callers[c])
  {
    var caller := s.callers[step.c];
    assert Placed(s, caller) && Placed(s, s.callers[c]);
    if step.Write? && c == step.c {
      assert (caller.writes + [step.f])[..|caller.writes|] == caller.writes;
    } else if c != step.c && caller.Inside? && s.callers[c].Inside? {
      InsideIsAlone(s, c, step.c);
    }
  }

  lemma IsolatedStep<DB>(s: System<DB>, step: Step<DB>, db0: DB)
    requires Inv(s, db0) && Enabled(s, step)
    ensures Isolated(Do(s, step), db0)
  {
    assert Reads(s, db0, s.callers[step.c]);
    OrderedStep(s, step);
    RestorableStep(s, step, db0);
    var s' := Do(s, step);
    forall c | 0 <= c < |s'.callers| ensures Reads(s', db0, s'.callers[c]) {
      ReadsStep(s, step, db0, c);
    }
  }

  lemma {:induction false} InvAlways<DB>(db0: DB, n: nat, steps: seq<Step<DB>>)
    requires Possible(Start(db0, n), steps)
    ensures Inv(Exec(Start(db0, n), steps), db0)
    decreases |steps|
  {
    if steps != [] {
      var before, last := steps[..|steps| - 1], steps[|steps| - 1];
      InvAlways(db0, n, before);
      var s := Exec(Start(db0, n), before);
      TicketsStep(s, last, db0);
      CallersStep(s, last);
      IsolatedStep(s, last, db0);
    }
  }

  // ----- the claims -----

  /** In every interleaving at most one caller is inside, callers get in in the order in which they
      asked, and no transaction is ever begun inside another. */
  lemma MutualExclusion<DB>(db0: DB, n: nat, steps: seq<Step<DB>>)
    requires Possible(Start(db0, n), steps)
    ensures var s := Exec(Start(db0, n), steps);
            && (forall c, d | 0 <= c < |s.callers| && 0 <= d < |s.callers| ::
                  s.callers[c].Inside? && s.callers[d].Inside? ==> c == d)
            && (forall i :: 0 <= i < |s.granted| ==> s.granted[i] == i + 1)
            && (forall c :: 0 <= c < |s.callers| && s.callers[c].Inside? ==> !s.callers[c].inTx)
  {
    InvAlways(db0, n, steps);
    var s := Exec(Start(db0, n), steps);
    forall c, d | 0 <= c < |s.callers| && 0 <= d < |s.callers| && s.callers[c].Inside?
      && s.callers[d].Inside? ensures c == d {
      InsideIsAlone(s, c, d);
    }
    forall c | 0 <= c < |s.callers| ensures Placed(s, s.callers[c]) {}
  }

  /** In every interleaving the committed transactions are in ticket order, and once no transaction is
      open the database is as if they alone had run, one by one, in that order. */
  lemma Serializable<DB>(db0: DB, n: nat, steps: seq<Step<DB>>)
    requires Possible(Start(db0, n), steps)
    ensures var s := Exec(Start(db0, n), steps);
            && (forall i, j :: 0 <= i < j < |s.committed| ==> s.committed[i].ticket < s.committed[j].ticket)
            && ((forall c :: 0 <= c < |s.callers| ==> !s.callers[c].Inside?) ==> s.db == Serial(db0, s.committed))
            && (forall c :: 0 <= c < |s.callers| && s.callers[c].Inside? ==>
                  s.db == ApplyWrites(Serial(db0, s.committed), s.callers[c].writes))
  {
    InvAlways(db0, n, steps);
    var s := Exec(Start(db0, n), steps);
    ClosedHasOwner(s);
    forall c | 0 <= c < |s.callers| ensures Reads(s, db0, s.callers[c]) {}
  }

  /** Turns are lost by a failed BEGIN and by nothing else: while callers wait and none is inside, one that asked no
      later than any given one can go on exactly when no caller is stuck. */
  lemma NoLostTurn<DB>(db0: DB, n: nat, steps: seq<Step<DB>>, w: nat)
    requires Possible(Start(db0, n), steps)
    requires var s := Exec(Start(db0, n), steps);
             w < |s.callers| && s.callers[w].Waiting? && forall c :: 0 <= c < |s.callers| ==> !s.callers[c].Inside?
    ensures var s := Exec(Start(db0, n), steps);
            (exists c: nat :: Enabled(s, Enter(c)) && s.callers[c].next <= s.callers[w].next)
            <==> forall c :: 0 <= c < |s.callers| ==> !s.callers[c].Stuck?
  {
    InvAlways(db0, n, steps);
    var s := Exec(Start(db0, n), steps);
    var g := |s.granted|;
    assert Placed(s, s.callers[w]);
    ClosedHasOwner(s);
    if s.jammed {
      forall c: nat ensures !Enabled(s, Enter(c)) {
        if c < |s.callers| {
          assert Placed(s, s.callers[c]);
        }
      }
    } else {
      assert HasOwner(s, g + 1);
      var c: int :| 0 <= c < |s.callers| && Queued(s.callers[c], g + 1);
      assert Placed(s, s.callers[c]);
      assert Enabled(s, Enter(c));
    }
  }

  /** Once a BEGIN has failed, nobody gets in any more and the database stays as it is. */
  lemma {:induction false} FailedBeginIsForGood<DB>(db0: DB, n: nat, steps: seq<Step<DB>>, more: seq<Step<DB>>)
    requires Possible(Start(db0, n), steps) && Possible(Exec(Start(db0, n), steps), more)
    requires var s := Exec(Start(db0, n), steps); exists c :: 0 <= c < |s.callers| && s.callers[c].Stuck?
    ensures var s := Exec(Start(db0, n), steps);
            Exec(s, more).granted == s.granted && Exec(s, more).db == s.db
    ensures var t := Exec(Exec(Start(db0, n), steps), more); forall c :: 0 <= c < |t.callers| ==> !t.callers[c].Inside?
  {
    InvAlways(db0, n, steps);
    var s := Exec(Start(db0, n), steps);
    ClosedHasOwner(s);
    JammedStays(s, db0, more);
    var t := Exec(s, more);
    forall c | 0 <= c < |t.callers| ensures !t.callers[c].Inside? {
      assert Placed(t, t.callers[c]);
    }
  }

  lemma {:induction false} JammedStays<DB>(s: System<DB>, db0: DB, more: seq<Step<DB>>)
    requires Inv(s, db0) && s.jammed && Possible(s, more)
    ensures var t := Exec(s, more); Inv(t, db0) && t.jammed && t.granted == s.granted && t.db == s.db
    decreases |more|
  {
    if more != [] {
      var before, last := more[..|more| - 1], more[|more| - 1];
      JammedStays(s, db0, before);
      var t := Exec(s, before);
      TicketsStep(t, last, db0);
      CallersStep(t, last);
      IsolatedStep(t, last, db0);
      assert Placed(t, t.callers[last.c]);
    }
  }

  // ----- a transaction goes through -----

  lemma OneMore<DB>(s: System<DB>, steps: seq<Step<DB>>, step: Step<DB>)
    requires Possible(s, steps) && Enabled(Exec(s, steps), step)
    ensures Possible(s, steps + [step]) && Exec(s, steps + [step]) == Do(Exec(s, steps), step)
  {
    assert (steps + [step])[..|steps|] == steps;
  }

  lemma OneStep<DB>(s: System<DB>, step: Step<DB>)
    requires Enabled(s, step)
    ensures Possible(s, [step]) && Exec(s, [step]) == Do(s, step)
  {
    var steps := [step];
    assert steps[..0] == [];
    assert Possible(s, steps[..0]);
  }

  /** What a caller does to write, and to commit or roll back. */
  function Attempt<DB>(c: nat, f: Write<DB>, commits: bool): seq<Step<DB>> {
    [Acquire(c)] + [Enter(c)] + [Step.Write(c, f)] + (if commits then [Commit(c)] else [Rollback(c)])
  }

  lemma IdleIsFree<DB>(s: System<DB>)
    requires Tickets(s) && Callers(s) && forall i :: 0 <= i < |s.callers| ==> s.callers[i] == Idle
    ensures |s.resolved| == s.queue + 1 && s.resolved[s.queue] && s.snapshot.None? && !s.jammed
  {
    ClosedHasOwner(s);
    assert Unresolved(s, s.queue) ==> HasOwner(s, s.queue);
  }

  /** After every interleaving, when all callers are idle, anyone's transaction can go through: a committed one leaves
      its write, and one rolled back leaves the database as it was; and everybody is idle again. */
  lemma TransactionGoesThrough<DB>(db0: DB, n: nat, steps: seq<Step<DB>>, c: nat, f: Write<DB>, commits: bool)
    requires Possible(Start(db0, n), steps)
    requires var s := Exec(Start(db0, n), steps);
             c < |s.callers| && forall i :: 0 <= i < |s.callers| ==> s.callers[i] == Idle
    ensures var s := Exec(Start(db0, n), steps);
            && Possible(s, Attempt(c, f, commits))
            && var s' := Exec(s, Attempt(c, f, commits));
            && s'.db == (if commits then f(s.db) else s.db)
            && s'.callers == s.callers
  {
    InvAlways(db0, n, steps);
    var s := Exec(Start(db0, n), steps);
    IdleIsFree(s);
    var tried: seq<Step<DB>> := [Acquire(c)];
    OneStep(s, Acquire(c));
    OneMore(s, tried, Enter(c)); tried := tried + [Enter(c)];
    OneMore(s, tried, Step.Write(c, f)); tried := tried + [Step.Write(c, f)];
    OneMore(s, tried, if commits then Commit(c) else Rollback(c));
    assert Exec(s, Attempt(c, f, commits)).callers == s.callers;
  }
}
