/** Approving and rejecting one escrow limit review: the request handlers of the operations routes
    as interleaved steps on the review row and the escrow table. */
module LimitReview {
  import opened Wrappers

  datatype Status = Pending | Processing | Approved | Rejected

  datatype Review = Review(clientRequestId: Option<string>, status: Status, approvedEscrowId: Option<nat>)

  /** An escrow is known by its place in the table, which is in order of creation. `byApproval` remembers that
      the approval of the review created it. */
  datatype Escrow = Escrow(clientRequestId: Option<string>, byApproval: bool)

  /** Where one request is. The first seven belong to an approval, in the order in which it passes them. */
  datatype Handler =
    | Asking
    | Admitted
    | Claimed
    | Looked(found: Option<nat>)
    | Holding(escrowId: nat)
    | Recorded(escrowId: nat)
    | Decided(escrowId: nat)
    | AskingToReject
    | Rejecting
    | Done

  /** `approvals` lists the escrows whose log got an approval event. */
  datatype Desk = Desk(review: Review, escrows: seq<Escrow>, approvals: seq<nat>, handlers: seq<Handler>)

  /** `Fail` is an exception inside the approval's try block, whose handler puts the review back to
      pending; `Crash` is a request that stops without running it. */
  datatype Step =
    | Read(h: nat, amountTooHigh: bool)
    | Claim(h: nat)
    | Look(h: nat)
    | Obtain(h: nat)
    | Record(h: nat)
    | Decide(h: nat)
    | Reply(h: nat)
    | Fail(h: nat)
    | Crash(h: nat)
    | Reject(h: nat)
    | CreateElsewhere(clientRequestId: Option<string>)

  predicate Fresh(handler: Handler) {
    handler.Asking? || handler.AskingToReject?
  }

  function Start(clientRequestId: Option<string>, escrows: seq<Escrow>, handlers: seq<Handler>): Desk {
    Desk(Review(clientRequestId, Pending, None), escrows, [], handlers)
  }

  /** Between a successful claim and the end of the approval. */
  predicate InProgress(handler: Handler) {
    handler.Claimed? || handler.Looked? || handler.Holding? || handler.Recorded? || handler.Decided?
  }

  predicate Ready(handler: Handler, step: Step)
    requires !step.CreateElsewhere?
  {
    match step
    case Read(_, _) => Fresh(handler)
    case Claim(_) => handler.Admitted?
    case Look(_) => handler.Claimed?
    case Obtain(_) => handler.Looked?
    case Record(_) => handler.Holding?
    case Decide(_) => handler.Recorded?
    case Reply(_) => handler.Decided?
    case Fail(_) => InProgress(handler)
    case Crash(_) => true
    case Reject(_) => handler.Rejecting?
  }

  predicate Enabled(s: Desk, step: Step) {
    step.CreateElsewhere? || (step.h < |s.handlers| && Ready(s.handlers[step.h], step))
  }

  /** The newest escrow with the request id. */
  function Newest(escrows: seq<Escrow>, clientRequestId: string): (r: Option<nat>)
    ensures r.None? <==> forall i :: 0 <= i < |escrows| ==> escrows[i].clientRequestId != Some(clientRequestId)
    ensures r.Some? ==> r.value < |escrows| && escrows[r.value].clientRequestId == Some(clientRequestId)
    ensures r.Some? ==> forall i :: r.value < i < |escrows| ==> escrows[i].clientRequestId != Some(clientRequestId)
  {
    if escrows == [] then None
    else if escrows[|escrows| - 1].clientRequestId == Some(clientRequestId) then Some(|escrows| - 1)
    else Newest(escrows[..|escrows| - 1], clientRequestId)
  }

  function At(s: Desk, h: nat, handler: Handler): Desk
    requires h < |s.handlers|
  {
    s.(handlers := s.handlers[h := handler])
  }

  /** What a request decides on the review as it reads it. */
  function AfterRead(review: Review, handler: Handler, amountTooHigh: bool): Handler
    requires Fresh(handler)
  {
    if handler.AskingToReject? then (if review.status.Approved? then Done else Rejecting)
    else if review.status.Approved? && review.approvedEscrowId.Some? then Done
    else if review.status.Rejected? || amountTooHigh then Done
    else Admitted
  }

  function Do(s: Desk, step: Step): Desk
    requires Enabled(s, step)
  {
    if step.CreateElsewhere? then s.(escrows := s.escrows + [Escrow(step.clientRequestId, false)]) else
    var h, handler, review := step.h, s.handlers[step.h], s.review;
    match step
    case Read(_, amountTooHigh) => At(s, h, AfterRead(review, handler, amountTooHigh))
    case Claim(_) =>
      if review.status.Pending? then At(s, h, Claimed).(review := review.(status := Processing))
      else At(s, h, Done)
    case Look(_) =>
      At(s, h, Looked(if review.clientRequestId.None? then None else Newest(s.escrows, review.clientRequestId.value)))
    case Obtain(_) =>
      if handler.found.Some? then At(s, h, Holding(handler.found.value))
      else At(s, h, Holding(|s.escrows|)).(escrows := s.escrows + [Escrow(review.clientRequestId, true)])
    case Record(_) => At(s, h, Recorded(handler.escrowId)).(approvals := s.approvals + [handler.escrowId])
    case Decide(_) =>
      At(s, h, Decided(handler.escrowId)).(review := review.(status := Approved,
                                                             approvedEscrowId := Some(handler.escrowId)))
    case Reply(_) => At(s, h, Done)
    case Fail(_) => At(s, h, Done).(review := review.(status := Pending, approvedEscrowId := None))
    case Crash(_) => At(s, h, Done)
    case Reject(_) => At(s, h, Done).(review := review.(status := Rejected, approvedEscrowId := None))
  }

  ghost predicate Possible(s: Desk, steps: seq<Step>)
    decreases |steps|, 0
  {
    steps == [] || (Possible(s, steps[..|steps| - 1]) && Enabled(Exec(s, steps[..|steps| - 1]), steps[|steps| - 1]))
  }

  /** The desk after an interleaving. */
  ghost function Exec(s: Desk, steps: seq<Step>): Desk
    requires Possible(s, steps)
    decreases |steps|, 1
  {
    if steps == [] then s else Do(Exec(s, steps[..|steps| - 1]), steps[|steps| - 1])
  }

  // ----- the invariant -----

  ghost predicate OneInProgress(s: Desk) {
    forall g, h | 0 <= g < |s.handlers| && 0 <= h < |s.handlers| ::
      InProgress(s.handlers[g]) && InProgress(s.handlers[h]) ==> g == h
  }

  /** At most one approval is in progress; a pending review has none; an approved one has none that has still to
      decide. */
  ghost predicate Exclusive(s: Desk) {
    && OneInProgress(s)
    && (forall h :: 0 <= h < |s.handlers| && InProgress(s.handlers[h]) ==>
          !s.review.status.Pending? && (s.review.status.Approved? ==> s.handlers[h].Decided?))
  }

  /** The escrow that an approval works with exists and carries the review's request id. */
  predicate Fits(s: Desk, id: nat) {
    id < |s.escrows| && s.escrows[id].clientRequestId == s.review.clientRequestId
  }

  predicate Backed(s: Desk, handler: Handler) {
    match handler
    case Looked(found) => found.Some? ==> Fits(s, found.value)
    case Holding(id) => Fits(s, id)
    case Recorded(id) => Fits(s, id) && id in s.approvals
    case Decided(id) => Fits(s, id) && id in s.approvals
    case _ => true
  }

  ghost predicate Sound(s: Desk) {
    && (forall h :: 0 <= h < |s.handlers| ==> Backed(s, s.handlers[h]))
    && (s.review.status.Approved? <==> s.review.approvedEscrowId.Some?)
    && (s.review.status.Approved? ==>
          Fits(s, s.review.approvedEscrowId.value) && s.review.approvedEscrowId.value in s.approvals)
  }

  ghost predicate OneByApproval(escrows: seq<Escrow>) {
    forall i, j :: 0 <= i < |escrows| && 0 <= j < |escrows| && escrows[i].byApproval && escrows[j].byApproval ==> i == j
  }

  /** With a request id, an approval that found no escrow is about to create the first. */
  ghost predicate CreatedOnce(s: Desk) {
    && (forall i :: 0 <= i < |s.escrows| && s.escrows[i].byApproval ==>
        s.escrows[i].clientRequestId == s.review.clientRequestId)
    && (s.review.clientRequestId.Some? ==>
          && OneByApproval(s.escrows)
          && (forall h :: 0 <= h < |s.handlers| && s.handlers[h] == Looked(None) ==>
                forall i :: 0 <= i < |s.escrows| ==> !s.escrows[i].byApproval))
  }

  ghost predicate Inv(s: Desk) {
    Exclusive(s) && Sound(s) && CreatedOnce(s)
  }

  /** A desk that has just got the review: no escrow comes from it, and every request is still to be read. */
  ghost predicate Opening(escrows: seq<Escrow>, handlers: seq<Handler>) {
    && (forall i :: 0 <= i < |escrows| ==> !escrows[i].byApproval)
    && (forall h :: 0 <= h < |handlers| ==> Fresh(handlers[h]))
  }

  lemma ExclusiveStep(s: Desk, step: Step)
    requires Exclusive(s) && Sound(s) && Enabled(s, step)
    ensures Exclusive(Do(s, step))
  {
  }

  lemma SoundStep(s: Desk, step: Step)
    requires Exclusive(s) && Sound(s) && Enabled(s, step)
    ensures Sound(Do(s, step))
  {
  }

  lemma CreatedOnceStep(s: Desk, step: Step)
    requires Inv(s) && Enabled(s, step)
    ensures CreatedOnce(Do(s, step))
  {
  }

  lemma {:induction false} InvAlways(s: Desk, steps: seq<Step>)
    requires Inv(s) && Possible(s, steps)
    ensures Inv(Exec(s, steps))
    decreases |steps|
  {
    if steps != [] {
      var before, last := steps[..|steps| - 1], steps[|steps| - 1];
      InvAlways(s, before);
      var t := Exec(s, before);
      ExclusiveStep(t, last);
      SoundStep(t, last);
      CreatedOnceStep(t, last);
    }
  }

  // ----- the claims -----

  /** In every interleaving of approvals, rejections, failures and crashes, at most one approval is between its
      claim and its end, and while the review is pending none is. */
  lemma {:induction false} OneApprovalAtATime(clientRequestId: Option<string>, escrows: seq<Escrow>,
                                              handlers: seq<Handler>, steps: seq<Step>)
    requires Opening(escrows, handlers) && Possible(Start(clientRequestId, escrows, handlers), steps)
    ensures var s := Exec(Start(clientRequestId, escrows, handlers), steps);
            && OneInProgress(s)
            && (s.review.status.Pending? ==> forall h :: 0 <= h < |s.handlers| ==> !InProgress(s.handlers[h]))
  {
    InvAlways(Start(clientRequestId, escrows, handlers), steps);
  }

  /** In every interleaving a review with a request id makes the approval path create at most one escrow. */
  lemma OneEscrowPerRequest(clientRequestId: string, escrows: seq<Escrow>, handlers: seq<Handler>, steps: seq<Step>)
    requires Opening(escrows, handlers) && Possible(Start(Some(clientRequestId), escrows, handlers), steps)
    ensures var s := Exec(Start(Some(clientRequestId), escrows, handlers), steps);
            OneByApproval(s.escrows)
  {
    InvAlways(Start(Some(clientRequestId), escrows, handlers), steps);
    RequestIdStays(Start(Some(clientRequestId), escrows, handlers), steps);
  }

  lemma {:induction false} RequestIdStays(s: Desk, steps: seq<Step>)
    requires Possible(s, steps)
    ensures Exec(s, steps).review.clientRequestId == s.review.clientRequestId
    decreases |steps|
  {
    if steps != [] {
      RequestIdStays(s, steps[..|steps| - 1]);
    }
  }

  /** In every interleaving an approved review names an escrow that exists, carries its request id and has the
      approval in its log; no other review names one. */
  lemma ApprovedHasItsEscrow(clientRequestId: Option<string>, escrows: seq<Escrow>, handlers: seq<Handler>,
                             steps: seq<Step>)
    requires Opening(escrows, handlers) && Possible(Start(clientRequestId, escrows, handlers), steps)
    ensures var s := Exec(Start(clientRequestId, escrows, handlers), steps);
            && (s.review.status.Approved? <==> s.review.approvedEscrowId.Some?)
            && (s.review.status.Approved? ==>
                  && s.review.approvedEscrowId.value < |s.escrows|
                  && s.escrows[s.review.approvedEscrowId.value].clientRequestId == clientRequestId
                  && s.review.approvedEscrowId.value in s.approvals)
  {
    InvAlways(Start(clientRequestId, escrows, handlers), steps);
    RequestIdStays(Start(clientRequestId, escrows, handlers), steps);
  }

  // ----- when an approval is final -----

  /** A request that may still overwrite an approved review: a rejection that read it before, or the approval itself,
      should it fail before it has replied. */
  predicate MayOverturn(handler: Handler) {
    handler.Rejecting? || handler.Decided?
  }

  ghost predicate Quiet(s: Desk) {
    forall h :: 0 <= h < |s.handlers| ==> !MayOverturn(s.handlers[h])
  }

  lemma {:induction false} QuietStays(s: Desk, steps: seq<Step>)
    requires Inv(s) && s.review.status.Approved? && Quiet(s) && Possible(s, steps)
    ensures Quiet(Exec(s, steps)) && Exec(s, steps).review == s.review && Exec(s, steps).approvals == s.approvals
    decreases |steps|
  {
    if steps != [] {
      var before, last := steps[..|steps| - 1], steps[|steps| - 1];
      QuietStays(s, before);
      InvAlways(s, before);
      var t := Exec(s, before);
      assert forall h :: 0 <= h < |t.handlers| ==> !InProgress(t.handlers[h]);
    }
  }

  /** The steps that `steps` may be followed by leave the review as it is. */
  ghost predicate Final(s: Desk) {
    forall steps :: Possible(s, steps) ==> Exec(s, steps).review == s.review
  }

  /** An approval is final exactly when no rejection that read the review earlier is still to write, and the approving
      request has replied. */
  lemma ApprovalIsFinalExactlyWhen(clientRequestId: Option<string>, escrows: seq<Escrow>, handlers: seq<Handler>,
                                   steps: seq<Step>)
    requires Opening(escrows, handlers) && Possible(Start(clientRequestId, escrows, handlers), steps)
    requires Exec(Start(clientRequestId, escrows, handlers), steps).review.status.Approved?
    ensures var s := Exec(Start(clientRequestId, escrows, handlers), steps);
            Final(s) <==> forall h :: 0 <= h < |s.handlers| ==> !s.handlers[h].Rejecting? && !s.handlers[h].Decided?
  {
    InvAlways(Start(clientRequestId, escrows, handlers), steps);
    var s := Exec(Start(clientRequestId, escrows, handlers), steps);
    if Quiet(s) {
      assert forall h :: 0 <= h < |s.handlers| ==> !MayOverturn(s.handlers[h]);
      forall more | Possible(s, more) ensures Exec(s, more).review == s.review {
        QuietStays(s, more);
      }
    } else {
      var h: int :| 0 <= h < |s.handlers| && MayOverturn(s.handlers[h]);
      var step := if s.handlers[h].Rejecting? then Reject(h) else Fail(h);
      OneStep(s, step);
      assert Exec(s, [step]).review != s.review;
    }
  }

  lemma OneStep(s: Desk, step: Step)
    requires Enabled(s, step)
    ensures Possible(s, [step]) && Exec(s, [step]) == Do(s, step)
  {
    assert [step][..0] == [];
    assert Possible(s, []);
  }

  // ----- what a request comes to -----

  /** Nothing has changed but where one request is, and perhaps the review. */
  predicate Moved(s: Desk, s': Desk, h: nat, handler: Handler, review: Review)
    requires h < |s.handlers|
  {
    s' == Desk(review, s.escrows, s.approvals, s.handlers[h := handler])
  }

  /** A request goes on after its first look exactly when it may: an approval when its amount is within the limit and
      the review is neither rejected nor approved already, a rejection when the review is not approved. */
  lemma ReadEnds(s: Desk, h: nat, amountTooHigh: bool)
    requires Enabled(s, Read(h, amountTooHigh))
    ensures var s', approved := Do(s, Read(h, amountTooHigh)), s.review.status == Approved;
            && Moved(s, s', h, s'.handlers[h], s.review)
            && s'.handlers[h] in {Admitted, Rejecting, Done}
            && (s'.handlers[h] == Admitted <==>
                  s.handlers[h] == Asking && !amountTooHigh && s.review.status != Rejected
                  && !(approved && s.review.approvedEscrowId.Some?))
            && (s'.handlers[h] == Rejecting <==> s.handlers[h] == AskingToReject && !approved)
  {
  }

  /** A claim succeeds exactly when the review is pending, and is then nobody else's. */
  lemma ClaimEnds(s: Desk, h: nat)
    requires Enabled(s, Claim(h))
    ensures var s', pending := Do(s, Claim(h)), s.review.status == Pending;
            && Moved(s, s', h, if pending then Claimed else Done,
                     if pending then Review(s.review.clientRequestId, Processing, s.review.approvedEscrowId)
                     else s.review)
            && forall g: nat :: pending && Enabled(s', Claim(g)) ==> Do(s', Claim(g)).handlers[g] == Done
  {
  }

  /** A failure and a rejection clear the escrow of the review; a failure makes it pending again. */
  lemma FailureReopens(s: Desk, h: nat)
    ensures Enabled(s, Fail(h)) ==>
              Moved(s, Do(s, Fail(h)), h, Done, Review(s.review.clientRequestId, Pending, None))
    ensures Enabled(s, Reject(h)) ==>
              Moved(s, Do(s, Reject(h)), h, Done, Review(s.review.clientRequestId, Rejected, None))
    ensures Enabled(s, Crash(h)) ==> Moved(s, Do(s, Crash(h)), h, Done, s.review)
  {
  }

  /** The steps of an approval, from its first look to its reply. */
  function Approval(h: nat): seq<Step> {
    [Read(h, false)] + [Claim(h)] + [Look(h)] + [Obtain(h)] + [Record(h)] + [Decide(h)] + [Reply(h)]
  }

  /** The newest escrow of a request, if it carries an id, is the one at `e`. */
  ghost predicate NewestAt(escrows: seq<Escrow>, clientRequestId: Option<string>, e: nat) {
    && clientRequestId.Some? && e < |escrows| && escrows[e].clientRequestId == clientRequestId
    && forall i :: e < i < |escrows| ==> escrows[i].clientRequestId != clientRequestId
  }

  /** The escrow of an approval: the newest of its request, if there is one, and else a new one. */
  ghost predicate Obtained(s: Desk, escrows: seq<Escrow>, e: nat) {
    if NewestAt(s.escrows, s.review.clientRequestId, e) then escrows == s.escrows
    else
      && e == |s.escrows| && escrows == s.escrows + [Escrow(s.review.clientRequestId, true)]
      && forall i: nat :: !NewestAt(s.escrows, s.review.clientRequestId, i)
  }

  /** The first half of an approval, up to its escrow. */
  lemma ApprovalObtains(s: Desk, h: nat) returns (e: nat)
    requires s.review.status == Pending && h < |s.handlers| && s.handlers[h] == Asking
    ensures var steps := [Read(h, false)] + [Claim(h)] + [Look(h)] + [Obtain(h)];
            && Possible(s, steps)
            && var s' := Exec(s, steps);
            && s' == Desk(s.review.(status := Processing), s'.escrows, s.approvals, s.handlers[h := Holding(e)])
            && Obtained(s, s'.escrows, e)
  {
    var steps := [Read(h, false)];
    OneStep(s, Read(h, false));
    OneMore(s, steps, Claim(h)); steps := steps + [Claim(h)];
    OneMore(s, steps, Look(h)); steps := steps + [Look(h)];
    var found := Exec(s, steps).handlers[h].found;
    OneMore(s, steps, Obtain(h)); steps := steps + [Obtain(h)];
    e := if found.Some? then found.value else |s.escrows|;
    assert found.Some? <==> NewestAt(s.escrows, s.review.clientRequestId, e);
    assert Exec(s, steps).handlers == s.handlers[h := Holding(e)];
  }

  /** An approval that nobody disturbs ends in an approved review, from whatever desk on which the review is pending:
      with the newest escrow of its request, if there is one, and else with one that it creates. */
  lemma ApprovalRunsThrough(s: Desk, h: nat)
    requires s.review.status == Pending && h < |s.handlers| && s.handlers[h] == Asking
    ensures Possible(s, Approval(h))
    ensures var s' := Exec(s, Approval(h));
            exists e: nat ::
              && s' == Desk(Review(s.review.clientRequestId, Approved, Some(e)), s'.escrows, s.approvals + [e],
                            s.handlers[h := Done])
              && Obtained(s, s'.escrows, e)
  {
    var e := ApprovalObtains(s, h);
    var steps := [Read(h, false)] + [Claim(h)] + [Look(h)] + [Obtain(h)];
    OneMore(s, steps, Record(h)); steps := steps + [Record(h)];
    OneMore(s, steps, Decide(h)); steps := steps + [Decide(h)];
    OneMore(s, steps, Reply(h)); steps := steps + [Reply(h)];
    assert Exec(s, steps).handlers == s.handlers[h := Done];
  }

  lemma OneMore(s: Desk, steps: seq<Step>, step: Step)
    requires Possible(s, steps) && Enabled(Exec(s, steps), step)
    ensures Possible(s, steps + [step]) && Exec(s, steps + [step]) == Do(Exec(s, steps), step)
  {
    assert (steps + [step])[..|steps|] == steps;
  }

  // ----- what the protocol does not give -----

  /** An approval that fails after it has created its escrow. */
  lemma FailedApproval() returns (steps: seq<Step>)
    ensures var s := Start(None, [], [Asking, Asking]);
            Possible(s, steps) && Exec(s, steps) == Desk(s.review, [Escrow(None, true)], [], [Done, Asking])
  {
    var s := Start(None, [], [Asking, Asking]);
    OneStep(s, Read(0, false));
    steps := [Read(0, false)];
    OneMore(s, steps, Claim(0)); steps := steps + [Claim(0)];
    OneMore(s, steps, Look(0)); steps := steps + [Look(0)];
    OneMore(s, steps, Obtain(0)); steps := steps + [Obtain(0)];
    OneMore(s, steps, Fail(0)); steps := steps + [Fail(0)];
  }

  /** Without a request id it leaves its escrow behind, and the next approval creates another. */
  lemma WithoutRequestId() returns (steps: seq<Step>)
    ensures Possible(Start(None, [], [Asking, Asking]), steps)
    ensures Exec(Start(None, [], [Asking, Asking]), steps).escrows == [Escrow(None, true), Escrow(None, true)]
  {
    var s := Start(None, [], [Asking, Asking]);
    steps := FailedApproval();
    OneMore(s, steps, Read(1, false)); steps := steps + [Read(1, false)];
    OneMore(s, steps, Claim(1)); steps := steps + [Claim(1)];
    OneMore(s, steps, Look(1)); steps := steps + [Look(1)];
    OneMore(s, steps, Obtain(1)); steps := steps + [Obtain(1)];
  }

  /** The approval path is certain to create at most one escrow exactly when the review carries a request id. */
  lemma OneEscrowExactlyWithRequestId(clientRequestId: Option<string>)
    ensures (forall escrows, handlers, steps ::
               Opening(escrows, handlers) && Possible(Start(clientRequestId, escrows, handlers), steps) ==>
               OneByApproval(Exec(Start(clientRequestId, escrows, handlers), steps).escrows))
       <==> clientRequestId.Some?
  {
    if clientRequestId.Some? {
      forall escrows, handlers, steps | Opening(escrows, handlers)
        && Possible(Start(clientRequestId, escrows, handlers), steps)
        ensures OneByApproval(Exec(Start(clientRequestId, escrows, handlers), steps).escrows)
      {
        OneEscrowPerRequest(clientRequestId.value, escrows, handlers, steps);
      }
    } else {
      var steps := WithoutRequestId();
      var made := Exec(Start(None, [], [Asking, Asking]), steps).escrows;
      assert made[0].byApproval && made[1].byApproval;
      assert Opening([], [Asking, Asking]);
    }
  }
}
