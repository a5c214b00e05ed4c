/** The hash chain over an escrow's events.
    SHA-256 is a parameter: any function that is injective, prints no `|`, and never prints the
    empty string or the all-zero genesis value. Times are integers that grow with every event of an
    escrow, so that both of the store's orderings by time are the order of insertion. */
module AuditTrail {
  import opened Wrappers
  import Json

  /** Sixty-four zeros. */
  const GENESIS: string := Zeros(64)

  function Zeros(n: nat): (s: string)
    ensures |s| == n && forall i :: 0 <= i < n ==> s[i] == '0'
  {
    if n == 0 then "" else Zeros(n - 1) + "0"
  }

  ghost predicate Digest(sha: string -> string) {
    && (forall x, y :: sha(x) == sha(y) ==> x == y)
    && (forall x :: sha(x) != "" && sha(x) != GENESIS && '|' !in sha(x))
  }

  /** What a caller hands to `addEvent`. */
  datatype EventInput = EventInput(
    escrowId: string, actor: string, actorRole: string, channel: string,
    previousStatus: Option<string>, nextStatus: Option<string>, eventType: string,
    reason: Option<string>, metadata: Option<string>)

  /** A row of the event table, with its nullable columns. */
  datatype EventRow = EventRow(
    escrowId: string, actor: string, actorRole: string, channel: string,
    previousStatus: Option<string>, nextStatus: Option<string>, eventType: string,
    reason: Option<string>, metadata: Option<string>,
    hash: Option<string>, previousHash: Option<string>, createdAt: string)

  /** `value || ""`. */
  function Blankable(o: Option<string>): string {
    if o.Some? then o.value else ""
  }

  /** `value || null`, on the way in and on the way out. */
  function Nullable(o: Option<string>): Option<string> {
    if o == Some("") then None else o
  }

  function Join(fields: seq<string>): string {
    if fields == [] then ""
    else if |fields| == 1 then fields[0]
    else fields[0] + "|" + Join(fields[1..])
  }

  function InputFields(previousHash: string, e: EventInput, createdAt: string): seq<string> {
    [previousHash, e.escrowId, e.actor, e.actorRole, e.channel, Blankable(e.previousStatus), Blankable(e.nextStatus),
     e.eventType, Blankable(e.reason), Blankable(e.metadata), createdAt]
  }

  /** The row `addEvent` inserts. */
  function NewRow(sha: string -> string, previousHash: string, e: EventInput, createdAt: string): EventRow {
    EventRow(e.escrowId, e.actor, e.actorRole, e.channel, Nullable(e.previousStatus), Nullable(e.nextStatus),
             e.eventType, Nullable(e.reason), Nullable(e.metadata),
             Some(sha(Join(InputFields(previousHash, e, createdAt)))), Some(previousHash), createdAt)
  }

  /** `mapEvent`: the row as it is read back. */
  function ReadBack(r: EventRow): EventRow {
    r.(previousStatus := Nullable(r.previousStatus), nextStatus := Nullable(r.nextStatus), reason := Nullable(r.reason),
       metadata := Nullable(r.metadata), hash := Nullable(r.hash), previousHash := Nullable(r.previousHash))
  }

  /** The fields the verifier hashes again, from a row as read back. */
  function RowFields(r: EventRow): seq<string> {
    [Blankable(r.previousHash), r.escrowId, r.actor, r.actorRole, r.channel, Blankable(r.previousStatus),
     Blankable(r.nextStatus),
     r.eventType, Blankable(r.reason), Blankable(r.metadata), r.createdAt]
  }

  function Payload(r: EventRow): string {
    Join(RowFields(r))
  }

  /** What the chain expects as the previous hash of event `i`. */
  function ExpectedPrevious(log: seq<EventRow>, i: nat): Option<string>
    requires i <= |log|
  {
    if i == 0 then Some(GENESIS) else log[i - 1].hash
  }

  predicate Links(sha: string -> string, log: seq<EventRow>, i: nat)
    requires i < |log|
  {
    log[i].previousHash == ExpectedPrevious(log, i) && log[i].hash == Some(sha(Payload(log[i])))
  }

  /** A log, as read back, whose chain is intact. */
  ghost predicate Verifies(sha: string -> string, log: seq<EventRow>) {
    forall i :: 0 <= i < |log| ==> Links(sha, log, i)
  }

  datatype Verdict = Verified | ChainBroken(at: nat) | HashMismatch(at: nat)

  /** `verifyEscrowAuditTrail`: the first event that breaks the chain, if there is one. */
  method VerifyEscrowAuditTrail(sha: string -> string, log: seq<EventRow>) returns (v: Verdict)
    ensures v.Verified? <==> Verifies(sha, log)
    ensures !v.Verified? ==> v.at < |log| && Verifies(sha, log[..v.at]) && !Links(sha, log, v.at)
    ensures v.ChainBroken? <==> !v.Verified? && log[v.at].previousHash != ExpectedPrevious(log, v.at)
  {
    var expectedPreviousHash := GENESIS;
    for i := 0 to |log|
      invariant Some(expectedPreviousHash) == ExpectedPrevious(log, i)
      invariant forall k :: 0 <= k < i ==> Links(sha, log, k)
    {
      forall k | 0 <= k < i ensures Links(sha, log[..i], k) {
        assert Links(sha, log, k);
      }
      if log[i].previousHash != Some(expectedPreviousHash) {
        assert !Links(sha, log, i);
        return ChainBroken(i);
      }
      if log[i].hash != Some(sha(Payload(log[i]))) {
        assert !Links(sha, log, i);
        return HashMismatch(i);
      }
      expectedPreviousHash := log[i].hash.value;
    }
    return Verified;
  }

  // ----- the table -----

  /** The rows of one escrow, in the order of their times. */
  function LogOf(rows: seq<EventRow>, escrowId: string): seq<EventRow> {
    if rows == [] then []
    else
      var last := rows[|rows| - 1];
      LogOf(rows[..|rows| - 1], escrowId) + (if last.escrowId == escrowId then [ReadBack(last)] else [])
  }

  lemma LogAppend(rows: seq<EventRow>, r: EventRow, escrowId: string)
    ensures LogOf(rows + [r], escrowId) ==
            LogOf(rows, escrowId) + (if r.escrowId == escrowId then [ReadBack(r)] else [])
  {
    assert (rows + [r])[..|rows|] == rows;
  }

  /** The hash `addEvent` links to: that of the escrow's last event, or the genesis value. */
  function LastHash(log: seq<EventRow>): string {
    if log == [] then GENESIS
    else if log[|log| - 1].hash.Some? && log[|log| - 1].hash.value != "" then log[|log| - 1].hash.value
    else GENESIS
  }

  class EventTable {
    var rows: seq<EventRow>
    const sha: string -> string

    ghost predicate Valid()
      reads this
    {
      Digest(sha) && forall id {:trigger Intact(id)} :: Intact(id)
    }

    ghost predicate Intact(escrowId: string)
      reads this
    {
      Verifies(sha, LogOf(rows, escrowId))
    }

    constructor (sha: string -> string)
      requires Digest(sha)
      ensures Valid() && rows == [] && this.sha == sha
    {
      this.sha := sha;
      rows := [];
    }

    /** Whatever is added, every escrow's log still verifies when it is read back. */
    method AddEvent(e: EventInput, createdAt: string)
      requires Valid()
      modifies this
      ensures Valid()
      ensures LogOf(rows, e.escrowId) ==
              old(LogOf(rows, e.escrowId))
              + [ReadBack(NewRow(sha, old(LastHash(LogOf(rows, e.escrowId))), e, createdAt))]
      ensures forall id :: id != e.escrowId ==> LogOf(rows, id) == old(LogOf(rows, id))
    {
      var row := NewRow(sha, LastHash(LogOf(rows, e.escrowId)), e, createdAt);
      assert Intact(e.escrowId);
      NewEventLinks(sha, LogOf(rows, e.escrowId), e, createdAt);
      rows := rows + [row];
      forall id ensures LogOf(rows, id) == old(LogOf(rows, id)) + (if id == e.escrowId then [ReadBack(row)] else []) {
        LogAppend(old(rows), row, id);
      }
      forall id ensures Intact(id) {
        assert old(Intact(id));
        assert id != e.escrowId ==> LogOf(rows, id) == old(LogOf(rows, id));
      }
    }
  }

  /** Empty fields are hashed as written and stored as null, and hash the same when read back. */
  lemma ReadBackKeepsPayload(sha: string -> string, previousHash: string, e: EventInput, createdAt: string)
    requires previousHash != ""
    ensures RowFields(ReadBack(NewRow(sha, previousHash, e, createdAt))) == InputFields(previousHash, e, createdAt)
  {
  }

  /** `value || null` of a nullable text. */
  predicate KeepsText(given: Option<string>, kept: Option<string>) {
    if given in {None, Some("")} then kept.None? else kept == given
  }

  /** What is read back of an added event: every field as it was given, the empty ones as null, the hash before it, and
      the hash of the eleven fields, joined by bars. */
  lemma NewEventReads(sha: string -> string, previousHash: string, e: EventInput, createdAt: string)
    requires Digest(sha) && previousHash != ""
    ensures var r := ReadBack(NewRow(sha, previousHash, e, createdAt));
            && r.escrowId == e.escrowId && r.actor == e.actor && r.actorRole == e.actorRole && r.channel == e.channel
            && r.eventType == e.eventType && r.createdAt == createdAt
            && KeepsText(e.previousStatus, r.previousStatus) && KeepsText(e.nextStatus, r.nextStatus)
            && KeepsText(e.reason, r.reason) && KeepsText(e.metadata, r.metadata)
            && r.previousHash == Some(previousHash)
            && r.hash == Some(sha(Join([previousHash, e.escrowId, e.actor, e.actorRole, e.channel,
                                        if e.previousStatus.None? then "" else e.previousStatus.value,
                                        if e.nextStatus.None? then "" else e.nextStatus.value, e.eventType,
                                        if e.reason.None? then "" else e.reason.value,
                                        if e.metadata.None? then "" else e.metadata.value, createdAt])))
  {
  }

  lemma {:induction false} JoinSplits(f: seq<string>, g: seq<string>)
    requires f != [] && g != []
    ensures Join(f + g) == Join(f) + "|" + Join(g)
    ensures Join([f[0]]) == f[0]
  {
    if |f| > 1 {
      JoinSplits(f[1..], g);
      assert (f + g)[1..] == f[1..] + g;
    } else {
      assert (f + g)[1..] == g;
    }
  }

  /** The first event of an escrow is linked to sixty-four zeros, and every other to the hash before it. */
  lemma ChainStartsAtZeros(sha: string -> string, log: seq<EventRow>, i: nat)
    requires Verifies(sha, log) && i < |log|
    ensures log[i].previousHash.Some?
    ensures i == 0 ==>
              |log[i].previousHash.value| == 64 && forall k :: 0 <= k < 64 ==> log[i].previousHash.value[k] == '0'
    ensures i > 0 ==> log[i].previousHash == log[i - 1].hash
  {
    assert Links(sha, log, i);
    if i > 0 {
      assert Links(sha, log, i - 1);
    }
  }

  lemma NewEventLinks(sha: string -> string, log: seq<EventRow>, e: EventInput, createdAt: string)
    requires Digest(sha) && Verifies(sha, log)
    ensures Verifies(sha, log + [ReadBack(NewRow(sha, LastHash(log), e, createdAt))])
  {
    var row := NewRow(sha, LastHash(log), e, createdAt);
    var log' := log + [ReadBack(row)];
    if log != [] {
      assert Links(sha, log, |log| - 1);
    }
    ReadBackKeepsPayload(sha, LastHash(log), e, createdAt);
    forall i | 0 <= i < |log'| ensures Links(sha, log', i) {
      if i < |log| {
        assert Links(sha, log, i);
      }
    }
  }

  // ----- what a last hash pins down -----

  lemma {:induction false} FirstFieldEnds(a: string, s: string, b: string, t: string)
    requires '|' !in a && '|' !in b && a + "|" + s == b + "|" + t
    ensures a == b && s == t
  {
    var u, v := a + "|" + s, b + "|" + t;
    assert u[|a|] == '|' && v[|b|] == '|';
    assert forall i :: 0 <= i < |a| ==> u[i] == a[i];
    assert forall i :: 0 <= i < |b| ==> v[i] == b[i];
    assert |a| == |b|;
    assert a == u[..|a|] && b == v[..|a|] && s == u[|a| + 1..] && t == v[|a| + 1..];
  }

  lemma SamePayloadSamePrevious(x: EventRow, y: EventRow)
    requires Payload(x) == Payload(y)
    requires '|' !in Blankable(x.previousHash) && '|' !in Blankable(y.previousHash)
    ensures Blankable(x.previousHash) == Blankable(y.previousHash)
  {
    FirstFieldEnds(Blankable(x.previousHash), Join(RowFields(x)[1..]), Blankable(y.previousHash),
                   Join(RowFields(y)[1..]));
  }

  lemma PreviousIsPlain(sha: string -> string, log: seq<EventRow>, i: nat)
    requires Digest(sha) && Verifies(sha, log) && i < |log|
    ensures log[i].previousHash.Some? && '|' !in log[i].previousHash.value
    ensures log[i].previousHash == Some(GENESIS) <==> i == 0
  {
    assert Links(sha, log, i);
    if i > 0 {
      assert Links(sha, log, i - 1);
    }
  }

  lemma LastHashIsLinked(sha: string -> string, log: seq<EventRow>)
    requires Digest(sha) && Verifies(sha, log)
    ensures log == [] <==> LastHash(log) == GENESIS
    ensures log != [] ==> LastHash(log) == sha(Payload(log[|log| - 1]))
  {
    if log != [] {
      assert Links(sha, log, |log| - 1);
    }
  }

  /** The last events hash the same payload, and the logs before them end in the same hash. */
  lemma LastEventsAgree(sha: string -> string, log1: seq<EventRow>, log2: seq<EventRow>)
    requires Digest(sha) && Verifies(sha, log1) && Verifies(sha, log2) && log1 != [] && log2 != []
    requires LastHash(log1) == LastHash(log2)
    ensures Payload(log1[|log1| - 1]) == Payload(log2[|log2| - 1])
    ensures LastHash(log1[..|log1| - 1]) == LastHash(log2[..|log2| - 1])
  {
    LastHashIsLinked(sha, log1);
    LastHashIsLinked(sha, log2);
    PreviousIsPlain(sha, log1, |log1| - 1);
    PreviousIsPlain(sha, log2, |log2| - 1);
    SamePayloadSamePrevious(log1[|log1| - 1], log2[|log2| - 1]);
    PrefixVerifies(sha, log1);
    PrefixVerifies(sha, log2);
  }

  /** Two intact logs that end in the same hash are equally long and hash the same payloads throughout. */
  lemma {:induction false} LastHashPinsTheLog(sha: string -> string, log1: seq<EventRow>, log2: seq<EventRow>)
    requires Digest(sha) && Verifies(sha, log1) && Verifies(sha, log2)
    requires LastHash(log1) == LastHash(log2)
    ensures |log1| == |log2| && forall i :: 0 <= i < |log1| ==> Payload(log1[i]) == Payload(log2[i])
    decreases |log1|
  {
    LastHashIsLinked(sha, log1);
    LastHashIsLinked(sha, log2);
    if log1 != [] {
      var before1, before2 := log1[..|log1| - 1], log2[..|log2| - 1];
      LastEventsAgree(sha, log1, log2);
      PrefixVerifies(sha, log1);
      PrefixVerifies(sha, log2);
      LastHashPinsTheLog(sha, before1, before2);
      forall i | 0 <= i < |log1| ensures Payload(log1[i]) == Payload(log2[i]) {
        assert i < |before1| ==> before1[i] == log1[i] && before2[i] == log2[i];
      }
    }
  }

  lemma PrefixVerifies(sha: string -> string, log: seq<EventRow>)
    requires Digest(sha) && Verifies(sha, log) && log != []
    ensures Verifies(sha, log[..|log| - 1])
    ensures log[|log| - 1].previousHash == Some(LastHash(log[..|log| - 1]))
  {
    assert Links(sha, log, |log| - 1);
    var before := log[..|log| - 1];
    forall i | 0 <= i < |before| ensures Links(sha, before, i) {
      assert Links(sha, log, i);
    }
    if |log| > 1 {
      assert Links(sha, log, |log| - 2);
    }
  }

  // ----- what a payload pins down -----

  lemma {:induction false} JoinSnoc(fields: seq<string>, last: string)
    requires fields != []
    ensures Join(fields + [last]) == Join(fields) + "|" + last
  {
    if |fields| > 1 {
      JoinSnoc(fields[1..], last);
      assert (fields + [last])[1..] == fields[1..] + [last];
    }
  }

  lemma LastFieldStarts(s: string, a: string, t: string, b: string)
    requires '|' !in a && '|' !in b && s + "|" + a == t + "|" + b
    ensures s == t && a == b
  {
    var u, v := s + "|" + a, t + "|" + b;
    assert u[|s|] == '|' && v[|t|] == '|';
    assert forall i :: |s| < i < |u| ==> u[i] == a[i - |s| - 1];
    assert forall i :: |t| < i < |v| ==> v[i] == b[i - |t| - 1];
    assert |s| == |t|;
    assert s == u[..|s|] && t == v[..|s|] && a == u[|s| + 1..] && b == v[|s| + 1..];
  }

  /** Equal payloads have equal fields when no field but the `k`-th contains the separator. */
  lemma {:induction false} PayloadPinsFields(f: seq<string>, g: seq<string>, k: nat)
    requires |f| == |g| && k < |f| && Join(f) == Join(g)
    requires forall i :: 0 <= i < |f| && i != k ==> '|' !in f[i] && '|' !in g[i]
    ensures f == g
    decreases |f|
  {
    var n := |f| - 1;
    if n > 0 {
      if k > 0 {
        FirstFieldEnds(f[0], Join(f[1..]), g[0], Join(g[1..]));
        PayloadPinsFields(f[1..], g[1..], k - 1);
        assert f == [f[0]] + f[1..] && g == [g[0]] + g[1..];
      } else {
        assert f == f[..n] + [f[n]] && g == g[..n] + [g[n]];
        JoinSnoc(f[..n], f[n]);
        JoinSnoc(g[..n], g[n]);
        LastFieldStarts(Join(f[..n]), f[n], Join(g[..n]), g[n]);
        PayloadPinsFields(f[..n], g[..n], 0);
      }
    }
  }

  /** No field of any event but the `k`-th contains the separator. */
  ghost predicate PlainBut(log: seq<EventRow>, k: nat) {
    forall i, f :: 0 <= i < |log| && 0 <= f < 11 && f != k ==> '|' !in RowFields(log[i])[f]
  }

  /** Two intact logs that end in the same hash hold the same fields in every event, as long as
      only one field may contain the separator. */
  lemma LastHashPinsTheFields(sha: string -> string, log1: seq<EventRow>, log2: seq<EventRow>, k: nat)
    requires Digest(sha) && Verifies(sha, log1) && Verifies(sha, log2)
    requires LastHash(log1) == LastHash(log2)
    requires k < 11 && PlainBut(log1, k) && PlainBut(log2, k)
    ensures |log1| == |log2| && forall i :: 0 <= i < |log1| ==> RowFields(log1[i]) == RowFields(log2[i])
  {
    LastHashPinsTheLog(sha, log1, log2);
    forall i | 0 <= i < |log1| ensures RowFields(log1[i]) == RowFields(log2[i]) {
      PayloadPinsFields(RowFields(log1[i]), RowFields(log2[i]), k);
    }
  }

  // ----- exactly when a payload pins its fields -----

  predicate PlainOutside(fields: seq<string>, ks: set<nat>) {
    forall i: nat :: i < |fields| && i !in ks ==> '|' !in fields[i]
  }

  /** Fields that are all empty but one, which is the separator. */
  function OneBar(n: nat, i: nat): (f: seq<string>)
    requires i < n
  {
    seq(n, k => if k == i then "|" else "")
  }

  function Bars(n: nat): string {
    if n == 0 then "" else "|" + Bars(n - 1)
  }

  function Empties(n: nat): seq<string> {
    seq(n, k => "")
  }

  lemma {:induction false} JoinEmpties(n: nat)
    requires n > 0
    ensures Join(Empties(n)) == Bars(n - 1)
  {
    if n > 1 {
      JoinEmpties(n - 1);
      assert Empties(n)[1..] == Empties(n - 1);
    }
  }

  /** It does not matter where the bar stands. */
  lemma {:induction false} JoinOneBar(n: nat, i: nat)
    requires i < n
    ensures Join(OneBar(n, i)) == Bars(n)
  {
    if n == 1 {
      assert Bars(1) == "|" + Bars(0);
    } else if i == 0 {
      JoinEmpties(n - 1);
      assert OneBar(n, i)[1..] == Empties(n - 1);
    } else {
      JoinOneBar(n - 1, i - 1);
      assert OneBar(n, i)[1..] == OneBar(n - 1, i - 1);
    }
  }

  /** Two of the fields that may hold the separator are enough for two lists to have one payload. */
  lemma TwoFreeFields(n: nat, ks: set<nat>, i: nat, j: nat)
    requires i < n && j < n && i != j && i in ks && j in ks
    ensures PlainOutside(OneBar(n, i), ks) && PlainOutside(OneBar(n, j), ks)
    ensures Join(OneBar(n, i)) == Join(OneBar(n, j)) && OneBar(n, i) != OneBar(n, j)
  {
    JoinOneBar(n, i);
    JoinOneBar(n, j);
    assert OneBar(n, i)[i] != OneBar(n, j)[i];
  }

  lemma OneFreeField(f: seq<string>, g: seq<string>, ks: set<nat>)
    requires |f| == |g| && f != [] && |ks| <= 1 && PlainOutside(f, ks) && PlainOutside(g, ks) && Join(f) == Join(g)
    ensures f == g
  {
    var k: nat := if exists k :: k in ks && k < |f| then var k :| k in ks && k < |f|; k else 0;
    forall i | 0 <= i < |f| && i != k ensures '|' !in f[i] && '|' !in g[i] {
      if i in ks {
        AtMostOne(ks, i, k);
      }
    }
    PayloadPinsFields(f, g, k);
  }

  lemma AtMostOne(ks: set<nat>, i: nat, k: nat)
    requires |ks| <= 1 && i in ks && k in ks
    ensures i == k
  {
    if i != k {
      assert {i, k} <= ks;
      SubsetIsSmaller({i, k}, ks);
    }
  }

  lemma {:induction false} SubsetIsSmaller(a: set<nat>, b: set<nat>)
    requires a <= b
    ensures |a| <= |b|
    decreases a
  {
    if a != {} {
      var x :| x in a;
      SubsetIsSmaller(a - {x}, b - {x});
    }
  }

  /** For every number of fields: when only the fields at `ks` may hold the separator, the payload pins them exactly
      when there is at most one of them. */
  lemma PayloadPinsExactlyWhen(n: nat, ks: set<nat>)
    requires forall k :: k in ks ==> k < n
    ensures (forall f: seq<string>, g: seq<string> ::
               |f| == n && |g| == n && PlainOutside(f, ks) && PlainOutside(g, ks) && Join(f) == Join(g) ==> f == g)
       <==> |ks| <= 1
  {
    if |ks| <= 1 {
      forall f: seq<string>, g: seq<string> | |f| == n && |g| == n && PlainOutside(f, ks) && PlainOutside(g, ks)
        && Join(f) == Join(g)
        ensures f == g
      {
        if n > 0 {
          OneFreeField(f, g, ks);
        }
      }
    } else {
      var i, j := TwoOf(ks);
      TwoFreeFields(n, ks, i, j);
    }
  }

  lemma TwoOf(ks: set<nat>) returns (i: nat, j: nat)
    requires |ks| > 1
    ensures i in ks && j in ks && i != j
  {
    i :| i in ks;
    var rest := ks - {i};
    assert |rest| == |ks| - 1;
    j :| j in rest;
  }

  /** A row with given fields. */
  function RowOf(f: seq<string>): (r: EventRow)
    requires |f| == 11
    ensures RowFields(r) == f
  {
    EventRow(f[1], f[2], f[3], f[4], Some(f[5]), Some(f[6]), f[7], Some(f[8]), Some(f[9]), None, Some(f[0]), f[10])
  }

  /** Of the eleven fields of an event, let those at `ks` hold the separator: there are two events with one payload and
      different fields exactly when these are two fields or more. */
  lemma PayloadIsAmbiguous(ks: set<nat>)
    requires forall k :: k in ks ==> k < 11
    ensures (exists x: EventRow, y: EventRow ::
               PlainOutside(RowFields(x), ks) && PlainOutside(RowFields(y), ks) && Payload(x) == Payload(y)
                 && RowFields(x) != RowFields(y))
       <==> |ks| > 1
  {
    PayloadPinsExactlyWhen(11, ks);
    if |ks| > 1 {
      var i, j := TwoOf(ks);
      TwoFreeFields(11, ks, i, j);
      var x, y := RowOf(OneBar(11, i)), RowOf(OneBar(11, j));
      assert PlainOutside(RowFields(x), ks) && PlainOutside(RowFields(y), ks) && Payload(x) == Payload(y)
             && RowFields(x) != RowFields(y);
    }
  }

  // ----- what the store writes -----

  /** A free text, a bar and a balanced text can be taken apart again. */
  lemma BalancedTailIsPinned(a: string, s: string, b: string, t: string)
    requires Json.Balanced(s) && Json.Balanced(t) && a + "|" + s == b + "|" + t
    ensures a == b && s == t
    decreases |t|
  {
    if |s| < |t| {
      BalancedTailIsPinned(b, t, a, s);
    } else if |s| > |t| {
      var x := s[..|s| - |t| - 1];
      ShorterTail(a, s, b, t);
      Json.NoBalancedTail(x, t);
    } else {
      SameLengthTails(a, s, b, t);
    }
  }

  lemma SameLengthTails(a: string, s: string, b: string, t: string)
    requires a + "|" + s == b + "|" + t && |s| == |t|
    ensures a == b && s == t
  {
    var u, v := a + "|" + s, b + "|" + t;
    assert |a| == |b|;
    assert a == u[..|a|] && b == v[..|a|] && s == u[|a| + 1..] && t == v[|a| + 1..];
  }

  lemma ShorterTail(a: string, s: string, b: string, t: string)
    requires a + "|" + s == b + "|" + t && |s| > |t|
    ensures s == s[..|s| - |t| - 1] + "|" + t
  {
    var u, v := a + "|" + s, b + "|" + t;
    assert s == u[|a| + 1..] == v[|a| + 1..];
    assert v[|b|] == '|' && v[|b| + 1..] == t;
    var k := |b| - |a| - 1;
    assert s[k] == v[|b|] && s[k + 1..] == t;
    assert s == s[..k] + [s[k]] + s[k + 1..];
  }

  /** Equal payloads have equal fields when all fields are plain but two neighbours, of which the second is balanced. */
  lemma {:induction false} BalancedPayloadPinsFields(f: seq<string>, g: seq<string>, k: nat)
    requires |f| == |g| && k + 1 < |f| && Join(f) == Join(g)
    requires forall i :: 0 <= i < |f| && i != k && i != k + 1 ==> '|' !in f[i] && '|' !in g[i]
    requires Json.Balanced(f[k + 1]) && Json.Balanced(g[k + 1])
    ensures f == g
    decreases |f|
  {
    var n := |f| - 1;
    if k > 0 {
      FirstFieldEnds(f[0], Join(f[1..]), g[0], Join(g[1..]));
      BalancedPayloadPinsFields(f[1..], g[1..], k - 1);
      assert f == [f[0]] + f[1..] && g == [g[0]] + g[1..];
    } else if n > 1 {
      assert f == f[..n] + [f[n]] && g == g[..n] + [g[n]];
      JoinSnoc(f[..n], f[n]);
      JoinSnoc(g[..n], g[n]);
      LastFieldStarts(Join(f[..n]), f[n], Join(g[..n]), g[n]);
      BalancedPayloadPinsFields(f[..n], g[..n], 0);
    } else {
      assert f[1..] == [f[1]] && g[1..] == [g[1]];
      BalancedTailIsPinned(f[0], f[1], g[0], g[1]);
      assert f == [f[0], f[1]] && g == [g[0], g[1]];
    }
  }

  /** The metadata of an event is empty or the print of a JSON value. */
  ghost predicate IsMetadata(s: string) {
    s == "" || exists v :: s == Json.Stringify(v)
  }

  /** The events the store writes: the reason (field 8) is free, the metadata (field 9) is JSON, no other field holds
      the separator. */
  ghost predicate Written(r: EventRow) {
    IsMetadata(RowFields(r)[9]) && PlainOutside(RowFields(r), {8, 9})
  }

  lemma MetadataIsBalanced(s: string)
    requires IsMetadata(s)
    ensures Json.Balanced(s)
  {
    if s != "" {
      var v :| s == Json.Stringify(v);
      Json.StringifyIsBalanced(v);
    }
  }

  /** Two events the store writes that hash alike have the same fields. */
  lemma WrittenPayloadPinsFields(x: EventRow, y: EventRow)
    requires Written(x) && Written(y) && Payload(x) == Payload(y)
    ensures RowFields(x) == RowFields(y)
  {
    MetadataIsBalanced(RowFields(x)[9]);
    MetadataIsBalanced(RowFields(y)[9]);
    BalancedPayloadPinsFields(RowFields(x), RowFields(y), 8);
  }

  /** And if their metadata was printed, it was printed from the same value. */
  lemma PayloadPinsMetadata(x: EventRow, y: EventRow, v: Json.Value, w: Json.Value)
    requires Written(x) && Written(y) && Payload(x) == Payload(y)
    requires x.metadata == Some(Json.Stringify(v)) && y.metadata == Some(Json.Stringify(w))
    ensures v == w
  {
    WrittenPayloadPinsFields(x, y);
    assert RowFields(x)[9] == RowFields(y)[9];
    Json.StringifyIsInjective(v, w);
  }

  /** Two intact logs of such events that end in the same hash hold the same fields in every event. */
  lemma LastHashPinsWhatIsWritten(sha: string -> string, log1: seq<EventRow>, log2: seq<EventRow>)
    requires Digest(sha) && Verifies(sha, log1) && Verifies(sha, log2)
    requires LastHash(log1) == LastHash(log2)
    requires forall i :: 0 <= i < |log1| ==> Written(log1[i])
    requires forall i :: 0 <= i < |log2| ==> Written(log2[i])
    ensures |log1| == |log2| && forall i :: 0 <= i < |log1| ==> RowFields(log1[i]) == RowFields(log2[i])
  {
    LastHashPinsTheLog(sha, log1, log2);
    forall i | 0 <= i < |log1| ensures RowFields(log1[i]) == RowFields(log2[i]) {
      WrittenPayloadPinsFields(log1[i], log2[i]);
    }
  }

  /** Rows as they are read back that hash alike and have the same fields are the same. */
  lemma SameFieldsSameRow(x: EventRow, y: EventRow)
    requires RowFields(x) == RowFields(y) && ReadBack(x) == x && ReadBack(y) == y && x.hash == y.hash
    ensures x == y
  {
    var f, g := RowFields(x), RowFields(y);
    assert forall i :: 0 <= i < 11 ==> f[i] == g[i];
    assert f[0] == g[0] && f[1] == g[1] && f[2] == g[2] && f[3] == g[3] && f[4] == g[4] && f[5] == g[5];
    assert f[6] == g[6] && f[7] == g[7] && f[8] == g[8] && f[9] == g[9] && f[10] == g[10];
  }

  /** The last hash pins the log: two intact logs of events the store writes, as they are read back, that end in the
      same hash are the same, row by row and column by column. */
  lemma LastHashPinsEveryRow(sha: string -> string, log1: seq<EventRow>, log2: seq<EventRow>)
    requires Digest(sha) && Verifies(sha, log1) && Verifies(sha, log2)
    requires LastHash(log1) == LastHash(log2)
    requires forall i :: 0 <= i < |log1| ==> Written(log1[i]) && ReadBack(log1[i]) == log1[i]
    requires forall i :: 0 <= i < |log2| ==> Written(log2[i]) && ReadBack(log2[i]) == log2[i]
    ensures log1 == log2
  {
    LastHashPinsWhatIsWritten(sha, log1, log2);
    forall i | 0 <= i < |log1| ensures log1[i] == log2[i] {
      assert Links(sha, log1, i) && Links(sha, log2, i);
      SameFieldsSameRow(log1[i], log2[i]);
    }
  }
}
