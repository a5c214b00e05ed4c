/** The alert limiter with its evicting map, and the bounded list of recent events. */
module Monitoring {
  const ALERT_COOLDOWN_MS := 5 * 60 * 1000
  const MAX_SIGNATURES := 500
  const MAX_EVENTS := 100

  // ----- the limiter -----

  /** Whether an alert is held back. A stored time of zero would count as none. */
  predicate Suppressed(sent: map<string, int>, signature: string, now: int) {
    signature in sent && sent[signature] != 0 && now - sent[signature] < ALERT_COOLDOWN_MS
  }

  /** The entries that eviction keeps. */
  function Recent(sent: map<string, int>, now: int): map<string, int> {
    map k | k in sent && now - sent[k] <= ALERT_COOLDOWN_MS :: sent[k]
  }

  function Evicted(sent: map<string, int>, now: int): map<string, int> {
    if |sent| > MAX_SIGNATURES then Recent(sent, now) else sent
  }

  /** The map after a call. */
  function AfterAlert(sent: map<string, int>, signature: string, now: int): map<string, int> {
    if Suppressed(sent, signature, now) then sent else Evicted(sent[signature := now], now)
  }

  class AlertLimiter {
    var recentAlertTimestamps: map<string, int>

    constructor ()
      ensures recentAlertTimestamps == map[]
    {
      recentAlertTimestamps := map[];
    }

    method ShouldSendAlert(signature: string, now: int) returns (send: bool)
      modifies this
      ensures send == !Suppressed(old(recentAlertTimestamps), signature, now)
      ensures recentAlertTimestamps == AfterAlert(old(recentAlertTimestamps), signature, now)
    {
      if signature in recentAlertTimestamps {
        var lastSent := recentAlertTimestamps[signature];
        if lastSent != 0 && now - lastSent < ALERT_COOLDOWN_MS {
          return false;
        }
      }
      recentAlertTimestamps := recentAlertTimestamps[signature := now];
      if |recentAlertTimestamps| > MAX_SIGNATURES {
        ghost var all := recentAlertTimestamps;
        var entries := recentAlertTimestamps.Keys;
        while entries != {}
          invariant entries <= all.Keys
          invariant recentAlertTimestamps == map k | k in all && (k in entries || now - all[k] <= ALERT_COOLDOWN_MS) ::
                      all[k]
          decreases |entries|
        {
          var k :| k in entries;
          if now - recentAlertTimestamps[k] > ALERT_COOLDOWN_MS {
            recentAlertTimestamps := recentAlertTimestamps - {k};
          }
          entries := entries - {k};
        }
      }
      return true;
    }
  }

  /** An alert is held back exactly when one of its signature, sent at a time other than zero, is less than 300000
      milliseconds old. One that goes out is stored; then, above 500 entries, those that are older than that go, and no
      other does. */
  lemma LimiterEnds(sent: map<string, int>, signature: string, now: int)
    ensures var sent' := AfterAlert(sent, signature, now);
            var full := sent[signature := now];
            if signature in sent && sent[signature] != 0 && now < sent[signature] + 300000 then
              sent' == sent && Suppressed(sent, signature, now)
            else
              && !Suppressed(sent, signature, now)
              && (forall k :: k in sent' ==> k in full && sent'[k] == full[k])
              && (forall k :: k in full ==> (k !in sent' <==> |full| > 500 && now > full[k] + 300000))
  {
  }

  /** One call: the signature of an alert and the time of the call. */
  datatype Call = Call(signature: string, now: int)

  /** The clock is positive and does not go back. */
  predicate Clocked(calls: seq<Call>) {
    && (forall i :: 0 <= i < |calls| ==> calls[i].now > 0)
    && (forall i, j :: 0 <= i < j < |calls| ==> calls[i].now <= calls[j].now)
  }

  /** The evicting map after a sequence of calls. */
  function Sent(calls: seq<Call>): map<string, int> {
    if calls == [] then map[]
    else var last := calls[|calls| - 1]; AfterAlert(Sent(calls[..|calls| - 1]), last.signature, last.now)
  }

  /** The map of a limiter that never evicts. */
  function SentForever(calls: seq<Call>): map<string, int> {
    if calls == [] then map[]
    else
      var last := calls[|calls| - 1];
      var before := SentForever(calls[..|calls| - 1]);
      if Suppressed(before, last.signature, last.now) then before else before[last.signature := last.now]
  }

  /** Whether the `i`-th alert goes out. */
  predicate GoesOut(calls: seq<Call>, i: nat)
    requires i < |calls|
  {
    !Suppressed(Sent(calls[..i]), calls[i].signature, calls[i].now)
  }

  predicate GoesOutForever(calls: seq<Call>, i: nat)
    requires i < |calls|
  {
    !Suppressed(SentForever(calls[..i]), calls[i].signature, calls[i].now)
  }

  /** What eviction has dropped could not have held anything back any more. */
  ghost predicate Refines(m: map<string, int>, full: map<string, int>, now: int) {
    && (forall k :: k in m ==> k in full && full[k] == m[k])
    && (forall k :: k in full && k !in m ==> now - full[k] > ALERT_COOLDOWN_MS)
  }

  lemma {:induction false} EvictionRefines(calls: seq<Call>, now: int)
    requires Clocked(calls) && forall i :: 0 <= i < |calls| ==> calls[i].now <= now
    ensures Refines(Sent(calls), SentForever(calls), now)
  {
    if calls != [] {
      var before, last := calls[..|calls| - 1], calls[|calls| - 1];
      EvictionRefines(before, last.now);
    }
  }

  /** Evicting never changes a decision. */
  lemma EvictionIsInvisible(calls: seq<Call>, i: nat)
    requires Clocked(calls) && i < |calls|
    ensures GoesOut(calls, i) <==> GoesOutForever(calls, i)
  {
    EvictionRefines(calls[..i], calls[i].now);
  }

  /** The stored time of a signature is that of its last alert that went out. */
  ghost predicate LastOut(calls: seq<Call>, n: nat, signature: string, i: int)
    requires n <= |calls|
  {
    && 0 <= i < n && calls[i].signature == signature && GoesOutForever(calls, i)
    && forall j :: i < j < n && calls[j].signature == signature ==> !GoesOutForever(calls, j)
  }

  lemma StoredAfterCall(calls: seq<Call>, n: nat)
    requires 0 < n <= |calls|
    ensures var before, full := SentForever(calls[..n - 1]), SentForever(calls[..n]);
            full == if GoesOutForever(calls, n - 1) then before[calls[n - 1].signature := calls[n - 1].now] else before
  {
    assert calls[..n][..n - 1] == calls[..n - 1];
  }

  lemma LastOutStays(calls: seq<Call>, n: nat, signature: string, i: int)
    requires 0 < n <= |calls| && LastOut(calls, n - 1, signature, i)
    requires calls[n - 1].signature == signature ==> !GoesOutForever(calls, n - 1)
    ensures LastOut(calls, n, signature, i)
  {
  }

  lemma {:induction false} StoredIsLastOut(calls: seq<Call>, n: nat, signature: string)
    requires n <= |calls|
    ensures var full := SentForever(calls[..n]);
            if signature in full then exists i :: LastOut(calls, n, signature, i) && full[signature] == calls[i].now
            else forall i :: 0 <= i < n ==> calls[i].signature != signature
  {
    if n > 0 {
      StoredIsLastOut(calls, n - 1, signature);
      StoredAfterCall(calls, n);
      var before := SentForever(calls[..n - 1]);
      if calls[n - 1].signature == signature && GoesOutForever(calls, n - 1) {
        assert LastOut(calls, n, signature, n - 1);
      } else if signature in before {
        var i :| LastOut(calls, n - 1, signature, i) && before[signature] == calls[i].now;
        LastOutStays(calls, n, signature, i);
      }
    }
  }

  /** Two alerts of one signature that both go out are at least the cooldown apart, and an alert
      is held back only because one of its signature went out less than the cooldown ago. */
  lemma AlertsAreSpaced(calls: seq<Call>, j: nat)
    requires Clocked(calls) && j < |calls|
    ensures GoesOut(calls, j) ==>
              forall i :: 0 <= i < j && calls[i].signature == calls[j].signature && GoesOut(calls, i) ==>
                calls[j].now - calls[i].now >= 300000
    ensures !GoesOut(calls, j) ==>
              exists i :: 0 <= i < j && calls[i].signature == calls[j].signature && GoesOut(calls, i)
                          && calls[j].now - calls[i].now < 300000
  {
    EvictionIsInvisible(calls, j);
    StoredIsLastOut(calls, j, calls[j].signature);
    var full := SentForever(calls[..j]);
    forall i | 0 <= i < j ensures GoesOut(calls, i) <==> GoesOutForever(calls, i) {
      EvictionIsInvisible(calls, i);
    }
    if calls[j].signature in full {
      var last :| LastOut(calls, j, calls[j].signature, last) && full[calls[j].signature] == calls[last].now;
    }
  }

  // ----- the recent events -----

  /** The newest events of a history, newest first. */
  function Newest<E>(history: seq<E>): (r: seq<E>)
    ensures |r| == if |history| < 100 then |history| else 100
    ensures forall i :: 0 <= i < |r| ==> r[i] == history[|history| - 1 - i]
  {
    var n := if |history| < MAX_EVENTS then |history| else MAX_EVENTS;
    seq(n, i requires 0 <= i < n => history[|history| - 1 - i])
  }

  class RecentEvents<E> {
    var operationalEvents: seq<E>

    /** Everything ever pushed, oldest first. */
    ghost var history: seq<E>

    ghost predicate Valid()
      reads this
    {
      operationalEvents == Newest(history)
    }

    constructor ()
      ensures Valid() && history == []
    {
      operationalEvents, history := [], [];
    }

    method PushOperationalEvent(e: E)
      requires Valid()
      modifies this
      ensures Valid() && history == old(history) + [e]
    {
      operationalEvents := [e] + operationalEvents;
      if |operationalEvents| > MAX_EVENTS {
        operationalEvents := operationalEvents[..MAX_EVENTS];
      }
      history := history + [e];
    }
  }
}
