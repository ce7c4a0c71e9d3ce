/** The file replay store: an append-only log scanned newest-first, against the history of its callers.
  *
  * `Begin` and `Complete` each run under the store's lock, so they are atomic here.
  */
module ReplayLog {
  import opened Wrappers

  datatype Response = Response(status: int, body: string)

  datatype Record = Record(key: string, nonce: string, eventId: string, atMs: int, response: Option<Response>)

  datatype Decision = New | NonceReplay | EventReplay(response: Response)

  const TTL_MS := 3600 * 1000

  /** What a redelivery is told when no response was stored. */
  const DEFAULT := Response(200, "{accepted:true,replayedWithoutStoredBody:true}")

  predicate IsLive(recordedAtMs: int, nowMs: int) { nowMs - recordedAtMs < TTL_MS }

  const NUL: char := '\0'

  function NonceKey(provider: string, nonce: string): string { provider + [NUL] + nonce }

  function EventKey(provider: string, eventId: string): string { provider + [NUL] + "event" + [NUL] + eventId }

  predicate Clean(s: string) { NUL !in s }

  // ---------------------------------------------------------------- keys

  lemma SameFirstPiece(a: string, x: string, b: string, y: string)
    requires Clean(a) && Clean(b)
    ensures a + [NUL] + x == b + [NUL] + y <==> a == b && x == y
  {
    var s, t := a + [NUL] + x, b + [NUL] + y;
    assert s[|a|] == NUL && t[|b|] == NUL;
    assert forall i :: 0 <= i < |a| ==> s[i] == a[i] && a[i] in a;
    assert forall i :: 0 <= i < |b| ==> t[i] == b[i] && b[i] in b;
    if s == t {
      assert s[..|a|] == a && t[..|b|] == b;
      assert s[|a| + 1..] == x && t[|b| + 1..] == y;
    }
  }

  /** With providers free of NUL, keys of one kind identify what they were made from, whatever characters the
    * nonce and the event id have; the two kinds meet exactly where a nonce is spelled like the end of an event key. */
  lemma KeysAreInjective(p: string, x: string, q: string, y: string)
    requires Clean(p) && Clean(q)
    ensures NonceKey(p, x) == NonceKey(q, y) <==> p == q && x == y
    ensures EventKey(p, x) == EventKey(q, y) <==> p == q && x == y
    ensures NonceKey(p, x) == EventKey(q, y) <==> p == q && x == "event" + [NUL] + y
  {
    SameFirstPiece(p, x, q, y);
    var ex, ey := "event" + [NUL] + x, "event" + [NUL] + y;
    assert EventKey(p, x) == p + [NUL] + ex && EventKey(q, y) == q + [NUL] + ey;
    SameFirstPiece(p, ex, q, ey);
    SameFirstPiece("event", x, "event", y);
    SameFirstPiece(p, x, q, ey);
  }

  /** A nonce that could be taken for an event. */
  predicate EventLike(nonce: string) { "event" + [NUL] <= nonce }

  // ---------------------------------------------------------------- the scan

  predicate LiveFor(r: Record, key: string, now: int) { r.key == key && IsLive(r.atMs, now) }

  /** The newest live record under a key. */
  function Newest(log: seq<Record>, key: string, now: int): (r: Option<Record>)
    ensures r.Some? ==> r.value in log && LiveFor(r.value, key, now)
    ensures r.None? ==> forall i :: 0 <= i < |log| ==> !LiveFor(log[i], key, now)
  {
    if log == [] then None
    else if LiveFor(log[|log| - 1], key, now) then Some(log[|log| - 1])
    else Newest(log[..|log| - 1], key, now)
  }

  method LivesAt(log: seq<Record>, key: string, now: int) returns (r: Option<Record>)
    ensures r == Newest(log, key, now)
  {
    var index := |log| - 1;
    assert log[..index + 1] == log;
    while index >= 0
      invariant -1 <= index < |log|
      invariant Newest(log, key, now) == Newest(log[..index + 1], key, now)
    {
      assert log[..index + 1][..index] == log[..index];
      if LiveFor(log[index], key, now) {
        return Some(log[index]);
      }
      index := index - 1;
    }
    return None;
  }

  datatype Delivery = Delivery(provider: string, nonce: string, eventId: string, nowMs: int)

  function ReplayOf(r: Record): Decision {
    EventReplay(if r.response.Some? then r.response.value else DEFAULT)
  }

  function Decide(log: seq<Record>, d: Delivery): Decision {
    if Newest(log, NonceKey(d.provider, d.nonce), d.nowMs).Some? then NonceReplay
    else
      match Newest(log, EventKey(d.provider, d.eventId), d.nowMs)
      case Some(r) => ReplayOf(r)
      case None => New
  }

  function Claims(d: Delivery): seq<Record> {
    [Record(NonceKey(d.provider, d.nonce), d.nonce, d.eventId, d.nowMs, None),
     Record(EventKey(d.provider, d.eventId), d.nonce, d.eventId, d.nowMs, None)]
  }

  function Completion(provider: string, eventId: string, response: Response, nowMs: int): Record {
    Record(EventKey(provider, eventId), "", eventId, nowMs, Some(response))
  }

  class FileReplayStore {
    var log: seq<Record>

    constructor ()
      ensures log == []
    {
      log := [];
    }

    /** The nonce is asked before the event. */
    method Begin(d: Delivery) returns (r: Decision)
      modifies this
      ensures r == Decide(old(log), d)
      ensures log == old(log) + if r == New then Claims(d) else []
    {
      var seen := LivesAt(log, NonceKey(d.provider, d.nonce), d.nowMs);
      if seen.Some? { return NonceReplay; }
      var eventSeen := LivesAt(log, EventKey(d.provider, d.eventId), d.nowMs);
      if eventSeen.Some? { return ReplayOf(eventSeen.value); }
      log := log + [Record(NonceKey(d.provider, d.nonce), d.nonce, d.eventId, d.nowMs, None)];
      log := log + [Record(EventKey(d.provider, d.eventId), d.nonce, d.eventId, d.nowMs, None)];
      return New;
    }

    method Complete(provider: string, eventId: string, response: Response, nowMs: int)
      modifies this
      ensures log == old(log) + [Completion(provider, eventId, response, nowMs)]
    {
      log := log + [Completion(provider, eventId, response, nowMs)];
    }
  }

  // ---------------------------------------------------------------- runs

  datatype Call =
    | Begins(delivery: Delivery)
    | Completes(provider: string, eventId: string, response: Response, nowMs: int)

  function TimeOf(c: Call): int {
    match c
    case Begins(d) => d.nowMs
    case Completes(_, _, _, now) => now
  }

  function Written(log: seq<Record>, c: Call): seq<Record> {
    match c
    case Begins(d) => if Decide(log, d) == New then Claims(d) else []
    case Completes(p, e, r, now) => [Completion(p, e, r, now)]
  }

  /** The log after a history of calls. */
  function After(calls: seq<Call>): seq<Record> {
    if calls == [] then []
    else After(calls[..|calls| - 1]) + Written(After(calls[..|calls| - 1]), calls[|calls| - 1])
  }

  /** What the `i`-th call was told. */
  function DecisionAt(calls: seq<Call>, i: nat): Decision
    requires i < |calls| && calls[i].Begins?
  {
    Decide(After(calls[..i]), calls[i].delivery)
  }

  /** What the webhook verifier lets through: it admits no nonce outside a closed alphabet that has no NUL
    * (vanishgraph/src/http/webhooks/verify.ts:112-117), so none is event-like. */
  predicate CleanDelivery(d: Delivery) { Clean(d.provider) && !EventLike(d.nonce) }

  predicate CleanCall(c: Call) {
    match c
    case Begins(d) => CleanDelivery(d)
    case Completes(p, _, _, _) => Clean(p)
  }

  ghost predicate CleanCalls(calls: seq<Call>) { forall i :: 0 <= i < |calls| ==> CleanCall(calls[i]) }

  /** Call `i` was told NEW and so claimed its nonce and its event. */
  ghost predicate Claimed(calls: seq<Call>, i: nat)
    requires i < |calls|
  {
    calls[i].Begins? && DecisionAt(calls, i) == New
  }

  ghost predicate NonceClaimed(calls: seq<Call>, i: nat, p: string, n: string, now: int)
    requires i < |calls|
  {
    Claimed(calls, i) && calls[i].delivery.provider == p && calls[i].delivery.nonce == n && IsLive(TimeOf(calls[i]), now)
  }

  ghost predicate EventTouched(calls: seq<Call>, i: nat, p: string, e: string, now: int)
    requires i < |calls|
  {
    && IsLive(TimeOf(calls[i]), now)
    && match calls[i]
       case Begins(d) => Claimed(calls, i) && d.provider == p && d.eventId == e
       case Completes(q, f, _, _) => q == p && f == e
  }

  ghost predicate HasLive(log: seq<Record>, key: string, now: int) {
    exists i :: 0 <= i < |log| && LiveFor(log[i], key, now)
  }

  lemma NewestIffLive(log: seq<Record>, key: string, now: int)
    ensures Newest(log, key, now).Some? <==> HasLive(log, key, now)
  {
    if Newest(log, key, now).Some? {
      var i :| 0 <= i < |log| && log[i] == Newest(log, key, now).value;
      assert LiveFor(log[i], key, now);
    }
  }

  lemma HasLiveAppend(log: seq<Record>, more: seq<Record>, key: string, now: int)
    ensures HasLive(log + more, key, now) <==> HasLive(log, key, now) || HasLive(more, key, now)
  {
    var all := log + more;
    if HasLive(log, key, now) {
      var i :| 0 <= i < |log| && LiveFor(log[i], key, now);
      assert LiveFor(all[i], key, now);
    }
    if HasLive(more, key, now) {
      var i :| 0 <= i < |more| && LiveFor(more[i], key, now);
      assert LiveFor(all[|log| + i], key, now);
    }
    if HasLive(all, key, now) {
      var i :| 0 <= i < |all| && LiveFor(all[i], key, now);
      if i < |log| { assert LiveFor(log[i], key, now); } else { assert LiveFor(more[i - |log|], key, now); }
    }
  }

  lemma WrittenUnderNonce(calls: seq<Call>, i: nat, p: string, n: string, now: int)
    requires i < |calls| && CleanCall(calls[i]) && Clean(p) && !EventLike(n)
    ensures HasLive(Written(After(calls[..i]), calls[i]), NonceKey(p, n), now) <==> NonceClaimed(calls, i, p, n, now)
  {
    var w := Written(After(calls[..i]), calls[i]);
    match calls[i]
    case Begins(d) =>
      KeysAreInjective(p, n, d.provider, d.nonce);
      KeysAreInjective(p, n, d.provider, d.eventId);
      if NonceClaimed(calls, i, p, n, now) {
        assert LiveFor(w[0], NonceKey(p, n), now);
      }
    case Completes(q, e, _, _) => KeysAreInjective(p, n, q, e);
  }

  lemma WrittenUnderEvent(calls: seq<Call>, i: nat, p: string, e: string, now: int)
    requires i < |calls| && CleanCall(calls[i]) && Clean(p)
    ensures HasLive(Written(After(calls[..i]), calls[i]), EventKey(p, e), now) <==> EventTouched(calls, i, p, e, now)
  {
    var w := Written(After(calls[..i]), calls[i]);
    match calls[i]
    case Begins(d) =>
      KeysAreInjective(d.provider, d.nonce, p, e);
      KeysAreInjective(d.provider, d.eventId, p, e);
      if EventTouched(calls, i, p, e, now) {
        assert LiveFor(w[1], EventKey(p, e), now);
      }
    case Completes(q, f, _, _) =>
      KeysAreInjective(q, f, p, e);
      if EventTouched(calls, i, p, e, now) {
        assert LiveFor(w[0], EventKey(p, e), now);
      }
  }

  lemma SamePrefix(calls: seq<Call>, n: nat, i: nat)
    requires i < n <= |calls|
    ensures calls[..n][..i] == calls[..i]
  {
  }

  lemma CleanPrefix(calls: seq<Call>, n: nat)
    requires CleanCalls(calls) && n < |calls|
    ensures CleanCalls(calls[..n]) && CleanCall(calls[n])
  {
  }

  ghost predicate NonceSeen(calls: seq<Call>, p: string, n: string, now: int) {
    exists i :: 0 <= i < |calls| && NonceClaimed(calls, i, p, n, now)
  }

  ghost predicate EventSeen(calls: seq<Call>, p: string, e: string, now: int) {
    exists i :: 0 <= i < |calls| && EventTouched(calls, i, p, e, now)
  }

  lemma NonceSeenSplit(calls: seq<Call>, p: string, n: string, now: int)
    requires calls != []
    ensures var m := |calls| - 1;
            NonceSeen(calls, p, n, now) <==> NonceSeen(calls[..m], p, n, now) || NonceClaimed(calls, m, p, n, now)
  {
    var m := |calls| - 1;
    forall i | 0 <= i < m
      ensures NonceClaimed(calls[..m], i, p, n, now) <==> NonceClaimed(calls, i, p, n, now)
    {
      SamePrefix(calls, m, i);
    }
  }

  lemma EventSeenSplit(calls: seq<Call>, p: string, e: string, now: int)
    requires calls != []
    ensures var m := |calls| - 1;
            EventSeen(calls, p, e, now) <==> EventSeen(calls[..m], p, e, now) || EventTouched(calls, m, p, e, now)
  {
    var m := |calls| - 1;
    forall i | 0 <= i < m
      ensures EventTouched(calls[..m], i, p, e, now) <==> EventTouched(calls, i, p, e, now)
    {
      SamePrefix(calls, m, i);
    }
  }

  lemma {:induction false} NonceHistory(calls: seq<Call>, p: string, n: string, now: int)
    requires CleanCalls(calls) && Clean(p) && !EventLike(n)
    ensures HasLive(After(calls), NonceKey(p, n), now) <==> NonceSeen(calls, p, n, now)
  {
    if calls != [] {
      var m := |calls| - 1;
      CleanPrefix(calls, m);
      NonceHistory(calls[..m], p, n, now);
      WrittenUnderNonce(calls, m, p, n, now);
      HasLiveAppend(After(calls[..m]), Written(After(calls[..m]), calls[m]), NonceKey(p, n), now);
      NonceSeenSplit(calls, p, n, now);
    }
  }

  lemma {:induction false} EventHistory(calls: seq<Call>, p: string, e: string, now: int)
    requires CleanCalls(calls) && Clean(p)
    ensures HasLive(After(calls), EventKey(p, e), now) <==> EventSeen(calls, p, e, now)
  {
    if calls != [] {
      var m := |calls| - 1;
      CleanPrefix(calls, m);
      EventHistory(calls[..m], p, e, now);
      WrittenUnderEvent(calls, m, p, e, now);
      HasLiveAppend(After(calls[..m]), Written(After(calls[..m]), calls[m]), EventKey(p, e), now);
      EventSeenSplit(calls, p, e, now);
    }
  }

  /** The protocol, in terms of its callers alone and for any clock: a delivery is a nonce replay exactly when
    * an earlier NEW delivery of the same provider and nonce is live; otherwise an event replay exactly when a
    * NEW delivery or a completion of the same provider and event is; otherwise NEW. */
  lemma DecisionsFollowHistory(calls: seq<Call>, d: Delivery)
    requires CleanCalls(calls) && CleanDelivery(d)
    ensures var nonceLive := NonceSeen(calls, d.provider, d.nonce, d.nowMs);
            var eventLive := EventSeen(calls, d.provider, d.eventId, d.nowMs);
            && (Decide(After(calls), d) == NonceReplay <==> nonceLive)
            && (Decide(After(calls), d).EventReplay? <==> !nonceLive && eventLive)
            && (Decide(After(calls), d) == New <==> !nonceLive && !eventLive)
  {
    NonceHistory(calls, d.provider, d.nonce, d.nowMs);
    EventHistory(calls, d.provider, d.eventId, d.nowMs);
    NewestIffLive(After(calls), NonceKey(d.provider, d.nonce), d.nowMs);
    NewestIffLive(After(calls), EventKey(d.provider, d.eventId), d.nowMs);
  }

  /** So nothing is processed twice: two deliveries told NEW that share a provider and a nonce or an event are
    * at least the retention window apart. */
  lemma NeverNewTwice(calls: seq<Call>, i: nat, j: nat)
    requires CleanCalls(calls) && i < j < |calls| && Claimed(calls, i) && Claimed(calls, j)
    requires calls[i].delivery.provider == calls[j].delivery.provider
    requires calls[i].delivery.nonce == calls[j].delivery.nonce || calls[i].delivery.eventId == calls[j].delivery.eventId
    ensures TimeOf(calls[j]) - TimeOf(calls[i]) >= TTL_MS
  {
    var init := calls[..j];
    var d := calls[j].delivery;
    assert CleanCall(calls[j]);
    DecisionsFollowHistory(init, d);
    SamePrefix(calls, j, i);
    if IsLive(TimeOf(calls[i]), d.nowMs) {
      assert init[i] == calls[i];
      if calls[i].delivery.nonce == d.nonce {
        assert NonceClaimed(init, i, d.provider, d.nonce, d.nowMs);
      } else {
        assert EventTouched(init, i, d.provider, d.eventId, d.nowMs);
      }
      assert false;
    }
  }

  // ---------------------------------------------------------------- the log against two maps

  /** The map of latest live records: later live records replace earlier ones. */
  function LiveMap(log: seq<Record>, now: int): map<string, Record> {
    if log == [] then map[]
    else
      var m := LiveMap(log[..|log| - 1], now);
      var r := log[|log| - 1];
      if IsLive(r.atMs, now) then m[r.key := r] else m
  }

  function Lookup(m: map<string, Record>, key: string): Option<Record> {
    if key in m then Some(m[key]) else None
  }

  /** For any clock, scanning the log newest-first is looking up the latest live record. */
  lemma {:induction false} ScanIsLookup(log: seq<Record>, key: string, now: int)
    ensures Newest(log, key, now) == Lookup(LiveMap(log, now), key)
  {
    if log != [] {
      ScanIsLookup(log[..|log| - 1], key, now);
    }
  }

  /** A store that keeps one record per key, the last written, and no log. */
  function MapWrite(m: map<string, Record>, rs: seq<Record>): map<string, Record> {
    if rs == [] then m else MapWrite(m, rs[..|rs| - 1])[rs[|rs| - 1].key := rs[|rs| - 1]]
  }

  function LiveIn(m: map<string, Record>, key: string, now: int): Option<Record> {
    if key in m && IsLive(m[key].atMs, now) then Some(m[key]) else None
  }

  function MapDecide(m: map<string, Record>, d: Delivery): Decision {
    if LiveIn(m, NonceKey(d.provider, d.nonce), d.nowMs).Some? then NonceReplay
    else
      match LiveIn(m, EventKey(d.provider, d.eventId), d.nowMs)
      case Some(r) => ReplayOf(r)
      case None => New
  }

  function MapNext(m: map<string, Record>, c: Call): map<string, Record> {
    match c
    case Begins(d) => if MapDecide(m, d) == New then MapWrite(m, Claims(d)) else m
    case Completes(p, e, r, now) => MapWrite(m, [Completion(p, e, r, now)])
  }

  function MapAfter(calls: seq<Call>): map<string, Record> {
    if calls == [] then map[] else MapNext(MapAfter(calls[..|calls| - 1]), calls[|calls| - 1])
  }

  /** The clock never goes back. */
  ghost predicate Monotone(calls: seq<Call>) {
    forall i, j :: 0 <= i < j < |calls| ==> TimeOf(calls[i]) <= TimeOf(calls[j])
  }

  /** Nothing is stamped after `now`. */
  ghost predicate NoneAfter(log: seq<Record>, now: int) { forall i :: 0 <= i < |log| ==> log[i].atMs <= now }

  ghost predicate Ordered(log: seq<Record>) {
    forall i, j :: 0 <= i < j < |log| ==> log[i].atMs <= log[j].atMs
  }

  lemma AppendIsOrdered(log: seq<Record>, rs: seq<Record>, now: int)
    requires Ordered(log) && NoneAfter(log, now) && forall i :: 0 <= i < |rs| ==> rs[i].atMs == now
    ensures Ordered(log + rs) && NoneAfter(log + rs, now)
  {
  }

  lemma {:induction false} LogIsOrdered(calls: seq<Call>)
    requires Monotone(calls)
    ensures Ordered(After(calls))
    ensures calls == [] ==> After(calls) == []
    ensures calls != [] ==> NoneAfter(After(calls), TimeOf(calls[|calls| - 1]))
  {
    if calls != [] {
      var m := |calls| - 1;
      LogIsOrdered(calls[..m]);
      var log := After(calls[..m]);
      assert m > 0 ==> TimeOf(calls[m - 1]) <= TimeOf(calls[m]);
      AppendIsOrdered(log, Written(log, calls[m]), TimeOf(calls[m]));
    }
  }

  lemma {:induction false} MapWriteAppend(log: seq<Record>, rs: seq<Record>)
    ensures MapWrite(map[], log + rs) == MapWrite(MapWrite(map[], log), rs)
  {
    if rs == [] {
      assert log + rs == log;
    } else {
      assert (log + rs)[..|log + rs| - 1] == log + rs[..|rs| - 1];
      MapWriteAppend(log, rs[..|rs| - 1]);
    }
  }

  /** While the clock moves forward, the last record under a key is the only one that can be live. */
  lemma {:induction false} LastDecides(log: seq<Record>, key: string, now: int)
    requires Ordered(log) && NoneAfter(log, now)
    ensures Newest(log, key, now) == LiveIn(MapWrite(map[], log), key, now)
    ensures key in MapWrite(map[], log) ==> MapWrite(map[], log)[key] in log
    ensures forall i :: 0 <= i < |log| && log[i].key == key ==>
              key in MapWrite(map[], log) && log[i].atMs <= MapWrite(map[], log)[key].atMs
  {
    if log != [] {
      LastDecides(log[..|log| - 1], key, now);
    }
  }

  lemma MapStep(log: seq<Record>, c: Call)
    requires Ordered(log) && NoneAfter(log, TimeOf(c))
    ensures MapNext(MapWrite(map[], log), c) == MapWrite(map[], log + Written(log, c))
  {
    MapWriteAppend(log, Written(log, c));
    if c.Begins? {
      SameDecision(log, c.delivery);
    }
  }

  /** With a clock that never goes back, the one-record-per-key store makes every decision the log makes. */
  lemma {:induction false} MapRefinesLog(calls: seq<Call>)
    requires Monotone(calls)
    ensures MapAfter(calls) == MapWrite(map[], After(calls))
  {
    if calls != [] {
      var m := |calls| - 1;
      MapRefinesLog(calls[..m]);
      LogIsOrdered(calls[..m]);
      LogBefore(calls);
      MapStep(After(calls[..m]), calls[m]);
    }
  }

  /** The log before the last call holds nothing later than it. */
  lemma LogBefore(calls: seq<Call>)
    requires Monotone(calls) && calls != []
    ensures NoneAfter(After(calls[..|calls| - 1]), TimeOf(calls[|calls| - 1]))
  {
    LogIsOrdered(calls[..|calls| - 1]);
  }

  lemma SameDecision(log: seq<Record>, d: Delivery)
    requires Ordered(log) && NoneAfter(log, d.nowMs)
    ensures MapDecide(MapWrite(map[], log), d) == Decide(log, d)
  {
    LastDecides(log, NonceKey(d.provider, d.nonce), d.nowMs);
    LastDecides(log, EventKey(d.provider, d.eventId), d.nowMs);
  }

  lemma DecisionsAgree(calls: seq<Call>, d: Delivery)
    requires Monotone(calls) && (calls != [] ==> TimeOf(calls[|calls| - 1]) <= d.nowMs)
    ensures Decide(After(calls), d) == MapDecide(MapAfter(calls), d)
  {
    MapRefinesLog(calls);
    LogIsOrdered(calls);
    SameDecision(After(calls), d);
  }

  // ---------------------------------------------------------------- the stored response

  /** The latest live completion of an event. */
  function LatestCompletion(calls: seq<Call>, p: string, e: string, now: int): (i: Option<nat>)
    ensures i.Some? ==> i.value < |calls| && calls[i.value].Completes?
  {
    if calls == [] then None
    else
      var m := |calls| - 1;
      match calls[m]
      case Completes(q, f, _, at) =>
        if q == p && f == e && IsLive(at, now) then Some(m) else LatestCompletion(calls[..m], p, e, now)
      case _ => LatestCompletion(calls[..m], p, e, now)
  }

  /** The latest live call that left a record of an event: a completion, or a delivery told NEW. */
  ghost function LatestTouch(calls: seq<Call>, p: string, e: string, now: int): (i: Option<nat>)
    ensures i.Some? ==> i.value < |calls|
  {
    if calls == [] then None
    else if EventTouched(calls, |calls| - 1, p, e, now) then Some(|calls| - 1)
    else LatestTouch(calls[..|calls| - 1], p, e, now)
  }

  /** The record a call leaves under its event. */
  function EventRecord(c: Call): Record {
    match c
    case Begins(d) => Claims(d)[1]
    case Completes(p, e, r, now) => Completion(p, e, r, now)
  }

  lemma NewestAppend(log: seq<Record>, r: Record, key: string, now: int)
    ensures Newest(log + [r], key, now) == if LiveFor(r, key, now) then Some(r) else Newest(log, key, now)
  {
    assert (log + [r])[..|log|] == log;
  }

  lemma ClaimsAppend(log: seq<Record>, d: Delivery, p: string, e: string, now: int)
    requires CleanDelivery(d) && Clean(p)
    ensures Newest(log + Claims(d), EventKey(p, e), now)
            == if d.provider == p && d.eventId == e && IsLive(d.nowMs, now) then Some(Claims(d)[1])
               else Newest(log, EventKey(p, e), now)
  {
    KeysAreInjective(d.provider, d.nonce, p, e);
    KeysAreInjective(d.provider, d.eventId, p, e);
    assert log + Claims(d) == (log + [Claims(d)[0]]) + [Claims(d)[1]];
    NewestAppend(log, Claims(d)[0], EventKey(p, e), now);
    NewestAppend(log + [Claims(d)[0]], Claims(d)[1], EventKey(p, e), now);
  }

  /** For any clock, the newest live record of an event is what the latest live touch wrote. */
  lemma {:induction false} NewestIsLatestTouch(calls: seq<Call>, p: string, e: string, now: int)
    requires CleanCalls(calls) && Clean(p)
    ensures var touch := LatestTouch(calls, p, e, now);
            Newest(After(calls), EventKey(p, e), now)
            == if touch.Some? then Some(EventRecord(calls[touch.value])) else None
  {
    if calls != [] {
      var m := |calls| - 1;
      var log := After(calls[..m]);
      CleanPrefix(calls, m);
      NewestIsLatestTouch(calls[..m], p, e, now);
      match calls[m]
      case Completes(q, f, r, at) =>
        KeysAreInjective(q, f, p, e);
        NewestAppend(log, Completion(q, f, r, at), EventKey(p, e), now);
      case Begins(d) =>
        if Decide(log, d) == New {
          ClaimsAppend(log, d, p, e, now);
        } else {
          assert log + [] == log;
        }
    }
  }

  lemma {:induction false} LatestTouchTouches(calls: seq<Call>, p: string, e: string, now: int)
    requires LatestTouch(calls, p, e, now).Some?
    ensures EventTouched(calls, LatestTouch(calls, p, e, now).value, p, e, now)
  {
    var m := |calls| - 1;
    if !EventTouched(calls, m, p, e, now) {
      LatestTouchTouches(calls[..m], p, e, now);
      SamePrefix(calls, m, LatestTouch(calls, p, e, now).value);
    }
  }

  /** A completion is a touch: the latest one comes no later than the latest touch, and is it if that is one. */
  lemma {:induction false} CompletionIsATouch(calls: seq<Call>, p: string, e: string, now: int)
    ensures var done, touch := LatestCompletion(calls, p, e, now), LatestTouch(calls, p, e, now);
            && (done.Some? ==> touch.Some? && done.value <= touch.value && EventTouched(calls, done.value, p, e, now))
            && (touch.Some? && calls[touch.value].Completes? ==> done == touch)
  {
    if calls != [] {
      var m := |calls| - 1;
      CompletionIsATouch(calls[..m], p, e, now);
      var done := LatestCompletion(calls[..m], p, e, now);
      if done.Some? {
        SamePrefix(calls, m, done.value);
      }
    }
  }

  /** What the latest live completion stored; the default if there is none. */
  function Due(calls: seq<Call>, p: string, e: string, now: int): Response {
    var done := LatestCompletion(calls, p, e, now);
    if done.Some? then calls[done.value].response else DEFAULT
  }

  /** For any clock: an event replay answers with the latest live completion, else the default, exactly when
    * the latest live touch of the event is not a claim that hides a completion of something else. */
  lemma ReplayAnswersIff(calls: seq<Call>, d: Delivery)
    requires CleanCalls(calls) && CleanDelivery(d) && Decide(After(calls), d).EventReplay?
    ensures var touch := LatestTouch(calls, d.provider, d.eventId, d.nowMs);
            var done := LatestCompletion(calls, d.provider, d.eventId, d.nowMs);
            && touch.Some?
            && (Decide(After(calls), d).response == Due(calls, d.provider, d.eventId, d.nowMs) <==>
                calls[touch.value].Completes? || done.None? || calls[done.value].response == DEFAULT)
  {
    NewestIsLatestTouch(calls, d.provider, d.eventId, d.nowMs);
    CompletionIsATouch(calls, d.provider, d.eventId, d.nowMs);
  }

  /** A delivery told NEW comes a whole window after every earlier touch of its event. */
  lemma ClaimSawNothingLive(calls: seq<Call>, i: nat, t: nat, now: int)
    requires CleanCalls(calls) && i < t < |calls| && Claimed(calls, t)
    requires EventTouched(calls, i, calls[t].delivery.provider, calls[t].delivery.eventId, now)
    ensures TimeOf(calls[t]) >= TimeOf(calls[i]) + TTL_MS
  {
    var init, d := calls[..t], calls[t].delivery;
    assert CleanCalls(init) && CleanCall(calls[t]);
    DecisionsFollowHistory(init, d);
    SamePrefix(calls, t, i);
    assert init[i] == calls[i];
    assert EventTouched(init, i, d.provider, d.eventId, d.nowMs) <==> IsLive(TimeOf(calls[i]), d.nowMs);
  }

  /** Only a claim from the future hides a completion: it was made when the completion had expired, which at
    * `now` it has not. */
  lemma HidingClaimIsLate(calls: seq<Call>, p: string, e: string, now: int)
    requires CleanCalls(calls) && Clean(p)
    requires LatestCompletion(calls, p, e, now).Some?
    ensures var touch, done := LatestTouch(calls, p, e, now), LatestCompletion(calls, p, e, now).value;
            && touch.Some?
            && (calls[touch.value].Begins? ==> TimeOf(calls[touch.value]) >= TimeOf(calls[done]) + TTL_MS > now)
  {
    CompletionIsATouch(calls, p, e, now);
    LatestTouchTouches(calls, p, e, now);
    var t, done := LatestTouch(calls, p, e, now).value, LatestCompletion(calls, p, e, now).value;
    if calls[t].Begins? {
      ClaimSawNothingLive(calls, done, t, now);
    }
  }

  /** No delivery of the same event was told NEW at a later time. */
  ghost predicate NoLaterClaim(calls: seq<Call>, d: Delivery) {
    forall i :: 0 <= i < |calls| && Claimed(calls, i) && TimeOf(calls[i]) > d.nowMs ==>
      calls[i].delivery.provider != d.provider || calls[i].delivery.eventId != d.eventId
  }

  /** So the answer is right whenever no delivery of the event was told NEW at a later time than now; in
    * particular with a clock that never goes back. */
  lemma ReplayAnswers(calls: seq<Call>, d: Delivery)
    requires CleanCalls(calls) && CleanDelivery(d) && Decide(After(calls), d).EventReplay?
    requires NoLaterClaim(calls, d)
    ensures Decide(After(calls), d).response == Due(calls, d.provider, d.eventId, d.nowMs)
  {
    ReplayAnswersIff(calls, d);
    LatestTouchTouches(calls, d.provider, d.eventId, d.nowMs);
    if LatestCompletion(calls, d.provider, d.eventId, d.nowMs).Some? {
      HidingClaimIsLate(calls, d.provider, d.eventId, d.nowMs);
    }
  }

  /** A clock that never goes back is enough. */
  lemma ForwardClockHasNoLaterClaim(calls: seq<Call>, d: Delivery)
    requires Monotone(calls) && (calls != [] ==> TimeOf(calls[|calls| - 1]) <= d.nowMs)
    ensures NoLaterClaim(calls, d)
  {
  }

  const STORED := Response(202, "stored")

  /** A delivery and its completion at the start of the window, and a redelivery when both had just expired. */
  function BackwardCalls(): seq<Call> {
    [Begins(Delivery("p", "k", "e", 0)), Completes("p", "e", STORED, 0), Begins(Delivery("p", "n", "e", TTL_MS))]
  }

  lemma AnotherNonce(log: seq<Record>, p: string, n: string, now: int)
    requires forall i :: 0 <= i < |log| ==> !LiveFor(log[i], NonceKey(p, n), now)
    ensures Newest(log, NonceKey(p, n), now).None?
  {
    NewestIffLive(log, NonceKey(p, n), now);
  }

  lemma ExpiredLog(log: seq<Record>, d: Delivery)
    requires forall i :: 0 <= i < |log| ==> !IsLive(log[i].atMs, d.nowMs)
    ensures Decide(log, d) == New
  {
    NewestIffLive(log, NonceKey(d.provider, d.nonce), d.nowMs);
    NewestIffLive(log, EventKey(d.provider, d.eventId), d.nowMs);
  }

  const FIRST := Delivery("p", "k", "e", 0)
  const AGAIN := Delivery("p", "n", "e", TTL_MS)

  lemma AfterOneMore(calls: seq<Call>, c: Call)
    ensures After(calls + [c]) == After(calls) + Written(After(calls), c)
    ensures (calls + [c])[..|calls|] == calls
  {
  }

  lemma FirstStep()
    ensures Decide(After([]), FIRST) == New && After([Begins(FIRST)]) == Claims(FIRST)
  {
    ExpiredLog([], FIRST);
    AfterOneMore([], Begins(FIRST));
    assert [] + [Begins(FIRST)] == [Begins(FIRST)];
  }

  lemma SecondStep()
    ensures After([Begins(FIRST), Completes("p", "e", STORED, 0)]) == Claims(FIRST) + [Completion("p", "e", STORED, 0)]
  {
    FirstStep();
    AfterOneMore([Begins(FIRST)], Completes("p", "e", STORED, 0));
    assert [Begins(FIRST)] + [Completes("p", "e", STORED, 0)] == [Begins(FIRST), Completes("p", "e", STORED, 0)];
  }

  lemma ThirdStep()
    ensures var two := [Begins(FIRST), Completes("p", "e", STORED, 0)];
            && BackwardCalls()[..0] == [] && BackwardCalls()[..2] == two
            && Decide(After(two), AGAIN) == New
            && After(BackwardCalls()) == After(two) + Claims(AGAIN)
  {
    var two := [Begins(FIRST), Completes("p", "e", STORED, 0)];
    SecondStep();
    ExpiredLog(After(two), AGAIN);
    AfterOneMore(two, Begins(AGAIN));
    assert BackwardCalls() == two + [Begins(AGAIN)];
  }

  lemma BackwardLog()
    ensures var calls := BackwardCalls();
            && Claimed(calls, 0) && Claimed(calls, 2)
            && After(calls) == Claims(calls[0].delivery) + [Completion("p", "e", STORED, 0)] + Claims(calls[2].delivery)
  {
    FirstStep();
    SecondStep();
    ThirdStep();
  }

  lemma BackwardCompletion()
    ensures LatestCompletion(BackwardCalls(), "p", "e", 1) == Some(1) && CleanCalls(BackwardCalls())
  {
    var calls := BackwardCalls();
    assert calls[..2][1] == calls[1];
    assert LatestCompletion(calls[..2], "p", "e", 1) == Some(1);
  }

  lemma BackwardNonce(log: seq<Record>)
    requires log == Claims(Delivery("p", "k", "e", 0)) + [Completion("p", "e", STORED, 0)]
                    + Claims(Delivery("p", "n", "e", TTL_MS))
    ensures Newest(log, NonceKey("p", "m"), 1).None?
  {
    KeysAreInjective("p", "m", "p", "k");
    KeysAreInjective("p", "m", "p", "n");
    KeysAreInjective("p", "m", "p", "e");
    AnotherNonce(log, "p", "m", 1);
  }

  /** A clock that steps back does break it: each delivery and each completion was right when it was made, and
    * a redelivery stamped one millisecond into the window is told the default, though the stored one is live. */
  lemma BackwardClockHidesTheCompletion()
    ensures var calls := BackwardCalls();
            && CleanCalls(calls) && LatestCompletion(calls, "p", "e", 1) == Some(1)
            && Decide(After(calls), Delivery("p", "m", "e", 1)) == EventReplay(DEFAULT)
            && Due(calls, "p", "e", 1) == STORED
  {
    BackwardLog();
    BackwardCompletion();
    BackwardNonce(After(BackwardCalls()));
    ClaimsAppend(Claims(Delivery("p", "k", "e", 0)) + [Completion("p", "e", STORED, 0)],
                 Delivery("p", "n", "e", TTL_MS), "p", "e", 1);
  }
}
