/** The append-only audit sink: what a batch must look like to be stored, and what is stored for it. */
module AuditSink {
  import opened Wrappers
  import opened TruthState

  // ---------------------------------------------------------------- identifier shapes

  predicate IsHex(c: char) { '0' <= c <= '9' || 'a' <= c <= 'f' || 'A' <= c <= 'F' }

  predicate IsLowerHex(c: char) { '0' <= c <= '9' || 'a' <= c <= 'f' }

  predicate IsDash(i: int) { i == 8 || i == 13 || i == 18 || i == 23 }

  predicate IsUuid(s: string) {
    |s| == 36 && forall i :: 0 <= i < 36 ==> if IsDash(i) then s[i] == '-' else IsHex(s[i])
  }

  predicate IsHex32(s: string) { |s| == 32 && forall i :: 0 <= i < 32 ==> IsHex(s[i]) }

  predicate IsTraceparent(s: string) {
    |s| == 55 && forall i :: 0 <= i < 55 ==> if i == 2 || i == 35 || i == 52 then s[i] == '-' else IsLowerHex(s[i])
  }

  function LowerChar(c: char): char {
    if 'A' <= c <= 'F' then (c as int + 32) as char else c
  }

  function Lower(s: string): (r: string)
    ensures |r| == |s| && forall i :: 0 <= i < |s| ==> r[i] == LowerChar(s[i])
  {
    seq(|s|, i requires 0 <= i < |s| => LowerChar(s[i]))
  }

  /** The text of an identifier in one of its two accepted spellings, as a dashed UUID. */
  function CanonicalUuid(s: string): Option<string> {
    if IsUuid(s) then Some(s)
    else if !IsHex32(s) then None
    else Some(Dashed(Lower(s)))
  }

  function Undashed(s: string): string
    requires |s| == 36
  {
    s[..8] + s[9..13] + s[14..18] + s[19..23] + s[24..]
  }

  /** 32 digits with the four dashes of a UUID. */
  function Dashed(h: string): string
    requires |h| == 32
  {
    h[..8] + "-" + h[8..12] + "-" + h[12..16] + "-" + h[16..20] + "-" + h[20..]
  }

  lemma DashedIsUuid(h: string)
    requires IsHex32(h)
    ensures IsUuid(Dashed(h))
  {
    var c := Dashed(h);
    forall i | 0 <= i < 36
      ensures if IsDash(i) then c[i] == '-' else IsHex(c[i])
    {
      if i < 8 { assert c[i] == h[i]; }
      else if 8 < i < 13 { assert c[i] == h[i - 1]; }
      else if 13 < i < 18 { assert c[i] == h[i - 2]; }
      else if 18 < i < 23 { assert c[i] == h[i - 3]; }
      else if 23 < i { assert c[i] == h[i - 4]; }
    }
  }

  lemma UndashedDashed(h: string)
    requires |h| == 32
    ensures |Dashed(h)| == 36 && Undashed(Dashed(h)) == h
  {
    var c := Dashed(h);
    assert c[..8] == h[..8] && c[9..13] == h[8..12] && c[14..18] == h[12..16];
    assert c[19..23] == h[16..20] && c[24..] == h[20..];
  }

  lemma LowerTwice(s: string)
    ensures Lower(Lower(s)) == Lower(s)
    ensures IsHex32(s) ==> IsHex32(Lower(s))
  {
  }

  /** Both spellings of the same 128 bits canonicalise to a UUID with exactly those digits, and a canonical
    * form is its own canonical form. */
  lemma CanonicalKeepsTheDigits(s: string)
    ensures CanonicalUuid(s).Some? <==> IsUuid(s) || IsHex32(s)
    ensures CanonicalUuid(s).Some? ==>
              var c := CanonicalUuid(s).value;
              && IsUuid(c) && CanonicalUuid(c) == Some(c)
              && Lower(Undashed(c)) == Lower(if IsUuid(s) then Undashed(s) else s)
  {
    if !IsUuid(s) && IsHex32(s) {
      LowerTwice(s);
      DashedIsUuid(Lower(s));
      UndashedDashed(Lower(s));
    }
  }

  // ---------------------------------------------------------------- transition codes

  function CodeOf(id: Id): string {
    match id
    case T1 => "T1" case T2 => "T2" case T3 => "T3" case T4 => "T4" case T5 => "T5" case T6 => "T6" case T7 => "T7"
    case T8 => "T8" case T9 => "T9" case T10 => "T10" case T11 => "T11" case T12 => "T12" case T13 => "T13"
    case T14 => "T14" case T15 => "T15" case T16 => "T16" case T17 => "T17" case T18 => "T18" case T19 => "T19"
    case T20 => "T20" case T21 => "T21"
  }

  /** The pattern the sink and the column check: T1 to T9, T10 to T19, T20 and T21. */
  predicate CodeShape(s: string) {
    && |s| >= 2 && s[0] == 'T'
    && ((|s| == 2 && '1' <= s[1] <= '9')
        || (|s| == 3 && s[1] == '1' && '0' <= s[2] <= '9')
        || (|s| == 3 && s[1] == '2' && '0' <= s[2] <= '1'))
  }

  function IdOf(s: string): Id
    requires CodeShape(s)
  {
    if |s| == 2 then
      match s[1]
      case '1' => T1 case '2' => T2 case '3' => T3 case '4' => T4 case '5' => T5 case '6' => T6 case '7' => T7
      case '8' => T8 case _ => T9
    else if s[1] == '1' then
      match s[2]
      case '0' => T10 case '1' => T11 case '2' => T12 case '3' => T13 case '4' => T14 case '5' => T15 case '6' => T16
      case '7' => T17 case '8' => T18 case _ => T19
    else if s[2] == '0' then T20 else T21
  }

  lemma ShortCodes(s: string)
    requires CodeShape(s) && |s| == 2
    ensures CodeOf(IdOf(s)) == s
  {
    assert s == [s[0], s[1]];
  }

  lemma LongCodes(s: string)
    requires CodeShape(s) && |s| == 3
    ensures CodeOf(IdOf(s)) == s
  {
    assert s == [s[0], s[1], s[2]];
  }

  /** The pattern accepts exactly the codes of the 21 rows. */
  lemma CodeShapeIsTheTable(s: string)
    ensures CodeShape(s) <==> exists id :: CodeOf(id) == s
  {
    if CodeShape(s) {
      if |s| == 2 { ShortCodes(s); } else { LongCodes(s); }
      assert CodeOf(IdOf(s)) == s;
    }
  }

  // ---------------------------------------------------------------- batches

  datatype Payload = Scalar(text: string) | Structured

  datatype AuditEvent = AuditEvent(
    actor: string, action: string, target: Option<string>, correlationId: string, atMs: int, payload: seq<Payload>)

  datatype ActorKind = Human | Service | System

  datatype AuditOutcome = Succeeded | Refused | Failed | Ambiguous | Gated

  datatype Metadata = Metadata(
    actorKind: Option<ActorKind>, outcome: Option<AuditOutcome>, requestId: Option<string>, traceparent: Option<string>)

  /** Codes and states arrive as text; `knownStates` are the eleven tokens. */
  datatype Transition = Transition(
    code: string, from: Option<string>, to: string, evidence: seq<string>, caseId: Option<string>)

  datatype StoredTransition = StoredTransition(
    code: string, from: Option<string>, to: string, evidence: Option<seq<string>>, caseId: Option<string>)

  datatype StoredRow = StoredRow(
    actor: string, action: string, target: Option<string>, correlation: string, atMs: int, payload: seq<Payload>,
    actorKind: ActorKind, outcome: AuditOutcome, requestId: Option<string>, traceparent: Option<string>,
    transition: Option<StoredTransition>)

  const STATES: set<string> := {
    "DISCOVERED_CANDIDATE", "MATCH_CONFIRMED", "REQUEST_READY", "REQUEST_SUBMITTED", "ACKNOWLEDGED", "VERIFIED_REMOVED",
    "SEARCH_DELISTED", "VERIFIED_NOT_PRESENT", "NOT_REMOVABLE", "HUMAN_REQUIRED", "REAPPEARED"}

  predicate MetadataFits(m: Metadata) {
    (m.requestId.Some? ==> IsUuid(m.requestId.value)) && (m.traceparent.Some? ==> IsTraceparent(m.traceparent.value))
  }

  /** A transition is recorded by exactly one row. */
  predicate TransitionFits(t: Transition, count: nat) {
    && count == 1 && CodeShape(t.code) && t.to in STATES && (t.from.Some? ==> t.from.value in STATES)
    && (forall i :: 0 <= i < |t.evidence| ==> IsUuid(t.evidence[i]))
    && (t.caseId.Some? ==> IsUuid(t.caseId.value))
  }

  predicate EventFits(e: AuditEvent) {
    && CanonicalUuid(e.correlationId).Some?
    && (e.target.Some? ==> IsUuid(e.target.value))
    && forall i :: 0 <= i < |e.payload| ==> e.payload[i].Scalar?
  }

  predicate BatchFits(events: seq<AuditEvent>, m: Metadata, t: Option<Transition>) {
    && MetadataFits(m) && (t.Some? ==> TransitionFits(t.value, |events|))
    && forall i :: 0 <= i < |events| ==> EventFits(events[i])
  }

  /** An empty evidence list is stored as NULL. */
  function StoredOf(e: AuditEvent, m: Metadata, t: Option<Transition>): StoredRow
    requires EventFits(e)
  {
    StoredRow(e.actor, e.action, e.target, CanonicalUuid(e.correlationId).value, e.atMs, e.payload,
              if m.actorKind.Some? then m.actorKind.value else Service,
              if m.outcome.Some? then m.outcome.value else Succeeded,
              m.requestId, m.traceparent,
              if t.None? then None
              else Some(StoredTransition(t.value.code, t.value.from, t.value.to,
                                         if t.value.evidence == [] then None else Some(t.value.evidence), t.value.caseId)))
  }

  /** The table's own checks: a known code and target state, a non-empty evidence list if any, stored ids,
    * and a payload of scalars. */
  predicate RowChecks(r: StoredRow) {
    && IsUuid(r.correlation) && (r.target.Some? ==> IsUuid(r.target.value))
    && (forall i :: 0 <= i < |r.payload| ==> r.payload[i].Scalar?)
    && (r.requestId.Some? ==> IsUuid(r.requestId.value)) && (r.traceparent.Some? ==> IsTraceparent(r.traceparent.value))
    && (r.transition.Some? ==>
        var t := r.transition.value;
        && (exists id :: CodeOf(id) == t.code) && t.to in STATES && (t.from.Some? ==> t.from.value in STATES)
        && (t.evidence.Some? ==> |t.evidence.value| >= 1 && forall x :: x in t.evidence.value ==> IsUuid(x))
        && (t.caseId.Some? ==> IsUuid(t.caseId.value)))
  }

  /** No row the sink accepts is one the table would refuse. */
  lemma AcceptedRowsPassTheChecks(events: seq<AuditEvent>, m: Metadata, t: Option<Transition>, i: nat)
    requires BatchFits(events, m, t) && i < |events|
    ensures RowChecks(StoredOf(events[i], m, t))
  {
    CanonicalKeepsTheDigits(events[i].correlationId);
    if t.Some? {
      CodeShapeIsTheTable(t.value.code);
    }
  }

  class AuditLog {
    var rows: seq<StoredRow>

    constructor ()
      ensures rows == []
    {
      rows := [];
    }

    /** None when the append throws.  An event that does not fit stops the batch there: the rows before it are
      * already inserted, and it is for the transaction that owns them to roll them back. */
    method AppendAuditEvents(events: seq<AuditEvent>, m: Metadata, t: Option<Transition>)
      returns (ids: Option<seq<nat>>)
      modifies this
      ensures ids.Some? <==> BatchFits(events, m, t)
      ensures old(rows) <= rows && |rows| <= |old(rows)| + |events|
      ensures forall i :: 0 <= i < |rows| - |old(rows)| ==>
                EventFits(events[i]) && rows[|old(rows)| + i] == StoredOf(events[i], m, t)
      ensures ids.Some? ==> |rows| == |old(rows)| + |events| && |ids.value| == |events|
      ensures ids.Some? ==> forall i :: 0 <= i < |events| ==> ids.value[i] == |old(rows)| + i
      ensures ids.None? ==> |rows| < |old(rows)| + |events| || events == []
      ensures t.Some? && ids.None? ==> rows == old(rows)
    {
      if m.requestId.Some? && !IsUuid(m.requestId.value) { return None; }
      if m.traceparent.Some? && !IsTraceparent(m.traceparent.value) { return None; }
      if t.Some? && !TransitionFits(t.value, |events|) { return None; }
      var inserted: seq<nat> := [];
      for k := 0 to |events|
        invariant |inserted| == k && |rows| == |old(rows)| + k && old(rows) <= rows
        invariant forall i :: 0 <= i < k ==> EventFits(events[i]) && rows[|old(rows)| + i] == StoredOf(events[i], m, t)
        invariant forall i :: 0 <= i < k ==> inserted[i] == |old(rows)| + i
      {
        if !EventFits(events[k]) { return None; }
        inserted := inserted + [|rows|];
        rows := rows + [StoredOf(events[k], m, t)];
      }
      return Some(inserted);
    }
  }
}
