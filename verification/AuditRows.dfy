/** The identifier patterns of the audit sink, character by character, the number an identifier stands for, and what
  * a stored row says of its event.
  */
module AuditRows {
  import opened Wrappers
  import opened TruthState
  import opened AuditSink

  // ---------------------------------------------------------------- patterns

  const DIGITS := "0123456789abcdef"
  const CAPITALS := "0123456789ABCDEF"

  /** The value of a hexadecimal digit in either case. */
  ghost predicate Denotes(c: char, v: nat) { v < 16 && (c == DIGITS[v] || c == CAPITALS[v]) }

  ghost predicate HexDigit(c: char) { exists v: nat :: Denotes(c, v) }

  ghost predicate LowerHexDigit(c: char) { exists v: nat :: v < 16 && c == DIGITS[v] }

  function ValueOf(c: char): nat
    requires IsHex(c)
  {
    if c <= '9' then c as int - '0' as int else if c <= 'F' then c as int - 'A' as int + 10 else c as int - 'a' as int + 10
  }

  lemma HexIs(c: char)
    ensures IsHex(c) <==> HexDigit(c)
    ensures IsLowerHex(c) <==> LowerHexDigit(c)
    ensures IsHex(c) ==> Denotes(c, ValueOf(c)) && (IsLowerHex(c) ==> c == DIGITS[ValueOf(c)])
  {
    if IsHex(c) {
      assert Denotes(c, ValueOf(c));
    }
  }

  ghost predicate Group(s: string, lower: bool, from: nat, to: nat)
    requires to <= |s|
  {
    forall i :: from <= i < to ==> if lower then LowerHexDigit(s[i]) else HexDigit(s[i])
  }

  /** Eight, four, four, four and twelve digits with dashes between. */
  ghost predicate UuidShape(s: string) {
    && |s| == 36 && s[8] == s[13] == s[18] == s[23] == '-'
    && Group(s, false, 0, 8) && Group(s, false, 9, 13) && Group(s, false, 14, 18) && Group(s, false, 19, 23)
    && Group(s, false, 24, 36)
  }

  /** Two, thirty-two, sixteen and two lower-case digits with dashes between. */
  ghost predicate TraceShape(s: string) {
    && |s| == 55 && s[2] == s[35] == s[52] == '-'
    && Group(s, true, 0, 2) && Group(s, true, 3, 35) && Group(s, true, 36, 52) && Group(s, true, 53, 55)
  }

  lemma ShapesAre(s: string)
    ensures IsUuid(s) <==> UuidShape(s)
    ensures IsTraceparent(s) <==> TraceShape(s)
    ensures IsHex32(s) <==> |s| == 32 && Group(s, false, 0, 32)
  {
    forall c
      ensures (IsHex(c) <==> HexDigit(c)) && (IsLowerHex(c) <==> LowerHexDigit(c))
    {
      HexIs(c);
    }
  }

  // ---------------------------------------------------------------- the number behind an identifier

  /** The number a string of digits denotes. */
  function Number(s: string): nat
    requires forall i :: 0 <= i < |s| ==> IsHex(s[i])
  {
    if s == [] then 0 else 16 * Number(s[..|s| - 1]) + ValueOf(s[|s| - 1])
  }

  lemma LowerKeepsValue(c: char)
    requires IsHex(c)
    ensures IsLowerHex(LowerChar(c)) && ValueOf(LowerChar(c)) == ValueOf(c)
  {
  }

  lemma {:induction false} LowerKeepsNumber(s: string)
    requires forall i :: 0 <= i < |s| ==> IsHex(s[i])
    ensures forall i :: 0 <= i < |s| ==> IsLowerHex(Lower(s)[i])
    ensures Number(Lower(s)) == Number(s)
  {
    if s != [] {
      var init := s[..|s| - 1];
      LowerKeepsNumber(init);
      LowerKeepsValue(s[|s| - 1]);
      assert Lower(s)[..|s| - 1] == Lower(init);
    }
  }

  /** The 128 bits of a dashed identifier. */
  function Bits(u: string): nat
    requires IsUuid(u)
  {
    UndashedIsHex(u);
    Number(Undashed(u))
  }

  lemma UndashedIsHex(u: string)
    requires IsUuid(u)
    ensures IsHex32(Undashed(u))
  {
    var h := Undashed(u);
    forall i | 0 <= i < 32
      ensures IsHex(h[i])
    {
      if i < 8 { assert h[i] == u[i]; }
      else if i < 12 { assert h[i] == u[i + 1]; }
      else if i < 16 { assert h[i] == u[i + 2]; }
      else if i < 20 { assert h[i] == u[i + 3]; }
      else { assert h[i] == u[i + 4]; }
    }
  }

  /** A correlation id is stored exactly if it has one of the two shapes; a dashed one is stored as it is, and the
    * other as the dashed, lower-case identifier of the same 128 bits. */
  lemma CanonicalIsTheSameNumber(s: string)
    ensures CanonicalUuid(s).Some? <==> UuidShape(s) || (|s| == 32 && Group(s, false, 0, 32))
    ensures UuidShape(s) ==> CanonicalUuid(s) == Some(s)
    ensures IsHex32(s) ==>
              && CanonicalUuid(s).Some? && TypicalUuid(CanonicalUuid(s).value)
              && Bits(CanonicalUuid(s).value) == Number(s)
  {
    ShapesAre(s);
    if IsHex32(s) {
      LowerKeepsNumber(s);
      LowerTwice(s);
      DashedIsUuid(Lower(s));
      UndashedDashed(Lower(s));
      DashedIsTypical(Lower(s));
    }
  }

  predicate TypicalUuid(u: string) {
    IsUuid(u) && forall i :: 0 <= i < 36 ==> u[i] == '-' || IsLowerHex(u[i])
  }

  lemma DashedIsTypical(h: string)
    requires IsHex32(h) && forall i :: 0 <= i < 32 ==> IsLowerHex(h[i])
    ensures TypicalUuid(Dashed(h))
  {
    DashedIsUuid(h);
    var c := Dashed(h);
    forall i | 0 <= i < 36
      ensures c[i] == '-' || IsLowerHex(c[i])
    {
      if i < 8 { assert c[i] == h[i]; }
      else if 8 < i < 13 { assert c[i] == h[i - 1]; }
      else if 13 < i < 18 { assert c[i] == h[i - 2]; }
      else if 18 < i < 23 { assert c[i] == h[i - 3]; }
      else if 23 < i { assert c[i] == h[i - 4]; }
    }
  }

  // ---------------------------------------------------------------- batches and rows

  ghost predicate IdShape(s: Option<string>) { s.Some? ==> UuidShape(s.value) }

  ghost predicate EventStorable(e: AuditEvent) {
    && (UuidShape(e.correlationId) || (|e.correlationId| == 32 && Group(e.correlationId, false, 0, 32)))
    && IdShape(e.target) && forall i :: 0 <= i < |e.payload| ==> e.payload[i].Scalar?
  }

  ghost predicate TransitionStorable(t: Transition) {
    && (exists id :: CodeOf(id) == t.code) && t.to in STATES && (t.from.Some? ==> t.from.value in STATES)
    && (forall i :: 0 <= i < |t.evidence| ==> UuidShape(t.evidence[i])) && IdShape(t.caseId)
  }

  /** A batch is appended exactly when its ids have the shape of their columns, its payloads are scalars and, if it
    * records a transition, it is the one row of a known transition between known states. */
  lemma BatchFitsIff(events: seq<AuditEvent>, m: Metadata, t: Option<Transition>)
    ensures BatchFits(events, m, t) <==>
            && IdShape(m.requestId) && (m.traceparent.Some? ==> TraceShape(m.traceparent.value))
            && (t.Some? ==> |events| == 1 && TransitionStorable(t.value))
            && forall i :: 0 <= i < |events| ==> EventStorable(events[i])
  {
    forall s
      ensures (IsUuid(s) <==> UuidShape(s)) && (IsTraceparent(s) <==> TraceShape(s))
    {
      ShapesAre(s);
    }
    forall e: AuditEvent
      ensures EventFits(e) <==> EventStorable(e)
    {
      CanonicalIsTheSameNumber(e.correlationId);
    }
    if t.Some? {
      CodeShapeIsTheTable(t.value.code);
    }
  }

  /** The row says what its event says, in the name it was given, and what the request and the transition add; a missing
    * kind of actor is a service, a missing outcome a success, and an empty list of evidence is none. */
  lemma StoredRowSays(e: AuditEvent, m: Metadata, t: Option<Transition>)
    requires EventFits(e)
    ensures var r := StoredOf(e, m, t);
            && r.actor == e.actor && r.action == e.action && r.target == e.target && r.atMs == e.atMs && r.payload == e.payload
            && (m.actorKind == None ==> r.actorKind == Service) && (m.actorKind.Some? ==> m.actorKind == Some(r.actorKind))
            && (m.outcome == None ==> r.outcome == Succeeded) && (m.outcome.Some? ==> m.outcome == Some(r.outcome))
            && r.requestId == m.requestId && r.traceparent == m.traceparent
            && (r.transition.Some? <==> t.Some?)
            && (t.Some? ==>
                && r.transition.value.code == t.value.code && r.transition.value.from == t.value.from
                && r.transition.value.to == t.value.to && r.transition.value.caseId == t.value.caseId
                && (r.transition.value.evidence.None? <==> t.value.evidence == [])
                && (r.transition.value.evidence.Some? ==> r.transition.value.evidence == Some(t.value.evidence)))
            && IsUuid(r.correlation)
            && if IsHex32(e.correlationId) then Bits(r.correlation) == Number(e.correlationId)
               else r.correlation == e.correlationId
  {
    ShapesAre(e.correlationId);
    CanonicalKeepsTheDigits(e.correlationId);
    CanonicalIsTheSameNumber(e.correlationId);
  }
}
