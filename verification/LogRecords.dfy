/** What one log record may be: which rules it can break, which records are accepted, and what is emitted for them. */
module LogRecords {
  import opened Wrappers
  import opened Text
  import opened StructuredLogger

  // ---------------------------------------------------------------- fields of a record

  /** The first field called `name` has value `v`. */
  ghost predicate Holds(r: Fields, name: string, v: Json) {
    exists i :: 0 <= i < |r| && r[i] == Member(name, v) && forall j :: 0 <= j < i ==> r[j].name != name
  }

  lemma {:induction false} FieldIs(r: Fields, name: string)
    ensures match Field(r, name)
            case Some(v) => Holds(r, name, v)
            case None => !Has(r, name)
    ensures forall v :: Holds(r, name, v) ==> Field(r, name) == Some(v)
  {
    if r != [] {
      FieldIs(r[1..], name);
      if r[0].name != name {
        if Field(r[1..], name).Some? {
          var v := Field(r[1..], name).value;
          var i :| 0 <= i < |r[1..]| && r[1..][i] == Member(name, v) && forall j :: 0 <= j < i ==> r[1..][j].name != name;
          assert r[i + 1] == Member(name, v);
        }
        forall v | Holds(r, name, v)
          ensures Holds(r[1..], name, v)
        {
          var i :| 0 <= i < |r| && r[i] == Member(name, v) && forall j :: 0 <= j < i ==> r[j].name != name;
          assert r[1..][i - 1] == Member(name, v);
        }
      } else {
        assert r[0] == Member(name, r[0].value);
      }
    }
  }

  ghost predicate HoldsText(r: Fields, name: string, t: string) { Holds(r, name, JStr(t)) }

  /** A required field is given: present, not null, and no blank text. */
  ghost predicate Given(r: Fields, name: string) {
    exists v :: Holds(r, name, v) && v != JNull && (v.JStr? ==> !AllSpace(v.s))
  }

  ghost predicate TextOutside(r: Fields, name: string, allowed: set<string>) {
    exists t :: HoldsText(r, name, t) && t !in allowed
  }

  ghost predicate TextInside(r: Fields, name: string, s: set<string>) {
    exists t :: HoldsText(r, name, t) && t in s
  }

  ghost predicate Suppressed(r: Fields) { Holds(r, "sampleSuppressed", JBool(true)) }

  ghost predicate Unscoped(r: Fields, field: string, key: string) {
    Holds(r, "scope:" + key, JBool(true)) && (!Has(r, field) || Holds(r, field, JNull))
  }

  predicate BreaksLine(f: Member, name: string) {
    f.name == name && !StartsScope(name) && f.value.JStr? && ('\r' in f.value.s || '\n' in f.value.s)
  }

  predicate Scalar(v: Json) { v.JStr? || v.JNum? || v.JNonFinite? || v.JBool? }

  predicate Nests(f: Member, name: string) {
    && f.name == name && !StartsScope(name) && f.value.JObj?
    && exists i :: 0 <= i < |f.value.fields| && !Scalar(f.value.fields[i].value)
  }

  /** A path as it is reported: names joined by dots, positions in brackets. */
  function PathText(steps: seq<Step>): string {
    if steps == [] then ""
    else
      var before := PathText(steps[..|steps| - 1]);
      match steps[|steps| - 1]
      case At(i) => before + ['['] + Decimal(i) + [']']
      case Named(n) => if before == "" then n else before + ['.'] + n
  }

  lemma {:induction false} RenderedIs(a: seq<Step>, b: seq<Step>)
    ensures Rendered(PathText(a), b) == PathText(a + b)
    decreases |b|
  {
    if b == [] {
      assert a + b == a;
    } else {
      var longer := a + [b[0]];
      assert longer[..|a|] == a && longer[|a|] == b[0];
      assert a + b == longer + b[1..];
      RenderedIs(longer, b[1..]);
    }
  }

  ghost predicate NamesBanned(prohibited: set<string>, r: Fields, path: string) {
    exists steps :: LeadsToBanned(prohibited, JObj(r), steps) && PathText(steps) == path
  }

  lemma LocatedIs(prohibited: set<string>, r: Fields, path: string)
    ensures Located(prohibited, JObj(r), "", path) <==> NamesBanned(prohibited, r, path)
  {
    forall steps
      ensures Rendered("", steps) == PathText(steps)
    {
      RenderedIs([], steps);
      assert [] + steps == steps;
    }
  }

  // ---------------------------------------------------------------- rules

  /** The record breaks this rule of the contract. */
  ghost predicate Breaks(c: Contract, r: Fields, v: Violation) {
    match v
    case MissingField(name) => name in c.mandatory && !Given(r, name)
    case NotCanonical(name) =>
      || (name == "severity" && TextOutside(r, name, c.severities))
      || (name == "event" && TextOutside(r, name, c.events))
      || (name == "outcome" && TextOutside(r, name, c.outcomes))
    case BadTimestamp => exists t :: HoldsText(r, "timestamp", t) && !c.timestampShape(t)
    case MissingInScope(field) =>
      exists i :: 0 <= i < |c.conditional| && c.conditional[i].0 == field && Unscoped(r, field, c.conditional[i].1)
    case ProhibitedName(path) => NamesBanned(c.prohibited, r, path)
    case LineBreak(name) => exists i :: 0 <= i < |r| && BreaksLine(r[i], name)
    case NestedValue(name) => exists i :: 0 <= i < |r| && Nests(r[i], name)
    case FalseSuccess => TextInside(r, "truthStateTo", c.notSuccess) && HoldsText(r, "outcome", "SUCCEEDED")
    case StateSampledAway => TextInside(r, "truthStateTo", c.notSuccess) && Suppressed(r)
    case RemovalWithout(name) => HoldsText(r, "truthStateTo", "VERIFIED_REMOVED") && name in c.removalRequires && !Given(r, name)
    case SeveritySampledAway => TextInside(r, "severity", c.neverSampled) && Suppressed(r)
    case EventSampledAway => TextInside(r, "event", c.neverDropped) && Suppressed(r)
    case NotJson => false
    case EmptyCapture => false
  }

  /** The rules a captured line is scanned for as well. */
  predicate Scanned(v: Violation) {
    !(v.BadTimestamp? || v.MissingInScope? || v.LineBreak? || v.NestedValue? || v == NotCanonical("outcome"))
  }

  // ---------------------------------------------------------------- each rule

  lemma LacksIs(r: Fields, name: string)
    ensures Lacks(Field(r, name)) <==> !Given(r, name)
  {
    FieldIs(r, name);
    if Field(r, name).Some? && Field(r, name).value.JStr? {
      TrimIsEmptyIff(Field(r, name).value.s);
    }
  }

  lemma {:induction false} MissingIs(names: seq<string>, r: Fields, v: Violation)
    ensures v in MissingOf(names, r) <==> v.MissingField? && v.field in names && !Given(r, v.field)
    ensures v in RemovalOf(names, r) <==> v.RemovalWithout? && v.field in names && !Given(r, v.field)
  {
    if names != [] {
      MissingIs(names[1..], r, v);
      LacksIs(r, names[0]);
      assert forall n :: n in names <==> n == names[0] || n in names[1..];
    }
  }

  lemma CanonicalIs(r: Fields, name: string, allowed: set<string>, v: Violation)
    ensures v in CanonicalOf(r, name, allowed) <==> v == NotCanonical(name) && TextOutside(r, name, allowed)
  {
    FieldIs(r, name);
  }

  lemma TimestampIs(c: Contract, r: Fields, v: Violation)
    ensures v in TimestampOf(c, r) <==> v.BadTimestamp? && Breaks(c, r, v)
  {
    FieldIs(r, "timestamp");
  }

  ghost predicate ScopeBroken(conditional: seq<(string, string)>, r: Fields, v: Violation) {
    && v.MissingInScope?
    && exists i :: 0 <= i < |conditional| && conditional[i].0 == v.field && Unscoped(r, v.field, conditional[i].1)
  }

  lemma {:induction false} InScopeIs(conditional: seq<(string, string)>, r: Fields, v: Violation)
    ensures v in InScopeOf(conditional, r) <==> ScopeBroken(conditional, r, v)
  {
    if conditional != [] {
      var (field, key) := conditional[0];
      InScopeIs(conditional[1..], r, v);
      FieldIs(r, field);
      FieldIs(r, "scope:" + key);
      assert forall i :: 1 <= i < |conditional| ==> conditional[i] == conditional[1..][i - 1];
      assert forall i :: 0 <= i < |conditional[1..]| ==> conditional[1..][i] == conditional[i + 1];
    }
  }

  lemma ProhibitedIs(c: Contract, r: Fields, v: Violation)
    ensures v in ProhibitedOf(Find(c.prohibited, JObj(r), "")) <==> v.ProhibitedName? && Breaks(c, r, v)
  {
    var paths := Find(c.prohibited, JObj(r), "");
    if v.ProhibitedName? {
      FindIsExact(c.prohibited, JObj(r), v.path);
      LocatedIs(c.prohibited, r, v.path);
      if v.path in paths {
        var i :| 0 <= i < |paths| && paths[i] == v.path;
        assert ProhibitedOf(paths)[i] == v;
      }
    }
  }

  ghost predicate ShapeBroken(r: Fields, v: Violation) {
    || (v.LineBreak? && exists i :: 0 <= i < |r| && BreaksLine(r[i], v.field))
    || (v.NestedValue? && exists i :: 0 <= i < |r| && Nests(r[i], v.field))
  }

  lemma {:induction false} ShapeIs(r: Fields, v: Violation)
    ensures v in ShapeOf(r) <==> ShapeBroken(r, v)
  {
    if r != [] {
      ShapeIs(r[1..], v);
      assert forall i :: 1 <= i < |r| ==> r[i] == r[1..][i - 1];
      assert forall i :: 0 <= i < |r[1..]| ==> r[1..][i] == r[i + 1];
      if r[0].value.JObj? {
        assert FlatScalars(r[0].value.fields) <==> !exists i :: 0 <= i < |r[0].value.fields| && !Scalar(r[0].value.fields[i].value);
      }
    }
  }

  lemma TextIs(r: Fields, name: string, t: string)
    ensures HoldsText(r, name, t) <==> Field(r, name) == Some(JStr(t))
  {
    FieldIs(r, name);
  }

  lemma TextInsideIs(r: Fields, name: string, s: set<string>)
    ensures TextInside(r, name, s) <==> Field(r, name).Some? && Field(r, name).value.JStr? && Field(r, name).value.s in s
  {
    FieldIs(r, name);
  }

  lemma SuppressedIs(r: Fields)
    ensures Suppressed(r) <==> SampledAway(r)
  {
    FieldIs(r, "sampleSuppressed");
  }

  lemma StateTruthIs(c: Contract, r: Fields, v: Violation)
    ensures v in StateTruth(c, r) <==>
            || (v.FalseSuccess? && TextInside(r, "truthStateTo", c.notSuccess) && HoldsText(r, "outcome", "SUCCEEDED"))
            || (v.StateSampledAway? && TextInside(r, "truthStateTo", c.notSuccess) && Suppressed(r))
            || (v.RemovalWithout? && HoldsText(r, "truthStateTo", "VERIFIED_REMOVED") && v.field in c.removalRequires
                && !Given(r, v.field))
  {
    TextInsideIs(r, "truthStateTo", c.notSuccess);
    TextIs(r, "truthStateTo", "VERIFIED_REMOVED");
    TextIs(r, "outcome", "SUCCEEDED");
    SuppressedIs(r);
    MissingIs(c.removalRequires, r, v);
  }

  lemma SamplingIs(r: Fields, name: string, kept: set<string>, rule: Violation, v: Violation)
    ensures v in SamplingOf(r, name, kept, rule) <==> v == rule && TextInside(r, name, kept) && Suppressed(r)
  {
    TextInsideIs(r, name, kept);
    SuppressedIs(r);
  }

  lemma TruthIs(c: Contract, r: Fields, v: Violation)
    ensures v in Truthfulness(c, r) <==>
            || (v.FalseSuccess? && TextInside(r, "truthStateTo", c.notSuccess) && HoldsText(r, "outcome", "SUCCEEDED"))
            || (v.StateSampledAway? && TextInside(r, "truthStateTo", c.notSuccess) && Suppressed(r))
            || (v.RemovalWithout? && HoldsText(r, "truthStateTo", "VERIFIED_REMOVED") && v.field in c.removalRequires
                && !Given(r, v.field))
            || (v.SeveritySampledAway? && TextInside(r, "severity", c.neverSampled) && Suppressed(r))
            || (v.EventSampledAway? && TextInside(r, "event", c.neverDropped) && Suppressed(r))
  {
    StateTruthIs(c, r, v);
    SamplingIs(r, "severity", c.neverSampled, SeveritySampledAway, v);
    SamplingIs(r, "event", c.neverDropped, EventSampledAway, v);
  }

  /** Validation reports exactly the rules the record breaks. */
  lemma ValidateIsExact(c: Contract, r: Fields, v: Violation)
    ensures v in Validate(c, r) <==> Breaks(c, r, v)
  {
    MissingIs(c.mandatory, r, v);
    CanonicalIs(r, "severity", c.severities, v);
    CanonicalIs(r, "event", c.events, v);
    CanonicalIs(r, "outcome", c.outcomes, v);
    TimestampIs(c, r, v);
    InScopeIs(c.conditional, r, v);
    ProhibitedIs(c, r, v);
    ShapeIs(r, v);
    TruthIs(c, r, v);
  }

  lemma ScannedVocabulary(c: Contract, r: Fields, v: Violation)
    ensures v in CanonicalOf(r, "severity", c.severities) || v in CanonicalOf(r, "event", c.events)
            <==> v.NotCanonical? && Scanned(v) && Breaks(c, r, v)
  {
    CanonicalIs(r, "severity", c.severities, v);
    CanonicalIs(r, "event", c.events, v);
  }

  lemma ScannedTruth(c: Contract, r: Fields, v: Violation)
    ensures v in Truthfulness(c, r) <==>
            (v.FalseSuccess? || v.StateSampledAway? || v.RemovalWithout? || v.SeveritySampledAway? || v.EventSampledAway?)
            && Breaks(c, r, v)
  {
    TruthIs(c, r, v);
  }

  /** Of a line that is an object, the scan reports exactly the scanned rules it breaks. */
  lemma ScanIsExact(c: Contract, r: Fields, v: Violation)
    ensures v in ScanRecord(c, r) <==> Scanned(v) && Breaks(c, r, v)
  {
    MissingIs(c.mandatory, r, v);
    ScannedVocabulary(c, r, v);
    ProhibitedIs(c, r, v);
    ScannedTruth(c, r, v);
  }

  // ---------------------------------------------------------------- what a call makes of a record

  lemma {:induction false} FieldOfReplaced(r: Fields, name: string, v: Json, n: string)
    ensures Field(Replaced(r, name, v), n) == if n == name && Has(r, name) then Some(v) else Field(r, n)
  {
    if r != [] {
      FieldOfReplaced(r[1..], name, v, n);
      assert Replaced(r, name, v)[1..] == Replaced(r[1..], name, v);
      assert Has(r, name) <==> r[0].name == name || Has(r[1..], name) by {
        assert forall i :: 1 <= i < |r| ==> r[i] == r[1..][i - 1];
        assert forall i :: 0 <= i < |r[1..]| ==> r[1..][i] == r[i + 1];
      }
    }
  }

  lemma {:induction false} FieldOfAppended(r: Fields, m: Member, n: string)
    ensures Field(r + [m], n) == if Field(r, n).Some? then Field(r, n) else if m.name == n then Some(m.value) else None
  {
    if r == [] {
      assert r + [m] == [m] && Field([m][1..], n).None?;
    } else {
      FieldOfAppended(r[1..], m, n);
      assert (r + [m])[1..] == r[1..] + [m];
    }
  }

  lemma FieldOfPut(r: Fields, name: string, v: Json, n: string)
    ensures Field(Put(r, name, v), n) == if n == name then Some(v) else Field(r, n)
  {
    FieldIs(r, name);
    FieldIs(r, n);
    if Has(r, name) {
      FieldOfReplaced(r, name, v, n);
    } else {
      FieldOfAppended(r, Member(name, v), n);
    }
  }

  function Maybe(v: Option<string>, otherwise: Option<Json>): Option<Json> {
    if v.Some? then Some(JStr(v.value)) else otherwise
  }

  /** What an accepted call emits under each name: the activity's identity, the service's own, the ids that are in
    * scope, no marker, and the caller's value for everything else. */
  function Carried(r: Fields, now: string, who: Identity, s: Scope, n: string): Option<Json>
    requires s.correlationId.Some? && s.tenantId.Some?
  {
    match n
    case "timestamp" => Some(JStr(now))
    case "service" => Some(JStr(who.service))
    case "candidateEpoch" => Some(JStr(who.candidateEpoch))
    case "artifactDigest" => Some(JStr(who.artifactDigest))
    case "correlationId" => Some(JStr(s.correlationId.value))
    case "tenantId" => Some(JStr(s.tenantId.value))
    case "caseId" => Maybe(s.caseId, Field(r, n))
    case "exposureId" => Maybe(s.exposureId, Field(r, n))
    case "actionId" => Maybe(s.actionId, Field(r, n))
    case _ => Field(r, n)
  }

  lemma IdentifiedCarries(r: Fields, now: string, who: Identity, correlationId: string, tenantId: string, n: string)
    ensures Field(Identified(r, now, who, correlationId, tenantId), n) ==
      match n
      case "timestamp" => Some(JStr(now))
      case "service" => Some(JStr(who.service))
      case "candidateEpoch" => Some(JStr(who.candidateEpoch))
      case "artifactDigest" => Some(JStr(who.artifactDigest))
      case "correlationId" => Some(JStr(correlationId))
      case "tenantId" => Some(JStr(tenantId))
      case _ => Field(r, n)
  {
    var a := Put(r, "timestamp", JStr(now));
    var b := Put(a, "service", JStr(who.service));
    var c := Put(b, "correlationId", JStr(correlationId));
    var d := Put(c, "tenantId", JStr(tenantId));
    var e := Put(d, "candidateEpoch", JStr(who.candidateEpoch));
    FieldOfPut(r, "timestamp", JStr(now), n);
    FieldOfPut(a, "service", JStr(who.service), n);
    FieldOfPut(b, "correlationId", JStr(correlationId), n);
    FieldOfPut(c, "tenantId", JStr(tenantId), n);
    FieldOfPut(d, "candidateEpoch", JStr(who.candidateEpoch), n);
    FieldOfPut(e, "artifactDigest", JStr(who.artifactDigest), n);
  }

  lemma FieldOfPutIf(r: Fields, name: string, v: Option<string>, n: string)
    ensures Field(PutIf(r, name, v), n) == if n == name then Maybe(v, Field(r, n)) else Field(r, n)
  {
    if v.Some? {
      FieldOfPut(r, name, JStr(v.value), n);
    }
  }

  lemma FieldOfMarked(r: Fields, s: Scope, n: string)
    requires !IsMarker(n)
    ensures Field(Marked(r, s), n) == Field(r, n)
  {
    var a := Put(r, CASE_MARKER, JBool(s.caseId.Some?));
    var b := Put(a, EXPOSURE_MARKER, JBool(s.exposureId.Some?));
    FieldOfPut(r, CASE_MARKER, JBool(s.caseId.Some?), n);
    FieldOfPut(a, EXPOSURE_MARKER, JBool(s.exposureId.Some?), n);
    FieldOfPut(b, ACTION_MARKER, JBool(s.actionId.Some?), n);
  }

  lemma CompleteCarries(r: Fields, now: string, who: Identity, s: Scope, n: string)
    requires s.correlationId.Some? && s.tenantId.Some? && !IsMarker(n)
    ensures Field(Complete(r, now, who, s, s.correlationId.value, s.tenantId.value), n) == Carried(r, now, who, s, n)
  {
    var a := Identified(r, now, who, s.correlationId.value, s.tenantId.value);
    var b := PutIf(a, "caseId", s.caseId);
    var c := PutIf(b, "exposureId", s.exposureId);
    IdentifiedCarries(r, now, who, s.correlationId.value, s.tenantId.value, n);
    FieldOfPutIf(a, "caseId", s.caseId, n);
    FieldOfPutIf(b, "exposureId", s.exposureId, n);
    FieldOfPutIf(c, "actionId", s.actionId, n);
    FieldOfMarked(PutIf(c, "actionId", s.actionId), s, n);
  }

  lemma MarkersSay(r: Fields, s: Scope)
    ensures Field(Marked(r, s), "scope:caseId") == Some(JBool(s.caseId.Some?))
    ensures Field(Marked(r, s), "scope:exposureId") == Some(JBool(s.exposureId.Some?))
    ensures Field(Marked(r, s), "scope:actionId") == Some(JBool(s.actionId.Some?))
  {
    var a := Put(r, CASE_MARKER, JBool(s.caseId.Some?));
    var b := Put(a, EXPOSURE_MARKER, JBool(s.exposureId.Some?));
    FieldOfPut(r, CASE_MARKER, JBool(s.caseId.Some?), CASE_MARKER);
    FieldOfPut(a, EXPOSURE_MARKER, JBool(s.exposureId.Some?), CASE_MARKER);
    FieldOfPut(a, EXPOSURE_MARKER, JBool(s.exposureId.Some?), EXPOSURE_MARKER);
    FieldOfPut(b, ACTION_MARKER, JBool(s.actionId.Some?), CASE_MARKER);
    FieldOfPut(b, ACTION_MARKER, JBool(s.actionId.Some?), EXPOSURE_MARKER);
    FieldOfPut(b, ACTION_MARKER, JBool(s.actionId.Some?), ACTION_MARKER);
  }

  lemma {:induction false} UnmarkedIs(r: Fields, m: Member)
    ensures m in Unmarked(r) <==> m in r && !IsMarker(m.name)
  {
    if r != [] {
      UnmarkedIs(r[1..], m);
      assert m in r <==> m == r[0] || m in r[1..];
    }
  }

  // ---------------------------------------------------------------- the order of the fields

  function Names(r: Fields): (ns: seq<string>)
    ensures |ns| == |r| && forall i :: 0 <= i < |r| ==> ns[i] == r[i].name
  {
    if r == [] then [] else [r[0].name] + Names(r[1..])
  }

  lemma NamesIs(r: Fields, name: string)
    ensures name in Names(r) <==> Has(r, name)
  {
    if name in Names(r) {
      var i :| 0 <= i < |r| && Names(r)[i] == name;
      assert r[i].name == name;
    }
  }

  /** A field keeps its place when its value is replaced, and a new one comes last. */
  lemma PutKeepsOrder(r: Fields, name: string, v: Json)
    ensures Names(Put(r, name, v)) == Names(r) + if name in Names(r) then [] else [name]
  {
    NamesIs(r, name);
    var q := Put(r, name, v);
    assert forall i :: 0 <= i < |r| ==> q[i].name == r[i].name;
  }

  function Visible(names: seq<string>): seq<string> {
    if names == [] then [] else (if IsMarker(names[0]) then [] else [names[0]]) + Visible(names[1..])
  }

  lemma {:induction false} VisibleOfConcat(a: seq<string>, b: seq<string>)
    ensures Visible(a + b) == Visible(a) + Visible(b)
  {
    if a == [] {
      assert a + b == b;
    } else {
      assert (a + b)[1..] == a[1..] + b;
      VisibleOfConcat(a[1..], b);
    }
  }

  lemma {:induction false} NamesOfUnmarked(r: Fields)
    ensures Names(Unmarked(r)) == Visible(Names(r))
  {
    if r != [] {
      NamesOfUnmarked(r[1..]);
      assert Names(r)[1..] == Names(r[1..]);
      var rest := Unmarked(r[1..]);
      if IsMarker(r[0].name) {
        assert [] + rest == rest;
      } else {
        assert ([r[0]] + rest)[1..] == rest;
      }
    }
  }

  lemma PutIfKeepsOrder(r: Fields, name: string, v: Option<string>)
    ensures Names(r) <= Names(PutIf(r, name, v))
  {
    if v.Some? {
      PutKeepsOrder(r, name, JStr(v.value));
    }
  }

  lemma CompleteKeepsOrder(r: Fields, now: string, who: Identity, s: Scope, correlationId: string, tenantId: string)
    ensures Names(r) <= Names(Complete(r, now, who, s, correlationId, tenantId))
  {
    var a := Put(r, "timestamp", JStr(now));
    var b := Put(a, "service", JStr(who.service));
    var c := Put(b, "correlationId", JStr(correlationId));
    var d := Put(c, "tenantId", JStr(tenantId));
    var e := Put(d, "candidateEpoch", JStr(who.candidateEpoch));
    PutKeepsOrder(r, "timestamp", JStr(now));
    PutKeepsOrder(a, "service", JStr(who.service));
    PutKeepsOrder(b, "correlationId", JStr(correlationId));
    PutKeepsOrder(c, "tenantId", JStr(tenantId));
    PutKeepsOrder(d, "candidateEpoch", JStr(who.candidateEpoch));
    PutKeepsOrder(e, "artifactDigest", JStr(who.artifactDigest));
    ScopedKeepsOrder(Identified(r, now, who, correlationId, tenantId), s);
  }

  lemma ScopedKeepsOrder(r: Fields, s: Scope)
    ensures Names(r) <= Names(Marked(PutIf(PutIf(PutIf(r, "caseId", s.caseId), "exposureId", s.exposureId),
                                           "actionId", s.actionId), s))
  {
    var a := PutIf(r, "caseId", s.caseId);
    var b := PutIf(a, "exposureId", s.exposureId);
    var c := PutIf(b, "actionId", s.actionId);
    var d := Put(c, CASE_MARKER, JBool(s.caseId.Some?));
    var e := Put(d, EXPOSURE_MARKER, JBool(s.exposureId.Some?));
    PutIfKeepsOrder(r, "caseId", s.caseId);
    PutIfKeepsOrder(a, "exposureId", s.exposureId);
    PutIfKeepsOrder(b, "actionId", s.actionId);
    PutKeepsOrder(c, CASE_MARKER, JBool(s.caseId.Some?));
    PutKeepsOrder(d, EXPOSURE_MARKER, JBool(s.exposureId.Some?));
    PutKeepsOrder(e, ACTION_MARKER, JBool(s.actionId.Some?));
  }

  // ---------------------------------------------------------------- the call

  ghost predicate Known(v: Option<string>) { v.Some? && !AllSpace(v.value) }

  /** What the call validates: the caller's record with what it carries, and its scope as markers. */
  ghost predicate CompletedAs(r: Fields, now: string, who: Identity, s: Scope, q: Fields)
    requires s.correlationId.Some? && s.tenantId.Some?
  {
    && (forall n :: !IsMarker(n) ==> Field(q, n) == Carried(r, now, who, s, n))
    && Field(q, "scope:caseId") == Some(JBool(s.caseId.Some?))
    && Field(q, "scope:exposureId") == Some(JBool(s.exposureId.Some?))
    && Field(q, "scope:actionId") == Some(JBool(s.actionId.Some?))
  }

  lemma CompleteIsCompleted(r: Fields, now: string, who: Identity, s: Scope)
    requires s.correlationId.Some? && s.tenantId.Some?
    ensures CompletedAs(r, now, who, s, Complete(r, now, who, s, s.correlationId.value, s.tenantId.value))
  {
    var q := Complete(r, now, who, s, s.correlationId.value, s.tenantId.value);
    forall n | !IsMarker(n)
      ensures Field(q, n) == Carried(r, now, who, s, n)
    {
      CompleteCarries(r, now, who, s, n);
    }
    MarkersSay(PutIf(PutIf(PutIf(Identified(r, now, who, s.correlationId.value, s.tenantId.value),
                                 "caseId", s.caseId), "exposureId", s.exposureId), "actionId", s.actionId), s);
  }

  /** What becomes of a completed record: emitted without its markers exactly when it breaks no rule, and refused
    * with every rule it breaks when it does. */
  ghost predicate Settled(c: Contract, q: Fields, result: LogResult) {
    match result
    case Emitted(e) => (forall v :: !Breaks(c, q, v)) && forall m :: m in e <==> m in q && !IsMarker(m.name)
    case Violations(vs) => vs != [] && forall v :: v in vs <==> Breaks(c, q, v)
    case MissingIdentity(_) => false
  }

  lemma ValidatedSettles(c: Contract, q: Fields)
    ensures Settled(c, q, if Validate(c, q) != [] then Violations(Validate(c, q)) else Emitted(Unmarked(q)))
  {
    forall v
      ensures v in Validate(c, q) <==> Breaks(c, q, v)
    {
      ValidateIsExact(c, q, v);
    }
    forall m
      ensures m in Unmarked(q) <==> m in q && !IsMarker(m.name)
    {
      UnmarkedIs(q, m);
    }
  }

  lemma IdentifiesIff(v: Option<string>)
    ensures Identifies(v) <==> Known(v)
  {
    if v.Some? {
      TrimIsEmptyIff(v.value);
    }
  }

  /** A call without a correlation id, or else without a tenant, is refused for that; otherwise the record as completed
    * decides. */
  lemma LogDecides(c: Contract, who: Identity, now: string, s: Scope, r: Fields)
    ensures var result := LogOf(c, who, now, s, r);
            if !Known(s.correlationId) then result == MissingIdentity("correlationId")
            else if !Known(s.tenantId) then result == MissingIdentity("tenantId")
            else exists q :: CompletedAs(r, now, who, s, q) && Settled(c, q, result)
  {
    IdentifiesIff(s.correlationId);
    IdentifiesIff(s.tenantId);
    if Known(s.correlationId) && Known(s.tenantId) {
      CompleteIsCompleted(r, now, who, s);
      ValidatedSettles(c, Complete(r, now, who, s, s.correlationId.value, s.tenantId.value));
    }
  }

  lemma PrefixStaysVisible(r: Fields, q: Fields)
    requires Names(r) <= Names(q)
    ensures Visible(Names(r)) <= Names(Unmarked(q))
  {
    var more := Names(q)[|r|..];
    assert Names(q) == Names(r) + more;
    VisibleOfConcat(Names(r), more);
    NamesOfUnmarked(q);
  }

  lemma NoMarkerLeft(q: Fields, n: string)
    requires IsMarker(n)
    ensures Field(Unmarked(q), n) == None
  {
    FieldIs(Unmarked(q), n);
    if Field(Unmarked(q), n).Some? {
      UnmarkedIs(q, Member(n, Field(Unmarked(q), n).value));
    }
  }

  /** Every field an emitted record carries is the one it should be, none is a scope marker, and the caller's own fields
    * come first, in the caller's order. */
  lemma EmittedCarries(c: Contract, who: Identity, now: string, s: Scope, r: Fields, n: string)
    requires LogOf(c, who, now, s, r).Emitted?
    ensures var e := LogOf(c, who, now, s, r).record;
            && Field(e, n) == (if IsMarker(n) then None else Carried(r, now, who, s, n))
            && Visible(Names(r)) <= Names(e)
  {
    var q := Complete(r, now, who, s, s.correlationId.value, s.tenantId.value);
    CompleteKeepsOrder(r, now, who, s, s.correlationId.value, s.tenantId.value);
    PrefixStaysVisible(r, q);
    if IsMarker(n) {
      NoMarkerLeft(q, n);
    } else {
      FieldOfUnmarked(q, n);
      CompleteCarries(r, now, who, s, n);
    }
  }

  // ---------------------------------------------------------------- a captured stream

  /** What is reported about a line: that it is no JSON, or what its value breaks. */
  ghost predicate Reported(c: Contract, decode: Decoder, line: string, v: Violation) {
    match decode(line)
    case None => v == NotJson
    case Some(value) => if value.JObj? then Scanned(v) && Breaks(c, value.fields, v) else v in ScanValue(c, value)
  }

  lemma LineIs(c: Contract, decode: Decoder, line: string, v: Violation)
    requires ScanLine(c, decode, line).Some?
    ensures v in ScanLine(c, decode, line).value <==> Reported(c, decode, line, v)
  {
    if decode(line).Some? && decode(line).value.JObj? {
      ScanIsExact(c, decode(line).value.fields, v);
    }
  }

  lemma NumberedIs(n: nat, vs: seq<Violation>, m: nat, v: Violation)
    ensures (m, v) in Numbered(n, vs) <==> m == n && v in vs
  {
    if v in vs {
      var i :| 0 <= i < |vs| && vs[i] == v;
      assert Numbered(n, vs)[i] == (n, v);
    }
  }

  ghost predicate Finds(check: LineCheck, line: string, v: Violation) { check(line).Some? && v in check(line).value }

  lemma OneMoreLine(check: LineCheck, lines: seq<string>, n: nat, m: nat, v: Violation)
    requires n < |lines| && ScanLines(check, lines, n + 1).Some?
    ensures ScanLines(check, lines, n).Some?
    ensures (m, v) in ScanLines(check, lines, n + 1).value <==>
            (m, v) in ScanLines(check, lines, n).value || (m == n + 1 && Finds(check, lines[n], v))
  {
    NumberedIs(n + 1, check(lines[n]).value, m, v);
  }

  lemma {:induction false} LinesReport(check: LineCheck, lines: seq<string>, n: nat, m: nat, v: Violation)
    requires n <= |lines| && ScanLines(check, lines, n).Some?
    ensures (m, v) in ScanLines(check, lines, n).value <==> 1 <= m <= n && Finds(check, lines[m - 1], v)
  {
    if n > 0 {
      OneMoreLine(check, lines, n - 1, m, v);
      LinesReport(check, lines, n - 1, m, v);
    }
  }

  /** A scan that does not throw reports exactly what its lines break, each with the number of its line. */
  lemma StreamReportIs(c: Contract, decode: Decoder, lines: seq<string>, m: nat, v: Violation)
    requires ScanLines(Scanner(c, decode), lines, |lines|).Some?
    ensures (m, v) in ScanLines(Scanner(c, decode), lines, |lines|).value <==>
            1 <= m <= |lines| && Reported(c, decode, lines[m - 1], v)
  {
    LinesReport(Scanner(c, decode), lines, |lines|, m, v);
    if 1 <= m <= |lines| {
      ScanLinesClean(Scanner(c, decode), lines, |lines|);
      assert Scanner(c, decode)(lines[m - 1]) == ScanLine(c, decode, lines[m - 1]);
      LineIs(c, decode, lines[m - 1], v);
    }
  }
}
