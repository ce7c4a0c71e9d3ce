/** The structured logger and the scanner that re-checks a captured stream with the same rules.
  *
  * JSON text is abstract: the stream law assumes only that a record's line can be parsed back to the record as
  * it is printed, has no line break and is not blank.
  */
module StructuredLogger {
  import opened Wrappers
  import opened Text

  // ---------------------------------------------------------------- values

  /** The value of a field: a JSON value, or a number that JSON cannot express. Object fields keep their order. */
  datatype Json =
    | JNull
    | JBool(b: bool)
    | JNum(n: real)
    | JNonFinite
    | JStr(s: string)
    | JArr(items: seq<Json>)
    | JObj(fields: seq<Member>)

  datatype Member = Member(name: string, value: Json)

  type Fields = seq<Member>

  function Field(r: Fields, name: string): Option<Json> {
    if r == [] then None else if r[0].name == name then Some(r[0].value) else Field(r[1..], name)
  }

  predicate StartsScope(name: string) { "scope:" <= name }

  // ---------------------------------------------------------------- prohibited names

  function IndexPath(prefix: string, i: nat): string { prefix + "[" + Decimal(i) + "]" }

  function NamePath(prefix: string, name: string): string {
    if |prefix| == 0 then name else prefix + "." + name
  }

  predicate Banned(prohibited: set<string>, name: string) { !StartsScope(name) && name in prohibited }

  /** The paths of the prohibited names inside a value. */
  function Find(prohibited: set<string>, v: Json, prefix: string): seq<string>
    decreases v
  {
    match v
    case JArr(items) => FindItems(prohibited, items, 0, prefix)
    case JObj(fields) => FindFields(prohibited, fields, prefix)
    case _ => []
  }

  function FindItems(prohibited: set<string>, items: seq<Json>, from: nat, prefix: string): seq<string>
    decreases items
  {
    if items == [] then []
    else Find(prohibited, items[0], IndexPath(prefix, from)) + FindItems(prohibited, items[1..], from + 1, prefix)
  }

  function FindFields(prohibited: set<string>, fields: Fields, prefix: string): seq<string>
    decreases fields
  {
    if fields == [] then []
    else
      var path := NamePath(prefix, fields[0].name);
      (if Banned(prohibited, fields[0].name) then [path] else [])
      + Find(prohibited, fields[0].value, path) + FindFields(prohibited, fields[1..], prefix)
  }

  /** One step into a value. */
  datatype Step = At(index: nat) | Named(name: string)

  /** The steps lead to a field with a prohibited name. */
  ghost predicate LeadsToBanned(prohibited: set<string>, v: Json, steps: seq<Step>)
    decreases |steps|
  {
    steps != [] &&
    match v
    case JArr(items) => steps[0].At? && steps[0].index < |items| && LeadsToBanned(prohibited, items[steps[0].index], steps[1..])
    case JObj(fields) =>
      exists i :: 0 <= i < |fields| && steps[0] == Named(fields[i].name)
                  && (if |steps| == 1 then Banned(prohibited, fields[i].name)
                      else LeadsToBanned(prohibited, fields[i].value, steps[1..]))
    case _ => false
  }

  function Rendered(prefix: string, steps: seq<Step>): string
    decreases |steps|
  {
    if steps == [] then prefix
    else
      match steps[0]
      case At(i) => Rendered(IndexPath(prefix, i), steps[1..])
      case Named(n) => Rendered(NamePath(prefix, n), steps[1..])
  }

  ghost predicate Located(prohibited: set<string>, v: Json, prefix: string, path: string) {
    exists steps :: LeadsToBanned(prohibited, v, steps) && Rendered(prefix, steps) == path
  }

  lemma FieldsUnfold(prohibited: set<string>, fields: Fields, prefix: string, path: string)
    requires fields != []
    ensures var own := NamePath(prefix, fields[0].name);
            path in FindFields(prohibited, fields, prefix) <==>
            (Banned(prohibited, fields[0].name) && path == own)
            || path in Find(prohibited, fields[0].value, own) || path in FindFields(prohibited, fields[1..], prefix)
  {
  }

  lemma {:induction false} FieldsFind(prohibited: set<string>, fields: Fields, prefix: string, path: string)
    ensures path in FindFields(prohibited, fields, prefix) <==>
            exists i :: 0 <= i < |fields| && FieldHolds(prohibited, fields[i], prefix, path)
    decreases |fields|
  {
    if fields != [] {
      FieldsFind(prohibited, fields[1..], prefix, path);
      FieldsUnfold(prohibited, fields, prefix, path);
      assert forall i :: 0 <= i < |fields| - 1 ==> fields[1..][i] == fields[i + 1];
      if exists i :: 0 <= i < |fields| && FieldHolds(prohibited, fields[i], prefix, path) {
        var i :| 0 <= i < |fields| && FieldHolds(prohibited, fields[i], prefix, path);
        if i > 0 {
          assert FieldHolds(prohibited, fields[1..][i - 1], prefix, path);
        }
      }
    }
  }

  /** The path is the field's own, prohibited, or one inside its value. */
  predicate FieldHolds(prohibited: set<string>, field: Member, prefix: string, path: string) {
    var own := NamePath(prefix, field.name);
    (Banned(prohibited, field.name) && path == own) || path in Find(prohibited, field.value, own)
  }

  predicate ItemHolds(prohibited: set<string>, item: Json, index: nat, prefix: string, path: string) {
    path in Find(prohibited, item, IndexPath(prefix, index))
  }

  lemma {:induction false} ItemsFind(prohibited: set<string>, items: seq<Json>, from: nat, prefix: string, path: string)
    ensures path in FindItems(prohibited, items, from, prefix) <==>
            exists i :: 0 <= i < |items| && ItemHolds(prohibited, items[i], from + i, prefix, path)
    decreases |items|
  {
    if items != [] {
      var tail := items[1..];
      ItemsFind(prohibited, tail, from + 1, prefix, path);
      if i :| 0 <= i < |tail| && ItemHolds(prohibited, tail[i], from + 1 + i, prefix, path) {
        assert ItemHolds(prohibited, items[i + 1], from + (i + 1), prefix, path);
      }
      if i :| 0 <= i < |items| && ItemHolds(prohibited, items[i], from + i, prefix, path) {
        if i > 0 {
          assert ItemHolds(prohibited, tail[i - 1], from + 1 + (i - 1), prefix, path);
        }
      }
    }
  }

  /** Whatever the search reports is the path of a prohibited name. */
  lemma {:induction false} FoundIsBanned(prohibited: set<string>, v: Json, prefix: string, path: string)
    returns (steps: seq<Step>)
    requires path in Find(prohibited, v, prefix)
    ensures LeadsToBanned(prohibited, v, steps) && Rendered(prefix, steps) == path
    decreases v
  {
    match v
    case JArr(items) =>
      ItemsFind(prohibited, items, 0, prefix, path);
      var i :| 0 <= i < |items| && ItemHolds(prohibited, items[i], 0 + i, prefix, path);
      var rest := FoundIsBanned(prohibited, items[i], IndexPath(prefix, i), path);
      steps := [At(i)] + rest;
      assert steps[1..] == rest;
    case JObj(fields) =>
      FieldsFind(prohibited, fields, prefix, path);
      var i :| 0 <= i < |fields| && FieldHolds(prohibited, fields[i], prefix, path);
      var own := NamePath(prefix, fields[i].name);
      if Banned(prohibited, fields[i].name) && path == own {
        steps := [Named(fields[i].name)];
        assert steps[1..] == [];
      } else {
        var rest := FoundIsBanned(prohibited, fields[i].value, own, path);
        steps := [Named(fields[i].name)] + rest;
        assert steps[1..] == rest;
      }
  }

  /** Whatever prohibited name there is, at any depth, is reported. */
  lemma {:induction false} BannedIsFound(prohibited: set<string>, v: Json, prefix: string, steps: seq<Step>)
    requires LeadsToBanned(prohibited, v, steps)
    ensures Rendered(prefix, steps) in Find(prohibited, v, prefix)
    decreases |steps|
  {
    var path := Rendered(prefix, steps);
    match v
    case JArr(items) =>
      var i := steps[0].index;
      BannedIsFound(prohibited, items[i], IndexPath(prefix, i), steps[1..]);
      assert ItemHolds(prohibited, items[i], 0 + i, prefix, path);
      ItemsFind(prohibited, items, 0, prefix, path);
    case JObj(fields) =>
      var i :| 0 <= i < |fields| && steps[0] == Named(fields[i].name)
               && (if |steps| == 1 then Banned(prohibited, fields[i].name)
                   else LeadsToBanned(prohibited, fields[i].value, steps[1..]));
      if |steps| == 1 {
        assert Rendered(NamePath(prefix, fields[i].name), []) == NamePath(prefix, fields[i].name);
        assert steps[1..] == [];
      } else {
        BannedIsFound(prohibited, fields[i].value, NamePath(prefix, fields[i].name), steps[1..]);
      }
      assert FieldHolds(prohibited, fields[i], prefix, path);
      FieldsFind(prohibited, fields, prefix, path);
  }

  /** The search returns exactly the paths of the prohibited, unmarked names, at any depth. */
  lemma FindIsExact(prohibited: set<string>, v: Json, path: string)
    ensures path in Find(prohibited, v, "") <==> Located(prohibited, v, "", path)
  {
    if path in Find(prohibited, v, "") {
      var steps := FoundIsBanned(prohibited, v, "", path);
    }
    if Located(prohibited, v, "", path) {
      var steps :| LeadsToBanned(prohibited, v, steps) && Rendered("", steps) == path;
      BannedIsFound(prohibited, v, "", steps);
    }
  }

  // ---------------------------------------------------------------- the contract

  datatype Contract = Contract(
    mandatory: seq<string>, severities: set<string>, events: set<string>, outcomes: set<string>,
    conditional: seq<(string, string)>, notSuccess: set<string>, removalRequires: seq<string>,
    neverSampled: set<string>, neverDropped: set<string>, prohibited: set<string>, timestampShape: string -> bool)

  datatype Violation =
    | MissingField(field: string) | NotCanonical(field: string) | BadTimestamp | MissingInScope(field: string)
    | ProhibitedName(path: string) | LineBreak(field: string) | NestedValue(field: string)
    | FalseSuccess | StateSampledAway | RemovalWithout(field: string) | SeveritySampledAway | EventSampledAway
    | NotJson | EmptyCapture

  predicate Lacks(v: Option<Json>) {
    v.None? || v.value.JNull? || (v.value.JStr? && Trim(v.value.s) == [])
  }

  function MissingOf(names: seq<string>, r: Fields): (vs: seq<Violation>)
    ensures vs == [] <==> forall i :: 0 <= i < |names| ==> !Lacks(Field(r, names[i]))
  {
    if names == [] then []
    else
      var rest := MissingOf(names[1..], r);
      assert forall i :: 1 <= i < |names| ==> names[i] == names[1..][i - 1];
      (if Lacks(Field(r, names[0])) then [MissingField(names[0])] else []) + rest
  }

  function CanonicalOf(r: Fields, name: string, allowed: set<string>): seq<Violation> {
    match Field(r, name)
    case Some(JStr(t)) => if t in allowed then [] else [NotCanonical(name)]
    case _ => []
  }

  function TimestampOf(c: Contract, r: Fields): seq<Violation> {
    match Field(r, "timestamp")
    case Some(JStr(t)) => if c.timestampShape(t) then [] else [BadTimestamp]
    case _ => []
  }

  function InScopeOf(conditional: seq<(string, string)>, r: Fields): seq<Violation> {
    if conditional == [] then []
    else
      var (field, key) := conditional[0];
      (if Field(r, "scope:" + key) == Some(JBool(true)) && (Field(r, field).None? || Field(r, field) == Some(JNull))
       then [MissingInScope(field)] else [])
      + InScopeOf(conditional[1..], r)
  }

  function ProhibitedOf(paths: seq<string>): (vs: seq<Violation>)
    ensures |vs| == |paths| && forall i :: 0 <= i < |paths| ==> vs[i] == ProhibitedName(paths[i])
  {
    if paths == [] then [] else [ProhibitedName(paths[0])] + ProhibitedOf(paths[1..])
  }

  predicate FlatScalars(fields: Fields) {
    forall i :: 0 <= i < |fields| ==> fields[i].value.JStr? || fields[i].value.JNum? || fields[i].value.JNonFinite? || fields[i].value.JBool?
  }

  function ShapeOf(r: Fields): seq<Violation> {
    if r == [] then []
    else
      (if StartsScope(r[0].name) then []
       else
         match r[0].value
         case JStr(t) => if '\r' in t || '\n' in t then [LineBreak(r[0].name)] else []
         case JObj(fs) => if FlatScalars(fs) then [] else [NestedValue(r[0].name)]
         case _ => [])
      + ShapeOf(r[1..])
  }

  function RemovalOf(names: seq<string>, r: Fields): (vs: seq<Violation>)
    ensures vs == [] <==> forall i :: 0 <= i < |names| ==> !Lacks(Field(r, names[i]))
  {
    if names == [] then []
    else
      var rest := RemovalOf(names[1..], r);
      assert forall i :: 1 <= i < |names| ==> names[i] == names[1..][i - 1];
      (if Lacks(Field(r, names[0])) then [RemovalWithout(names[0])] else []) + rest
  }

  predicate SampledAway(r: Fields) { Field(r, "sampleSuppressed") == Some(JBool(true)) }

  function StateTruth(c: Contract, r: Fields): seq<Violation> {
    match Field(r, "truthStateTo")
    case Some(JStr(t)) =>
      (if t in c.notSuccess && Field(r, "outcome") == Some(JStr("SUCCEEDED")) then [FalseSuccess] else [])
      + (if t in c.notSuccess && SampledAway(r) then [StateSampledAway] else [])
      + (if t == "VERIFIED_REMOVED" then RemovalOf(c.removalRequires, r) else [])
    case _ => []
  }

  function SamplingOf(r: Fields, name: string, kept: set<string>, v: Violation): seq<Violation> {
    match Field(r, name)
    case Some(JStr(t)) => if t in kept && SampledAway(r) then [v] else []
    case _ => []
  }

  /** A record may not claim a state the domain did not reach, nor hide one that matters. */
  function Truthfulness(c: Contract, r: Fields): seq<Violation> {
    StateTruth(c, r) + SamplingOf(r, "severity", c.neverSampled, SeveritySampledAway)
    + SamplingOf(r, "event", c.neverDropped, EventSampledAway)
  }

  function Validate(c: Contract, r: Fields): seq<Violation> {
    MissingOf(c.mandatory, r)
    + CanonicalOf(r, "severity", c.severities) + CanonicalOf(r, "event", c.events) + CanonicalOf(r, "outcome", c.outcomes)
    + TimestampOf(c, r) + InScopeOf(c.conditional, r) + ProhibitedOf(Find(c.prohibited, JObj(r), "")) + ShapeOf(r)
    + Truthfulness(c, r)
  }

  // ---------------------------------------------------------------- logging

  function Replaced(r: Fields, name: string, v: Json): (q: Fields)
    ensures |q| == |r|
    ensures forall i :: 0 <= i < |r| ==> q[i] == if r[i].name == name then Member(name, v) else r[i]
  {
    if r == [] then []
    else [if r[0].name == name then Member(name, v) else r[0]] + Replaced(r[1..], name, v)
  }

  predicate Has(r: Fields, name: string) { exists i :: 0 <= i < |r| && r[i].name == name }

  /** Object spread: an existing key keeps its place. */
  function Put(r: Fields, name: string, v: Json): Fields {
    if Has(r, name) then Replaced(r, name, v) else r + [Member(name, v)]
  }

  function PutIf(r: Fields, name: string, v: Option<string>): Fields {
    if v.Some? then Put(r, name, JStr(v.value)) else r
  }

  datatype Scope = Scope(
    correlationId: Option<string>, tenantId: Option<string>, caseId: Option<string>, exposureId: Option<string>,
    actionId: Option<string>)

  datatype Identity = Identity(service: string, candidateEpoch: string, artifactDigest: string)

  const CASE_MARKER := "scope:caseId"
  const EXPOSURE_MARKER := "scope:exposureId"
  const ACTION_MARKER := "scope:actionId"

  predicate IsMarker(name: string) { name == CASE_MARKER || name == EXPOSURE_MARKER || name == ACTION_MARKER }

  function Identified(r: Fields, now: string, who: Identity, correlationId: string, tenantId: string): Fields {
    Put(Put(Put(Put(Put(Put(r, "timestamp", JStr(now)), "service", JStr(who.service)), "correlationId", JStr(correlationId)),
                "tenantId", JStr(tenantId)), "candidateEpoch", JStr(who.candidateEpoch)), "artifactDigest", JStr(who.artifactDigest))
  }

  function Marked(r: Fields, s: Scope): Fields {
    Put(Put(Put(r, CASE_MARKER, JBool(s.caseId.Some?)), EXPOSURE_MARKER, JBool(s.exposureId.Some?)),
        ACTION_MARKER, JBool(s.actionId.Some?))
  }

  function Complete(r: Fields, now: string, who: Identity, s: Scope, correlationId: string, tenantId: string): Fields {
    Marked(PutIf(PutIf(PutIf(Identified(r, now, who, correlationId, tenantId), "caseId", s.caseId), "exposureId", s.exposureId),
                 "actionId", s.actionId), s)
  }

  /** The record without its scope markers. */
  function Unmarked(r: Fields): Fields {
    if r == [] then [] else (if IsMarker(r[0].name) then [] else [r[0]]) + Unmarked(r[1..])
  }

  datatype LogResult = Emitted(record: Fields) | MissingIdentity(field: string) | Violations(violations: seq<Violation>)

  predicate Identifies(v: Option<string>) { v.Some? && Trim(v.value) != [] }

  function LogOf(c: Contract, who: Identity, now: string, s: Scope, r: Fields): LogResult {
    if !Identifies(s.correlationId) then MissingIdentity("correlationId")
    else if !Identifies(s.tenantId) then MissingIdentity("tenantId")
    else
      var complete := Complete(r, now, who, s, s.correlationId.value, s.tenantId.value);
      if Validate(c, complete) != [] then Violations(Validate(c, complete)) else Emitted(Unmarked(complete))
  }

  class Logger {
    const contract: Contract
    const who: Identity
    const encode: Fields -> string
    var records: seq<Fields>
    var output: seq<string>

    constructor (c: Contract, identity: Identity, encoder: Fields -> string)
      ensures contract == c && who == identity && encode == encoder && records == [] && output == []
    {
      contract, who, encode := c, identity, encoder;
      records, output := [], [];
    }

    /** Emits one line for one accepted record, and nothing otherwise. */
    method Log(now: string, s: Scope, r: Fields) returns (result: LogResult)
      modifies this`records, this`output
      ensures result == LogOf(contract, who, now, s, r)
      ensures result.Emitted? ==> records == old(records) + [result.record] && output == old(output) + [encode(result.record)]
      ensures !result.Emitted? ==> records == old(records) && output == old(output)
    {
      if s.correlationId.None? || Trim(s.correlationId.value) == [] { return MissingIdentity("correlationId"); }
      if s.tenantId.None? || Trim(s.tenantId.value) == [] { return MissingIdentity("tenantId"); }
      var complete := Complete(r, now, who, s, s.correlationId.value, s.tenantId.value);
      var violations := Validate(contract, complete);
      if |violations| > 0 { return Violations(violations); }
      var emit := Unmarked(complete);
      records := records + [emit];
      output := output + [encode(emit)];
      result := Emitted(emit);
    }
  }

  // ---------------------------------------------------------------- scanning

  /** What reading a property of a parsed value finds: values that are no objects have none of the named ones. */
  function FieldsOf(v: Json): Fields {
    if v.JObj? then v.fields else []
  }

  function ScanValue(c: Contract, v: Json): seq<Violation> {
    MissingOf(c.mandatory, FieldsOf(v)) + CanonicalOf(FieldsOf(v), "severity", c.severities)
    + CanonicalOf(FieldsOf(v), "event", c.events)
    + ProhibitedOf(Find(c.prohibited, v, "")) + Truthfulness(c, FieldsOf(v))
  }

  function ScanRecord(c: Contract, r: Fields): seq<Violation> { ScanValue(c, JObj(r)) }

  /** The line as parsed, if it is JSON at all. */
  type Decoder = string -> Option<Json>

  /** What is wrong with a line, or nothing at all: reading a property of `null` throws. */
  function ScanLine(c: Contract, decode: Decoder, line: string): Option<seq<Violation>> {
    match decode(line)
    case None => Some([NotJson])
    case Some(JNull) => None
    case Some(v) => Some(ScanValue(c, v))
  }

  function NonBlank(lines: seq<string>): seq<string> {
    if lines == [] then [] else (if Trim(lines[0]) == [] then [] else [lines[0]]) + NonBlank(lines[1..])
  }

  type LineCheck = string -> Option<seq<Violation>>

  function Scanner(c: Contract, decode: Decoder): LineCheck {
    line => ScanLine(c, decode, line)
  }

  /** Violations with the number of their line, unless a line throws. */
  function ScanLines(check: LineCheck, lines: seq<string>, n: nat): Option<seq<(nat, Violation)>>
    requires n <= |lines|
  {
    if n == 0 then Some([])
    else
      match ScanLines(check, lines, n - 1)
      case None => None
      case Some(vs) =>
        match check(lines[n - 1])
        case None => None
        case Some(ws) => Some(vs + Numbered(n, ws))
  }

  function Numbered(n: nat, vs: seq<Violation>): (r: seq<(nat, Violation)>)
    ensures |r| == |vs| && forall i :: 0 <= i < |vs| ==> r[i] == (n, vs[i])
  {
    if vs == [] then [] else [(n, vs[0])] + Numbered(n, vs[1..])
  }

  ghost predicate AllClean(check: LineCheck, lines: seq<string>, n: nat)
    requires n <= |lines|
  {
    forall i :: 0 <= i < n ==> check(lines[i]) == Some([])
  }

  ghost predicate SomeThrows(check: LineCheck, lines: seq<string>, n: nat)
    requires n <= |lines|
  {
    exists i :: 0 <= i < n && check(lines[i]).None?
  }

  /** Nothing is reported exactly when every line is clean, and the scan throws exactly when some line does. */
  lemma {:induction false} ScanLinesClean(check: LineCheck, lines: seq<string>, n: nat)
    requires n <= |lines|
    ensures ScanLines(check, lines, n) == Some([]) <==> AllClean(check, lines, n)
    ensures ScanLines(check, lines, n).None? <==> SomeThrows(check, lines, n)
  {
    if n > 0 {
      ScanLinesClean(check, lines, n - 1);
    }
  }

  lemma {:induction false} ThrowEndsIt(check: LineCheck, lines: seq<string>, n: nat, m: nat)
    requires n <= m <= |lines| && ScanLines(check, lines, n).None?
    ensures ScanLines(check, lines, m).None?
  {
    if n < m {
      ThrowEndsIt(check, lines, n, m - 1);
    }
  }

  method ScanAll(check: LineCheck, lines: seq<string>) returns (r: Option<seq<(nat, Violation)>>)
    ensures r == ScanLines(check, lines, |lines|)
  {
    var vs: seq<(nat, Violation)> := [];
    for i := 0 to |lines|
      invariant Some(vs) == ScanLines(check, lines, i)
    {
      var found := check(lines[i]);
      if found.None? {
        ThrowEndsIt(check, lines, i + 1, |lines|);
        return None;
      }
      vs := vs + Numbered(i + 1, found.value);
    }
    r := Some(vs);
  }

  lemma ThrowsIffNull(c: Contract, decode: Decoder, lines: seq<string>)
    ensures SomeThrows(Scanner(c, decode), lines, |lines|) <==> exists i :: 0 <= i < |lines| && decode(lines[i]) == Some(JNull)
  {
    assert forall i :: 0 <= i < |lines| ==> (Scanner(c, decode)(lines[i]).None? <==> decode(lines[i]) == Some(JNull));
  }

  /** An empty capture is a violation; otherwise a capture is clean exactly when every line is. The scan throws, and
    * reports nothing of what it found, exactly when some line is the JSON text of `null`. */
  method ScanLogStream(c: Contract, decode: Decoder, stream: string) returns (r: Option<seq<(nat, Violation)>>)
    ensures var lines := NonBlank(Split(stream, '\n'));
            && (r == if lines == [] then Some([(0, EmptyCapture)]) else ScanLines(Scanner(c, decode), lines, |lines|))
            && (r == Some([]) <==> lines != [] && AllClean(Scanner(c, decode), lines, |lines|))
            && (r == None <==> exists i :: 0 <= i < |lines| && decode(lines[i]) == Some(JNull))
  {
    var lines := NonBlank(Split(stream, '\n'));
    if |lines| == 0 {
      return Some([(0, EmptyCapture)]);
    }
    r := ScanAll(Scanner(c, decode), lines);
    ScanLinesClean(Scanner(c, decode), lines, |lines|);
    ThrowsIffNull(c, decode, lines);
  }

  /** With a mandatory field, only the text of an object is a clean line. */
  lemma CleanLineIsARecord(c: Contract, decode: Decoder, line: string)
    requires c.mandatory != [] && ScanLine(c, decode, line) == Some([])
    ensures decode(line).Some? && decode(line).value.JObj? && ScanRecord(c, decode(line).value.fields) == []
  {
    var v := decode(line).value;
    assert MissingOf(c.mandatory, FieldsOf(v)) == [];
    assert !Lacks(Field(FieldsOf(v), c.mandatory[0]));
  }

  // ---------------------------------------------------------------- what is emitted scans clean

  lemma {:induction false} FieldOfUnmarked(r: Fields, name: string)
    requires !IsMarker(name)
    ensures Field(Unmarked(r), name) == Field(r, name)
  {
    if r != [] {
      FieldOfUnmarked(r[1..], name);
      var rest := Unmarked(r[1..]);
      if IsMarker(r[0].name) {
        assert [] + rest == rest;
      } else {
        assert ([r[0]] + rest)[1..] == rest;
      }
    }
  }

  /** Every marker is a flag. */
  predicate MarkersAreFlags(r: Fields) { forall i :: 0 <= i < |r| && IsMarker(r[i].name) ==> r[i].value.JBool? }

  lemma MarkerIsScoped(name: string)
    requires IsMarker(name)
    ensures StartsScope(name)
  {
  }

  /** Dropping flags that are marked as scope hides no prohibited name. */
  lemma {:induction false} FindOfUnmarked(prohibited: set<string>, r: Fields, prefix: string)
    requires MarkersAreFlags(r)
    ensures FindFields(prohibited, Unmarked(r), prefix) == FindFields(prohibited, r, prefix)
  {
    if r != [] {
      FindOfUnmarked(prohibited, r[1..], prefix);
      var rest := Unmarked(r[1..]);
      if IsMarker(r[0].name) {
        MarkerIsScoped(r[0].name);
        assert Find(prohibited, r[0].value, NamePath(prefix, r[0].name)) == [];
        assert [] + rest == rest;
      } else {
        assert ([r[0]] + rest)[1..] == rest;
      }
    }
  }

  /** Every field named `name` holds a flag. */
  predicate FlagAt(r: Fields, name: string) { forall i :: 0 <= i < |r| && r[i].name == name ==> r[i].value.JBool? }

  lemma PutFlag(r: Fields, name: string, b: bool, other: string)
    ensures FlagAt(Put(r, name, JBool(b)), name)
    ensures FlagAt(r, other) ==> FlagAt(Put(r, name, JBool(b)), other)
  {
  }

  lemma MarkedHasFlags(r: Fields, s: Scope)
    ensures MarkersAreFlags(Marked(r, s))
  {
    var a := Put(r, CASE_MARKER, JBool(s.caseId.Some?));
    var b := Put(a, EXPOSURE_MARKER, JBool(s.exposureId.Some?));
    PutFlag(r, CASE_MARKER, s.caseId.Some?, CASE_MARKER);
    PutFlag(a, EXPOSURE_MARKER, s.exposureId.Some?, CASE_MARKER);
    PutFlag(b, ACTION_MARKER, s.actionId.Some?, CASE_MARKER);
    PutFlag(b, ACTION_MARKER, s.actionId.Some?, EXPOSURE_MARKER);
  }

  /** No required field is a scope marker. */
  predicate Sensible(c: Contract) {
    && (forall i :: 0 <= i < |c.mandatory| ==> !IsMarker(c.mandatory[i]))
    && (forall i :: 0 <= i < |c.removalRequires| ==> !IsMarker(c.removalRequires[i]))
  }

  lemma {:induction false} MissingOfUnmarked(names: seq<string>, r: Fields)
    requires forall i :: 0 <= i < |names| ==> !IsMarker(names[i])
    ensures MissingOf(names, Unmarked(r)) == MissingOf(names, r) && RemovalOf(names, Unmarked(r)) == RemovalOf(names, r)
  {
    if names != [] {
      FieldOfUnmarked(r, names[0]);
      MissingOfUnmarked(names[1..], r);
    }
  }

  lemma PlainNames()
    ensures !IsMarker("severity") && !IsMarker("event") && !IsMarker("outcome") && !IsMarker("truthStateTo")
            && !IsMarker("sampleSuppressed")
  {
  }

  /** The fields the truthfulness rules read are the same. */
  predicate SameClaims(c: Contract, r: Fields, q: Fields) {
    && Field(q, "truthStateTo") == Field(r, "truthStateTo") && Field(q, "outcome") == Field(r, "outcome")
    && Field(q, "severity") == Field(r, "severity") && Field(q, "event") == Field(r, "event")
    && Field(q, "sampleSuppressed") == Field(r, "sampleSuppressed")
    && RemovalOf(c.removalRequires, q) == RemovalOf(c.removalRequires, r)
  }

  lemma SameClaimsSameTruth(c: Contract, r: Fields, q: Fields)
    requires SameClaims(c, r, q)
    ensures Truthfulness(c, q) == Truthfulness(c, r)
  {
  }

  lemma TruthfulnessOfUnmarked(c: Contract, r: Fields)
    requires Sensible(c)
    ensures Truthfulness(c, Unmarked(r)) == Truthfulness(c, r)
  {
    PlainNames();
    FieldOfUnmarked(r, "severity");
    FieldOfUnmarked(r, "event");
    FieldOfUnmarked(r, "outcome");
    FieldOfUnmarked(r, "truthStateTo");
    FieldOfUnmarked(r, "sampleSuppressed");
    MissingOfUnmarked(c.removalRequires, r);
    SameClaimsSameTruth(c, r, Unmarked(r));
  }

  lemma CanonicalOfUnmarked(r: Fields, name: string, allowed: set<string>)
    requires !IsMarker(name)
    ensures CanonicalOf(Unmarked(r), name, allowed) == CanonicalOf(r, name, allowed)
  {
    FieldOfUnmarked(r, name);
  }

  lemma ScanOfUnmarked(c: Contract, r: Fields)
    requires Sensible(c) && MarkersAreFlags(r)
    ensures ScanRecord(c, Unmarked(r)) == ScanRecord(c, r)
  {
    MissingOfUnmarked(c.mandatory, r);
    assert CanonicalOf(Unmarked(r), "severity", c.severities) == CanonicalOf(r, "severity", c.severities)
        && CanonicalOf(Unmarked(r), "event", c.events) == CanonicalOf(r, "event", c.events) by {
      PlainNames();
      CanonicalOfUnmarked(r, "severity", c.severities);
      CanonicalOfUnmarked(r, "event", c.events);
    }
    FindOfUnmarked(c.prohibited, r, "");
    TruthfulnessOfUnmarked(c, r);
  }

  /** The scanner's rules are among the logger's. */
  lemma ValidScansClean(c: Contract, r: Fields)
    requires Validate(c, r) == []
    ensures ScanRecord(c, r) == []
  {
  }

  /** A record the logger emits breaks none of the scanner's rules, once its markers are gone. */
  lemma EmittedScansClean(c: Contract, who: Identity, now: string, s: Scope, r: Fields)
    requires Sensible(c) && LogOf(c, who, now, s, r).Emitted?
    ensures ScanRecord(c, LogOf(c, who, now, s, r).record) == []
  {
    var complete := Complete(r, now, who, s, s.correlationId.value, s.tenantId.value);
    MarkedHasFlags(PutIf(PutIf(PutIf(Identified(r, now, who, s.correlationId.value, s.tenantId.value),
                                     "caseId", s.caseId), "exposureId", s.exposureId), "actionId", s.actionId), s);
    ValidScansClean(c, complete);
    ScanOfUnmarked(c, complete);
  }

  /** So no emitted record reports success for a state that is not progress, and none claims a verified
    * removal without the fields that link it to its observation. */
  lemma EmittedIsTruthful(c: Contract, who: Identity, now: string, s: Scope, r: Fields, state: string)
    requires Sensible(c) && LogOf(c, who, now, s, r).Emitted?
    requires Field(LogOf(c, who, now, s, r).record, "truthStateTo") == Some(JStr(state))
    ensures var e := LogOf(c, who, now, s, r).record;
            && (state in c.notSuccess ==> Field(e, "outcome") != Some(JStr("SUCCEEDED")) && !SampledAway(e))
            && (state == "VERIFIED_REMOVED" ==>
                forall i :: 0 <= i < |c.removalRequires| ==> !Lacks(Field(e, c.removalRequires[i])))
  {
    EmittedScansClean(c, who, now, s, r);
  }

  // ---------------------------------------------------------------- what printing loses

  /** A value as its JSON text shows it: NaN and the infinities are printed as `null` (ECMA-262, section 25.5.2.2). */
  function Printed(v: Json): Json
    decreases v
  {
    match v
    case JNonFinite => JNull
    case JArr(items) => JArr(PrintedItems(items))
    case JObj(fields) => JObj(PrintedFields(fields))
    case _ => v
  }

  function PrintedItems(items: seq<Json>): (q: seq<Json>)
    ensures |q| == |items|
    decreases items
  {
    if items == [] then [] else [Printed(items[0])] + PrintedItems(items[1..])
  }

  function PrintedFields(r: Fields): (q: Fields)
    ensures |q| == |r|
    decreases r
  {
    if r == [] then [] else [Member(r[0].name, Printed(r[0].value))] + PrintedFields(r[1..])
  }

  lemma {:induction false} FieldOfPrinted(r: Fields, name: string)
    ensures Field(PrintedFields(r), name) ==
            match Field(r, name)
            case None => None
            case Some(v) => Some(Printed(v))
  {
    if r != [] {
      FieldOfPrinted(r[1..], name);
      assert PrintedFields(r)[1..] == PrintedFields(r[1..]);
    }
  }

  /** Printing hides no prohibited name and adds none. */
  lemma {:induction false} FindOfPrinted(prohibited: set<string>, v: Json, prefix: string)
    ensures Find(prohibited, Printed(v), prefix) == Find(prohibited, v, prefix)
    decreases v
  {
    match v
    case JArr(items) => ItemsOfPrinted(prohibited, items, 0, prefix);
    case JObj(fields) => FieldsOfPrinted(prohibited, fields, prefix);
    case _ =>
  }

  lemma {:induction false} ItemsOfPrinted(prohibited: set<string>, items: seq<Json>, from: nat, prefix: string)
    ensures FindItems(prohibited, PrintedItems(items), from, prefix) == FindItems(prohibited, items, from, prefix)
    decreases items
  {
    if items != [] {
      FindOfPrinted(prohibited, items[0], IndexPath(prefix, from));
      ItemsOfPrinted(prohibited, items[1..], from + 1, prefix);
      assert PrintedItems(items)[1..] == PrintedItems(items[1..]);
    }
  }

  lemma {:induction false} FieldsOfPrinted(prohibited: set<string>, fields: Fields, prefix: string)
    ensures FindFields(prohibited, PrintedFields(fields), prefix) == FindFields(prohibited, fields, prefix)
    decreases fields
  {
    if fields != [] {
      FindOfPrinted(prohibited, fields[0].value, NamePath(prefix, fields[0].name));
      FieldsOfPrinted(prohibited, fields[1..], prefix);
      assert PrintedFields(fields)[1..] == PrintedFields(fields[1..]);
    }
  }

  /** None of the named fields holds a number that is not finite. */
  predicate AllExpressible(names: seq<string>, r: Fields) {
    forall i :: 0 <= i < |names| ==> Field(r, names[i]) != Some(JNonFinite)
  }

  /** The fields the scanner insists on survive printing. */
  predicate Expressible(c: Contract, r: Fields) {
    && AllExpressible(c.mandatory, r)
    && (Field(r, "truthStateTo") == Some(JStr("VERIFIED_REMOVED")) ==> AllExpressible(c.removalRequires, r))
  }

  lemma LacksPrinted(r: Fields, name: string)
    ensures Lacks(Field(PrintedFields(r), name)) <==> Lacks(Field(r, name)) || Field(r, name) == Some(JNonFinite)
  {
    FieldOfPrinted(r, name);
  }

  lemma RequiredPrinted(names: seq<string>, r: Fields)
    ensures MissingOf(names, PrintedFields(r)) == [] <==> MissingOf(names, r) == [] && AllExpressible(names, r)
    ensures RemovalOf(names, PrintedFields(r)) == [] <==> RemovalOf(names, r) == [] && AllExpressible(names, r)
  {
    forall i | 0 <= i < |names|
      ensures Lacks(Field(PrintedFields(r), names[i])) <==>
              Lacks(Field(r, names[i])) || Field(r, names[i]) == Some(JNonFinite)
    {
      LacksPrinted(r, names[i]);
    }
  }

  lemma CanonicalPrinted(r: Fields, name: string, allowed: set<string>)
    ensures CanonicalOf(PrintedFields(r), name, allowed) == CanonicalOf(r, name, allowed)
  {
    FieldOfPrinted(r, name);
  }

  lemma TextPrinted(r: Fields, name: string)
    ensures forall v: Json :: (v.JStr? || v.JBool?) ==> (Field(PrintedFields(r), name) == Some(v) <==> Field(r, name) == Some(v))
  {
    FieldOfPrinted(r, name);
  }

  /** Printing changes the truthfulness rules only through the fields that link a removal to its observation. */
  lemma TruthfulnessPrinted(c: Contract, r: Fields)
    requires Truthfulness(c, r) == []
    ensures Truthfulness(c, PrintedFields(r)) == [] <==>
            (Field(r, "truthStateTo") == Some(JStr("VERIFIED_REMOVED")) ==> AllExpressible(c.removalRequires, r))
  {
    FieldOfPrinted(r, "truthStateTo");
    FieldOfPrinted(r, "severity");
    FieldOfPrinted(r, "event");
    TextPrinted(r, "outcome");
    TextPrinted(r, "sampleSuppressed");
    RequiredPrinted(c.removalRequires, r);
  }

  /** A record that passes the scanner's rules passes them as printed exactly when the required fields are
    * expressible. */
  lemma ScanOfPrinted(c: Contract, r: Fields)
    requires ScanRecord(c, r) == []
    ensures ScanRecord(c, PrintedFields(r)) == [] <==> Expressible(c, r)
  {
    RequiredPrinted(c.mandatory, r);
    CanonicalPrinted(r, "severity", c.severities);
    CanonicalPrinted(r, "event", c.events);
    FieldsOfPrinted(c.prohibited, r, "");
    TruthfulnessPrinted(c, r);
  }

  lemma {:induction false} FieldOfReplaced(r: Fields, name: string, v: Json, other: string)
    ensures Field(Replaced(r, name, v), other) == if other == name && Field(r, name).Some? then Some(v) else Field(r, other)
  {
    if r != [] {
      FieldOfReplaced(r[1..], name, v, other);
      assert Replaced(r, name, v)[1..] == Replaced(r[1..], name, v);
    }
  }

  /** Every field of this name is a finite number. */
  predicate NumberAt(r: Fields, name: string) { forall i :: 0 <= i < |r| && r[i].name == name ==> r[i].value.JNum? }

  lemma {:induction false} FieldIsNumber(r: Fields, name: string)
    requires NumberAt(r, name)
    ensures Field(r, name).Some? ==> Field(r, name).value.JNum?
  {
    if r != [] && r[0].name != name {
      assert forall i :: 0 <= i < |r[1..]| ==> r[1..][i] == r[i + 1];
      FieldIsNumber(r[1..], name);
    }
  }

  lemma {:induction false} BlindNames(names: seq<string>, r: Fields, name: string)
    requires NumberAt(r, name)
    ensures MissingOf(names, Replaced(r, name, JNonFinite)) == MissingOf(names, r)
    ensures RemovalOf(names, Replaced(r, name, JNonFinite)) == RemovalOf(names, r)
  {
    if names != [] {
      FieldIsNumber(r, name);
      FieldOfReplaced(r, name, JNonFinite, names[0]);
      BlindNames(names[1..], r, name);
    }
  }

  lemma {:induction false} BlindScope(conditional: seq<(string, string)>, r: Fields, name: string)
    requires NumberAt(r, name)
    ensures InScopeOf(conditional, Replaced(r, name, JNonFinite)) == InScopeOf(conditional, r)
  {
    if conditional != [] {
      FieldIsNumber(r, name);
      FieldOfReplaced(r, name, JNonFinite, conditional[0].0);
      FieldOfReplaced(r, name, JNonFinite, "scope:" + conditional[0].1);
      BlindScope(conditional[1..], r, name);
    }
  }

  lemma {:induction false} BlindShape(r: Fields, name: string)
    requires NumberAt(r, name)
    ensures ShapeOf(Replaced(r, name, JNonFinite)) == ShapeOf(r)
  {
    if r != [] {
      assert forall i :: 0 <= i < |r[1..]| ==> r[1..][i] == r[i + 1];
      BlindShape(r[1..], name);
      assert Replaced(r, name, JNonFinite)[1..] == Replaced(r[1..], name, JNonFinite);
    }
  }

  lemma {:induction false} BlindFind(prohibited: set<string>, r: Fields, name: string, prefix: string)
    requires NumberAt(r, name)
    ensures FindFields(prohibited, Replaced(r, name, JNonFinite), prefix) == FindFields(prohibited, r, prefix)
    decreases |r|
  {
    if r != [] {
      assert forall i :: 0 <= i < |r[1..]| ==> r[1..][i] == r[i + 1];
      BlindFind(prohibited, r[1..], name, prefix);
      assert Replaced(r, name, JNonFinite)[1..] == Replaced(r[1..], name, JNonFinite);
    }
  }

  lemma BlindText(r: Fields, name: string, other: string)
    requires NumberAt(r, name)
    ensures forall v: Json :: (v.JStr? || v.JBool?) ==>
              (Field(Replaced(r, name, JNonFinite), other) == Some(v) <==> Field(r, other) == Some(v))
  {
    FieldIsNumber(r, name);
    FieldOfReplaced(r, name, JNonFinite, other);
  }

  lemma BlindCanonical(r: Fields, name: string, other: string, allowed: set<string>)
    requires NumberAt(r, name)
    ensures CanonicalOf(Replaced(r, name, JNonFinite), other, allowed) == CanonicalOf(r, other, allowed)
  {
    FieldIsNumber(r, name);
    FieldOfReplaced(r, name, JNonFinite, other);
  }

  lemma BlindTimestamp(c: Contract, r: Fields, name: string)
    requires NumberAt(r, name)
    ensures TimestampOf(c, Replaced(r, name, JNonFinite)) == TimestampOf(c, r)
  {
    FieldIsNumber(r, name);
    FieldOfReplaced(r, name, JNonFinite, "timestamp");
  }

  lemma BlindTruthfulness(c: Contract, r: Fields, name: string)
    requires NumberAt(r, name)
    ensures Truthfulness(c, Replaced(r, name, JNonFinite)) == Truthfulness(c, r)
  {
    FieldIsNumber(r, name);
    FieldOfReplaced(r, name, JNonFinite, "truthStateTo");
    FieldOfReplaced(r, name, JNonFinite, "severity");
    FieldOfReplaced(r, name, JNonFinite, "event");
    BlindText(r, name, "outcome");
    BlindText(r, name, "sampleSuppressed");
    BlindNames(c.removalRequires, r, name);
  }

  /** The logger cannot tell such a number from a finite one: whatever field it replaces, the verdict is the same. */
  lemma ValidateIsBlind(c: Contract, r: Fields, name: string)
    requires NumberAt(r, name)
    ensures Validate(c, Replaced(r, name, JNonFinite)) == Validate(c, r)
  {
    BlindNames(c.mandatory, r, name);
    BlindCanonical(r, name, "severity", c.severities);
    BlindCanonical(r, name, "event", c.events);
    BlindCanonical(r, name, "outcome", c.outcomes);
    BlindTimestamp(c, r, name);
    BlindScope(c.conditional, r, name);
    BlindFind(c.prohibited, r, name, "");
    BlindShape(r, name);
    BlindTruthfulness(c, r, name);
  }

  // ---------------------------------------------------------------- the logged stream

  /** What the stream law needs of JSON text: a record's line reads back as printed, has no line break and is not
    * blank. */
  ghost predicate Lawful(encode: Fields -> string, decode: Decoder, r: Fields) {
    decode(encode(r)) == Some(JObj(PrintedFields(r))) && '\n' !in encode(r) && Trim(encode(r)) != []
  }

  function Lines(encode: Fields -> string, records: seq<Fields>): (r: seq<string>)
    ensures |r| == |records| && forall i :: 0 <= i < |records| ==> r[i] == encode(records[i])
  {
    if records == [] then [] else [encode(records[0])] + Lines(encode, records[1..])
  }

  /** The text written for a sequence of records: each line ends in a newline. */
  function Stream(encode: Fields -> string, records: seq<Fields>): string {
    Join(Lines(encode, records) + [""], '\n')
  }

  lemma {:induction false} NonBlankKeeps(lines: seq<string>)
    requires forall i :: 0 <= i < |lines| ==> Trim(lines[i]) != []
    ensures NonBlank(lines + [""]) == lines
  {
    if lines == [] {
      assert lines + [""] == [""];
      assert [""][1..] == [];
      assert NonBlank([""]) == [];
    } else {
      assert (lines + [""])[1..] == lines[1..] + [""];
      NonBlankKeeps(lines[1..]);
      assert [lines[0]] + lines[1..] == lines;
    }
  }

  lemma StreamLines(encode: Fields -> string, decode: Decoder, records: seq<Fields>)
    requires forall i :: 0 <= i < |records| ==> Lawful(encode, decode, records[i])
    ensures NonBlank(Split(Stream(encode, records), '\n')) == Lines(encode, records)
  {
    var lines := Lines(encode, records);
    forall i | 0 <= i < |lines|
      ensures '\n' !in lines[i] && Trim(lines[i]) != []
    {
      assert Lawful(encode, decode, records[i]);
    }
    SplitOfJoin(lines + [""], '\n');
    NonBlankKeeps(lines);
  }

  /** The line does not throw, and is clean exactly when its record is expressible. */
  ghost predicate LineFits(check: LineCheck, line: string, c: Contract, r: Fields) {
    check(line).Some? && (check(line) == Some([]) <==> Expressible(c, r))
  }

  /** The line of a record that passes the rules is clean exactly when the record is expressible. */
  lemma LineIsClean(c: Contract, encode: Fields -> string, decode: Decoder, r: Fields)
    requires Lawful(encode, decode, r) && ScanRecord(c, r) == []
    ensures LineFits(Scanner(c, decode), encode(r), c, r)
  {
    ScanOfPrinted(c, r);
  }

  ghost predicate AllFit(c: Contract, encode: Fields -> string, decode: Decoder, records: seq<Fields>) {
    forall i :: 0 <= i < |records| ==> Lawful(encode, decode, records[i]) && ScanRecord(c, records[i]) == []
  }

  ghost predicate EachExpressible(c: Contract, records: seq<Fields>) {
    forall i :: 0 <= i < |records| ==> Expressible(c, records[i])
  }

  lemma LinesFit(c: Contract, encode: Fields -> string, decode: Decoder, records: seq<Fields>, i: nat)
    requires AllFit(c, encode, decode, records) && i < |records|
    ensures LineFits(Scanner(c, decode), Lines(encode, records)[i], c, records[i])
  {
    LineIsClean(c, encode, decode, records[i]);
  }

  lemma FittingLines(check: LineCheck, lines: seq<string>, c: Contract, records: seq<Fields>)
    requires |lines| == |records| && forall i :: 0 <= i < |lines| ==> LineFits(check, lines[i], c, records[i])
    ensures AllClean(check, lines, |lines|) <==> EachExpressible(c, records)
    ensures !SomeThrows(check, lines, |lines|)
  {
    if AllClean(check, lines, |lines|) {
      forall i | 0 <= i < |records|
        ensures Expressible(c, records[i])
      {
        assert LineFits(check, lines[i], c, records[i]);
      }
    }
  }

  /** A stream of records that pass the rules, as emitted records do, is reported clean exactly when it is not empty
    * and every record is expressible; scanning it never throws. */
  lemma StreamScansClean(c: Contract, encode: Fields -> string, decode: Decoder, records: seq<Fields>)
    requires AllFit(c, encode, decode, records)
    ensures var lines := NonBlank(Split(Stream(encode, records), '\n'));
            && (lines != [] && AllClean(Scanner(c, decode), lines, |lines|) <==> records != [] && EachExpressible(c, records))
            && !SomeThrows(Scanner(c, decode), lines, |lines|)
  {
    StreamLines(encode, decode, records);
    var check, lines := Scanner(c, decode), Lines(encode, records);
    forall i | 0 <= i < |records|
      ensures LineFits(check, lines[i], c, records[i])
    {
      LinesFit(c, encode, decode, records, i);
    }
    FittingLines(check, lines, c, records);
  }

  datatype LogCall = LogCall(now: string, scope: Scope, record: Fields)

  function RecordOf(l: LogResult): seq<Fields> {
    match l
    case Emitted(r) => [r]
    case _ => []
  }

  /** The records a logger emits over a sequence of calls; refused calls emit nothing. */
  function EmittedBy(c: Contract, who: Identity, calls: seq<LogCall>): seq<Fields> {
    if calls == [] then []
    else RecordOf(LogOf(c, who, calls[0].now, calls[0].scope, calls[0].record)) + EmittedBy(c, who, calls[1..])
  }

  ghost predicate ScansClean(c: Contract, rs: seq<Fields>) {
    forall i :: 0 <= i < |rs| ==> ScanRecord(c, rs[i]) == []
  }

  lemma ResultScansClean(c: Contract, who: Identity, call: LogCall)
    requires Sensible(c)
    ensures ScansClean(c, RecordOf(LogOf(c, who, call.now, call.scope, call.record)))
  {
    if LogOf(c, who, call.now, call.scope, call.record).Emitted? {
      EmittedScansClean(c, who, call.now, call.scope, call.record);
    }
  }

  lemma ScansCleanConcat(c: Contract, a: seq<Fields>, b: seq<Fields>)
    requires ScansClean(c, a) && ScansClean(c, b)
    ensures ScansClean(c, a + b)
  {
  }

  lemma {:induction false} AllEmittedScanClean(c: Contract, who: Identity, calls: seq<LogCall>)
    requires Sensible(c)
    ensures ScansClean(c, EmittedBy(c, who, calls))
  {
    if calls != [] {
      AllEmittedScanClean(c, who, calls[1..]);
      ResultScansClean(c, who, calls[0]);
      ScansCleanConcat(c, RecordOf(LogOf(c, who, calls[0].now, calls[0].scope, calls[0].record)),
                       EmittedBy(c, who, calls[1..]));
    }
  }

  /** Whatever is asked of the logger, the stream it leaves is reported clean exactly when it is not empty and no
    * emitted record has a number that is not finite in a field it is required to carry; and the scan never throws. */
  lemma LoggedStreamScansClean(
    c: Contract, who: Identity, encode: Fields -> string, decode: Decoder, calls: seq<LogCall>)
    requires Sensible(c)
    requires forall i :: 0 <= i < |EmittedBy(c, who, calls)| ==> Lawful(encode, decode, EmittedBy(c, who, calls)[i])
    ensures var records := EmittedBy(c, who, calls);
            var lines := NonBlank(Split(Stream(encode, records), '\n'));
            && (lines != [] && AllClean(Scanner(c, decode), lines, |lines|) <==> records != [] && EachExpressible(c, records))
            && !SomeThrows(Scanner(c, decode), lines, |lines|)
  {
    AllEmittedScanClean(c, who, calls);
    StreamScansClean(c, encode, decode, EmittedBy(c, who, calls));
  }
}
