/** The scrub stage in front of every telemetry sink.
  *
  * Regular expressions, the encoded forms of a value and the truncated-address shape are any functions.
  */
module EgressGate {
  import opened Wrappers
  import opened Text

  // ---------------------------------------------------------------- policy

  datatype Regex = Regex(test: string -> bool, replace: (string, string) -> string)

  datatype Enforcement = ValuePattern | OtherEnforcement

  datatype Rule = Rule(ruleClass: string, enforcement: Enforcement, enabled: bool, regex: Option<Regex>)

  datatype Disposition = Allow | Deny

  /** `classification`: the disposition of a field name, if the allowlist classifies it. */
  datatype Policy = Policy(
    rules: seq<Rule>, disabled: set<string>, prohibited: set<string>, classification: string -> Option<Disposition>,
    encodedForms: string -> seq<string>, truncatedShape: string -> bool)

  /** The enabled rules that are not switched off. */
  function Compiled(rules: seq<Rule>, disabled: set<string>): seq<Rule> {
    if rules == [] then []
    else
      var r := rules[|rules| - 1];
      Compiled(rules[..|rules| - 1], disabled) + if r.enabled && r.ruleClass !in disabled then [r] else []
  }

  predicate Matches(r: Rule, v: string) {
    r.enforcement.ValuePattern? && r.regex.Some? && r.regex.value.test(v)
  }

  /** No compiled value rule matches. */
  predicate Clean(rules: seq<Rule>, v: string) { forall i :: 0 <= i < |rules| ==> !Matches(rules[i], v) }

  /** The first rule that matches. */
  function FirstMatch(rules: seq<Rule>, v: string): (r: Option<string>)
    ensures r.None? <==> Clean(rules, v)
  {
    if rules == [] then None
    else if Matches(rules[0], v) then Some(rules[0].ruleClass)
    else
      var rest := FirstMatch(rules[1..], v);
      assert Clean(rules, v) <==> Clean(rules[1..], v) by {
        assert forall i :: 0 <= i < |rules[1..]| ==> rules[1..][i] == rules[i + 1];
        assert forall i :: 1 <= i < |rules| ==> rules[i] == rules[1..][i - 1];
      }
      rest
  }

  function RuleNamed(rules: seq<Rule>, name: string): Option<nat> {
    if rules == [] then None
    else if rules[0].ruleClass == name then Some(0)
    else
      match RuleNamed(rules[1..], name)
      case Some(i) => Some(i + 1)
      case None => None
  }

  /** A truncated address is refused, unless it is complete or the address class is not applied. */
  predicate Truncated(p: Policy, rules: seq<Rule>, v: string) {
    var t := Trim(v);
    && p.truncatedShape(t)
    && match RuleNamed(rules, "EMAIL_ADDRESS")
       case None => false
       case Some(i) => i < |rules| && rules[i].regex.Some? && !rules[i].regex.value.test(t)
  }

  /** A value carried through the rules in order: the text, the last class that matched, and how many did. */
  datatype Redaction = Redaction(value: string, last: Option<string>, count: nat)

  function RedactOne(r: Rule, d: Redaction): Redaction {
    if Matches(r, d.value)
    then Redaction(r.regex.value.replace(d.value, "[REDACTED:" + r.ruleClass + "]"), Some(r.ruleClass), d.count + 1)
    else d
  }

  function RedactUpTo(rules: seq<Rule>, n: nat, d: Redaction): Redaction
    requires n <= |rules|
  {
    if n == 0 then d else RedactOne(rules[n - 1], RedactUpTo(rules, n - 1, d))
  }

  // ---------------------------------------------------------------- results

  datatype Sink = OtlpTraceExporter | LogForwarder | ErrorReporter | PrIssueExporter | DebugBundle

  datatype OutcomeKind = AllowedOpaque | Redacted | Denied | Failed

  datatype ReasonCode =
    | NotAllowlisted | ProhibitedClass | ProhibitedFieldName | PolicyAbsent | ScrubFailed | CanaryDetected

  datatype Refusal = Refusal(outcome: OutcomeKind, reason: ReasonCode, path: Option<string>, ruleClass: Option<string>)

  datatype Raw = RawText(text: string) | RawOther

  datatype Input = Input(fields: seq<(string, Raw)>, resource: seq<(string, string)>)

  datatype Payload = Payload(
    fields: seq<(string, string)>, resource: seq<(string, string)>, last: Option<string>, count: nat)

  datatype Result = Accepted(outcome: OutcomeKind, payload: Payload) | Refused(refusal: Refusal)

  /** The first resource value that matches. */
  function ResourceRefusal(rules: seq<Rule>, resource: seq<(string, string)>, n: nat): Option<Refusal>
    requires n <= |resource|
  {
    if n == 0 then None
    else
      match ResourceRefusal(rules, resource, n - 1)
      case Some(r) => Some(r)
      case None =>
        match FirstMatch(rules, resource[n - 1].1)
        case Some(c) => Some(Refusal(Denied, ProhibitedClass, Some(resource[n - 1].0), Some(c)))
        case None => None
  }

  function EncodedMatch(rules: seq<Rule>, forms: seq<string>): (r: Option<string>)
    ensures r.None? <==> forall i :: 0 <= i < |forms| ==> Clean(rules, forms[i])
  {
    if forms == [] then None
    else
      match FirstMatch(rules, forms[0])
      case Some(c) => Some(c)
      case None =>
        var rest := EncodedMatch(rules, forms[1..]);
        assert forall i :: 1 <= i < |forms| ==> forms[i] == forms[1..][i - 1];
        rest
  }

  /** What is wrong with a field before its value is rewritten. */
  function FieldRefusal(p: Policy, rules: seq<Rule>, name: string, raw: Raw): Option<Refusal> {
    if name in p.prohibited then Some(Refusal(Denied, ProhibitedFieldName, Some(name), None))
    else if p.classification(name).None? then Some(Refusal(Denied, NotAllowlisted, Some(name), None))
    else if p.classification(name) != Some(Allow) then Some(Refusal(Denied, ProhibitedClass, Some(name), None))
    else if raw.RawOther? then Some(Refusal(Failed, ScrubFailed, Some(name), None))
    else if Truncated(p, rules, raw.text) then Some(Refusal(Denied, CanaryDetected, Some(name), Some("EMAIL_ADDRESS")))
    else
      match EncodedMatch(rules, p.encodedForms(raw.text))
      case Some(c) => Some(Refusal(Denied, CanaryDetected, Some(name), Some(c)))
      case None => None
  }

  datatype Progress = Going(fields: seq<(string, string)>, last: Option<string>, count: nat) | Stopped(refusal: Refusal)

  function FieldStep(p: Policy, rules: seq<Rule>, field: (string, Raw), g: Progress): Progress
    requires g.Going?
  {
    match FieldRefusal(p, rules, field.0, field.1)
    case Some(r) => Stopped(r)
    case None =>
      if field.1.RawOther? then Stopped(Refusal(Failed, ScrubFailed, Some(field.0), None))
      else
        var d := RedactUpTo(rules, |rules|, Redaction(field.1.text, g.last, g.count));
        match FirstMatch(rules, d.value)
        case Some(c) => Stopped(Refusal(Failed, ScrubFailed, Some(field.0), Some(c)))
        case None => Going(g.fields + [(field.0, d.value)], d.last, d.count)
  }

  function FieldsUpTo(p: Policy, rules: seq<Rule>, fields: seq<(string, Raw)>, n: nat): Progress
    requires n <= |fields|
  {
    if n == 0 then Going([], None, 0)
    else
      match FieldsUpTo(p, rules, fields, n - 1)
      case Stopped(r) => Stopped(r)
      case Going(fs, last, count) => FieldStep(p, rules, fields[n - 1], Going(fs, last, count))
  }

  function Scrubbed(p: Policy, input: Input): Result {
    var rules := Compiled(p.rules, p.disabled);
    if |p.rules| == 0 then Refused(Refusal(Failed, PolicyAbsent, None, None))
    else
      match ResourceRefusal(rules, input.resource, |input.resource|)
      case Some(r) => Refused(r)
      case None =>
        match FieldsUpTo(p, rules, input.fields, |input.fields|)
        case Stopped(r) => Refused(r)
        case Going(fs, last, count) =>
          Accepted(if count > 0 then Redacted else AllowedOpaque, Payload(fs, input.resource, last, count))
  }

  // ---------------------------------------------------------------- what acceptance means

  lemma {:induction false} RedactGrows(rules: seq<Rule>, n: nat, d: Redaction)
    requires n <= |rules|
    ensures RedactUpTo(rules, n, d).count >= d.count
    ensures RedactUpTo(rules, n, d).count == d.count <==> Clean(rules[..n], d.value)
    ensures RedactUpTo(rules, n, d).count == d.count ==> RedactUpTo(rules, n, d) == d
  {
    if n > 0 {
      RedactGrows(rules, n - 1, d);
      assert rules[..n] == rules[..n - 1] + [rules[n - 1]];
      assert rules[..n][n - 1] == rules[n - 1];
      assert forall i :: 0 <= i < n - 1 ==> rules[..n][i] == rules[..n - 1][i];
    }
  }

  /** A field name that may leave: classified as allowed, and not prohibited. */
  predicate NameAllowed(p: Policy, name: string) { p.classification(name) == Some(Allow) && name !in p.prohibited }

  /** A field as received and as sent: the same name, allowed, and no compiled rule matches what is sent. */
  predicate SentClean(p: Policy, rules: seq<Rule>, received: (string, Raw), sent: (string, string)) {
    received.1.RawText? && sent.0 == received.0 && NameAllowed(p, sent.0) && Clean(rules, sent.1)
  }

  /** No compiled rule matched any of the first `n` values as received. */
  ghost predicate ReceivedClean(rules: seq<Rule>, fields: seq<(string, Raw)>, n: nat)
    requires n <= |fields|
  {
    forall i :: 0 <= i < n ==> fields[i].1.RawText? && Clean(rules, fields[i].1.text)
  }

  ghost predicate GoingFits(p: Policy, rules: seq<Rule>, fields: seq<(string, Raw)>, n: nat, g: Progress)
    requires n <= |fields| && g.Going?
  {
    && |g.fields| == n
    && (forall i :: 0 <= i < n ==> SentClean(p, rules, fields[i], g.fields[i]))
    && (g.count == 0 <==> ReceivedClean(rules, fields, n))
    && (g.count == 0 ==> forall i :: 0 <= i < n ==> fields[i].1.RawText? && g.fields[i].1 == fields[i].1.text)
    && (g.count == 0 ==> g.last.None?) && (g.count > 0 ==> g.last.Some?)
  }

  lemma {:induction false} RedactLast(rules: seq<Rule>, n: nat, d: Redaction)
    requires n <= |rules| && (d.count == 0 <==> d.last.None?)
    ensures var r := RedactUpTo(rules, n, d); r.count == 0 <==> r.last.None?
  {
    if n > 0 {
      RedactLast(rules, n - 1, d);
    }
  }

  /** `h` extends `g` by one field: sent clean, and counted exactly if something in it matched. */
  ghost predicate Extends(p: Policy, rules: seq<Rule>, field: (string, Raw), g: Progress, h: Progress)
    requires g.Going? && h.Going?
  {
    && |h.fields| == |g.fields| + 1 && h.fields[..|g.fields|] == g.fields
    && SentClean(p, rules, field, h.fields[|g.fields|])
    && (h.count == 0 <==> g.count == 0 && Clean(rules, field.1.text))
    && (h.count == 0 ==> h.fields[|g.fields|].1 == field.1.text)
    && (h.count == 0 <==> h.last.None?)
  }

  lemma StepFits(p: Policy, rules: seq<Rule>, field: (string, Raw), g: Progress)
    requires g.Going? && FieldStep(p, rules, field, g).Going? && (g.count == 0 <==> g.last.None?)
    ensures Extends(p, rules, field, g, FieldStep(p, rules, field, g))
  {
    var d := Redaction(field.1.text, g.last, g.count);
    RedactGrows(rules, |rules|, d);
    RedactLast(rules, |rules|, d);
    assert rules[..|rules|] == rules;
  }

  lemma ExtendFits(p: Policy, rules: seq<Rule>, fields: seq<(string, Raw)>, n: nat, g: Progress, h: Progress)
    requires n < |fields| && g.Going? && h.Going? && GoingFits(p, rules, fields, n, g)
    requires Extends(p, rules, fields[n], g, h)
    ensures GoingFits(p, rules, fields, n + 1, h)
  {
    assert forall i :: 0 <= i < n ==> h.fields[i] == h.fields[..n][i];
  }

  lemma {:induction false} FieldsFit(p: Policy, rules: seq<Rule>, fields: seq<(string, Raw)>, n: nat)
    requires n <= |fields| && FieldsUpTo(p, rules, fields, n).Going?
    ensures GoingFits(p, rules, fields, n, FieldsUpTo(p, rules, fields, n))
  {
    if n > 0 {
      FieldsFit(p, rules, fields, n - 1);
      var g := FieldsUpTo(p, rules, fields, n - 1);
      StepFits(p, rules, fields[n - 1], g);
      ExtendFits(p, rules, fields, n - 1, g, FieldStep(p, rules, fields[n - 1], g));
    }
  }

  lemma {:induction false} ResourceFits(rules: seq<Rule>, resource: seq<(string, string)>, n: nat)
    requires n <= |resource|
    ensures ResourceRefusal(rules, resource, n).None? <==> forall i :: 0 <= i < n ==> Clean(rules, resource[i].1)
  {
    if n > 0 {
      ResourceFits(rules, resource, n - 1);
    }
  }

  /** Whatever the patterns: an accepted payload has the input's field names, each allowed and none prohibited;
    * no compiled value rule matches any field or resource value in it; resource attributes are never
    * rewritten; and it is opaque, that is unchanged, exactly when nothing received matched. */
  lemma AcceptedIsClean(p: Policy, input: Input)
    requires Scrubbed(p, input).Accepted?
    ensures var a := Scrubbed(p, input);
            var rules := Compiled(p.rules, p.disabled);
            && |a.payload.fields| == |input.fields| && a.payload.resource == input.resource
            && (forall i :: 0 <= i < |input.fields| ==> SentClean(p, rules, input.fields[i], a.payload.fields[i]))
            && (forall i :: 0 <= i < |input.resource| ==> Clean(rules, a.payload.resource[i].1))
            && (a.outcome == AllowedOpaque || a.outcome == Redacted)
            && (a.outcome == AllowedOpaque <==> ReceivedClean(rules, input.fields, |input.fields|))
            && (a.outcome == AllowedOpaque ==>
                forall i :: 0 <= i < |input.fields| ==> input.fields[i].1 == RawText(a.payload.fields[i].1))
            && (a.outcome == Redacted <==> a.payload.last.Some?)
  {
    var rules := Compiled(p.rules, p.disabled);
    FieldsFit(p, rules, input.fields, |input.fields|);
    ResourceFits(rules, input.resource, |input.resource|);
  }

  lemma {:induction false} ResourceReason(rules: seq<Rule>, resource: seq<(string, string)>, n: nat)
    requires n <= |resource|
    ensures ResourceRefusal(rules, resource, n).Some? ==> ResourceRefusal(rules, resource, n).value.reason == ProhibitedClass
  {
    if n > 0 {
      ResourceReason(rules, resource, n - 1);
    }
  }

  lemma {:induction false} FieldsReason(p: Policy, rules: seq<Rule>, fields: seq<(string, Raw)>, n: nat)
    requires n <= |fields|
    ensures FieldsUpTo(p, rules, fields, n).Stopped? ==> FieldsUpTo(p, rules, fields, n).refusal.reason != PolicyAbsent
  {
    if n > 0 {
      FieldsReason(p, rules, fields, n - 1);
    }
  }

  /** Whatever it is given, a gate blames the policy exactly when the policy has no rules. */
  lemma PolicyAbsentIff(p: Policy, input: Input)
    ensures Scrubbed(p, input).Refused? && Scrubbed(p, input).refusal.reason == PolicyAbsent <==> p.rules == []
  {
    var rules := Compiled(p.rules, p.disabled);
    ResourceReason(rules, input.resource, |input.resource|);
    FieldsReason(p, rules, input.fields, |input.fields|);
  }

  // ---------------------------------------------------------------- counters

  datatype Counter = OutcomeCounter(kind: OutcomeKind) | DeniedCounter(reason: ReasonCode) | CanaryCounter(sink: Sink)

  type Counters = map<Counter, nat>

  function Get(c: Counters, k: Counter): nat { if k in c then c[k] else 0 }

  function Bump(c: Counters, k: Counter): Counters { c[k := Get(c, k) + 1] }

  function CountRefusal(c: Counters, sink: Sink, r: Refusal): Counters {
    var d := Bump(Bump(c, OutcomeCounter(r.outcome)), DeniedCounter(r.reason));
    if r.reason == CanaryDetected then Bump(d, CanaryCounter(sink)) else d
  }

  datatype GateState = GateState(counters: Counters, refusals: seq<Refusal>)

  function Record(s: GateState, sink: Sink, r: Result): GateState {
    match r
    case Accepted(outcome, _) => s.(counters := Bump(s.counters, OutcomeCounter(outcome)))
    case Refused(f) => GateState(CountRefusal(s.counters, sink, f), s.refusals + [f])
  }

  class Gate {
    const policy: Policy
    const rules: seq<Rule>
    var counters: Counters
    var refusals: seq<Refusal>

    constructor (p: Policy)
      ensures policy == p && rules == Compiled(p.rules, p.disabled) && State() == GateState(map[], [])
    {
      policy := p;
      rules := Compiled(p.rules, p.disabled);
      counters := map[];
      refusals := [];
    }

    function State(): GateState
      reads this
    {
      GateState(counters, refusals)
    }

    ghost predicate Valid() { rules == Compiled(policy.rules, policy.disabled) }

    method Refuse(sink: Sink, f: Refusal) returns (r: Result)
      modifies this
      ensures r == Refused(f) && State() == Record(old(State()), sink, r)
    {
      counters := Bump(counters, OutcomeCounter(f.outcome));
      counters := Bump(counters, DeniedCounter(f.reason));
      if f.reason == CanaryDetected {
        counters := Bump(counters, CanaryCounter(sink));
      }
      refusals := refusals + [f];
      r := Refused(f);
    }

    /** Every rule in turn, then every rule again on what is left. */
    method RedactValue(d: Redaction) returns (e: Redaction)
      ensures e == RedactUpTo(rules, |rules|, d)
    {
      e := d;
      for i := 0 to |rules|
        invariant e == RedactUpTo(rules, i, d)
      {
        if Matches(rules[i], e.value) {
          e := Redaction(rules[i].regex.value.replace(e.value, "[REDACTED:" + rules[i].ruleClass + "]"),
                         Some(rules[i].ruleClass), e.count + 1);
        }
      }
    }

    /** The first resource attribute whose value matches refuses the record. */
    method ScanResource(resource: seq<(string, string)>) returns (f: Option<Refusal>)
      ensures f == ResourceRefusal(rules, resource, |resource|)
    {
      for i := 0 to |resource|
        invariant ResourceRefusal(rules, resource, i).None?
      {
        var matched := FirstMatch(rules, resource[i].1);
        if matched.Some? {
          f := Some(Refusal(Denied, ProhibitedClass, Some(resource[i].0), matched));
          ResourceRefusalStays(rules, resource, i + 1, f.value);
          return;
        }
      }
      return None;
    }

    /** One field: refused by name, by disposition, by type, truncated, encoded, or by what is left after redaction. */
    method ScrubField(name: string, raw: Raw, g: Progress) returns (h: Progress)
      requires g.Going?
      ensures h == FieldStep(policy, rules, (name, raw), g)
    {
      var refused := FieldRefusal(policy, rules, name, raw);
      if refused.Some? {
        return Stopped(refused.value);
      }
      var d := RedactValue(Redaction(raw.text, g.last, g.count));
      var residual := FirstMatch(rules, d.value);
      if residual.Some? {
        return Stopped(Refusal(Failed, ScrubFailed, Some(name), residual));
      }
      return Going(g.fields + [(name, d.value)], d.last, d.count);
    }

    method ScrubFields(fields: seq<(string, Raw)>) returns (g: Progress)
      ensures g == FieldsUpTo(policy, rules, fields, |fields|)
    {
      g := Going([], None, 0);
      for i := 0 to |fields|
        invariant g.Going? && g == FieldsUpTo(policy, rules, fields, i)
      {
        g := ScrubField(fields[i].0, fields[i].1, g);
        if g.Stopped? {
          assert fields[i] == (fields[i].0, fields[i].1);
          StoppedStays(policy, rules, fields, i + 1, g.refusal);
          return;
        }
      }
    }

    method Scrub(sink: Sink, input: Input) returns (r: Result)
      requires Valid()
      modifies this
      ensures r == Scrubbed(policy, input)
      ensures State() == Record(old(State()), sink, r)
    {
      if |policy.rules| == 0 {
        r := Refuse(sink, Refusal(Failed, PolicyAbsent, None, None));
        return;
      }
      var refused := ScanResource(input.resource);
      if refused.Some? {
        r := Refuse(sink, refused.value);
        return;
      }
      var g := ScrubFields(input.fields);
      match g {
        case Stopped(f) => r := Refuse(sink, f);
        case Going(fields, last, count) =>
          var outcome := if count > 0 then Redacted else AllowedOpaque;
          counters := Bump(counters, OutcomeCounter(outcome));
          r := Accepted(outcome, Payload(fields, input.resource, last, count));
      }
    }
  }

  lemma {:induction false} ResourceRefusalStays(rules: seq<Rule>, resource: seq<(string, string)>, n: nat, f: Refusal)
    requires n <= |resource| && ResourceRefusal(rules, resource, n) == Some(f)
    ensures ResourceRefusal(rules, resource, |resource|) == Some(f)
    decreases |resource| - n
  {
    if n < |resource| {
      ResourceRefusalStays(rules, resource, n + 1, f);
    }
  }

  lemma {:induction false} StoppedStays(p: Policy, rules: seq<Rule>, fields: seq<(string, Raw)>, n: nat, f: Refusal)
    requires n <= |fields| && FieldsUpTo(p, rules, fields, n) == Stopped(f)
    ensures FieldsUpTo(p, rules, fields, |fields|) == Stopped(f)
    decreases |fields| - n
  {
    if n < |fields| {
      StoppedStays(p, rules, fields, n + 1, f);
    }
  }

  // ---------------------------------------------------------------- runs

  function After(p: Policy, calls: seq<(Sink, Input)>): GateState {
    if calls == [] then GateState(map[], [])
    else
      var (sink, input) := calls[|calls| - 1];
      Record(After(p, calls[..|calls| - 1]), sink, Scrubbed(p, input))
  }

  function OutcomeTotal(c: Counters): nat {
    Get(c, OutcomeCounter(AllowedOpaque)) + Get(c, OutcomeCounter(Redacted))
    + Get(c, OutcomeCounter(Denied)) + Get(c, OutcomeCounter(Failed))
  }

  function RefusedTotal(c: Counters): nat { Get(c, OutcomeCounter(Denied)) + Get(c, OutcomeCounter(Failed)) }

  function DeniedTotal(c: Counters): nat {
    Get(c, DeniedCounter(NotAllowlisted)) + Get(c, DeniedCounter(ProhibitedClass))
    + Get(c, DeniedCounter(ProhibitedFieldName)) + Get(c, DeniedCounter(PolicyAbsent))
    + Get(c, DeniedCounter(ScrubFailed)) + Get(c, DeniedCounter(CanaryDetected))
  }

  function CanaryTotal(c: Counters): nat {
    Get(c, CanaryCounter(OtlpTraceExporter)) + Get(c, CanaryCounter(LogForwarder)) + Get(c, CanaryCounter(ErrorReporter))
    + Get(c, CanaryCounter(PrIssueExporter)) + Get(c, CanaryCounter(DebugBundle))
  }

  function CountReason(rs: seq<Refusal>, reason: ReasonCode): nat {
    if rs == [] then 0 else CountReason(rs[..|rs| - 1], reason) + if rs[|rs| - 1].reason == reason then 1 else 0
  }

  lemma CountReasonAppend(rs: seq<Refusal>, r: Refusal, reason: ReasonCode)
    ensures CountReason(rs + [r], reason) == CountReason(rs, reason) + if r.reason == reason then 1 else 0
  {
    assert (rs + [r])[..|rs|] == rs;
  }

  /** `d` has one more under `k` and nothing else. */
  ghost predicate OneMore(c: Counters, d: Counters, k: Counter) {
    forall j :: Get(d, j) == Get(c, j) + if j == k then 1 else 0
  }

  lemma BumpIsOneMore(c: Counters, k: Counter)
    ensures OneMore(c, Bump(c, k), k)
  {
  }

  lemma OutcomeOneMore(c: Counters, d: Counters, o: OutcomeKind)
    requires OneMore(c, d, OutcomeCounter(o))
    ensures OutcomeTotal(d) == OutcomeTotal(c) + 1
    ensures RefusedTotal(d) == RefusedTotal(c) + if o == Denied || o == Failed then 1 else 0
    ensures DeniedTotal(d) == DeniedTotal(c) && CanaryTotal(d) == CanaryTotal(c)
  {
    match o
    case AllowedOpaque =>
    case Redacted =>
    case Denied =>
    case Failed =>
  }

  lemma DeniedOneMore(c: Counters, d: Counters, reason: ReasonCode)
    requires OneMore(c, d, DeniedCounter(reason))
    ensures OutcomeTotal(d) == OutcomeTotal(c) && RefusedTotal(d) == RefusedTotal(c)
    ensures DeniedTotal(d) == DeniedTotal(c) + 1 && CanaryTotal(d) == CanaryTotal(c)
  {
    match reason
    case NotAllowlisted =>
    case ProhibitedClass =>
    case ProhibitedFieldName =>
    case PolicyAbsent =>
    case ScrubFailed =>
    case CanaryDetected =>
  }

  lemma CanaryOneMore(c: Counters, d: Counters, sink: Sink)
    requires OneMore(c, d, CanaryCounter(sink))
    ensures OutcomeTotal(d) == OutcomeTotal(c) && RefusedTotal(d) == RefusedTotal(c)
    ensures DeniedTotal(d) == DeniedTotal(c) && CanaryTotal(d) == CanaryTotal(c) + 1
  {
    match sink
    case OtlpTraceExporter =>
    case LogForwarder =>
    case ErrorReporter =>
    case PrIssueExporter =>
    case DebugBundle =>
  }

  /** A refusal is never counted as an acceptance. */
  lemma {:induction false} RefusalKinds(p: Policy, input: Input)
    ensures match Scrubbed(p, input)
            case Refused(f) => f.outcome == Denied || f.outcome == Failed
            case Accepted(o, _) => o == AllowedOpaque || o == Redacted
  {
    var rules := Compiled(p.rules, p.disabled);
    ResourceRefusalKind(rules, input.resource, |input.resource|);
    StoppedKind(p, rules, input.fields, |input.fields|);
  }

  lemma {:induction false} ResourceRefusalKind(rules: seq<Rule>, resource: seq<(string, string)>, n: nat)
    requires n <= |resource|
    ensures ResourceRefusal(rules, resource, n).Some? ==> ResourceRefusal(rules, resource, n).value.outcome == Denied
  {
    if n > 0 {
      ResourceRefusalKind(rules, resource, n - 1);
    }
  }

  lemma {:induction false} StoppedKind(p: Policy, rules: seq<Rule>, fields: seq<(string, Raw)>, n: nat)
    requires n <= |fields|
    ensures var g := FieldsUpTo(p, rules, fields, n);
            g.Stopped? ==> g.refusal.outcome == Denied || g.refusal.outcome == Failed
  {
    if n > 0 {
      StoppedKind(p, rules, fields, n - 1);
    }
  }

  /** The counters agree with each other, with the refusal log and with the number of calls. */
  ghost predicate Balanced(s: GateState, calls: nat) {
    && OutcomeTotal(s.counters) == calls
    && RefusedTotal(s.counters) == |s.refusals|
    && DeniedTotal(s.counters) == |s.refusals|
    && CanaryTotal(s.counters) == CountReason(s.refusals, CanaryDetected)
    && forall reason :: Get(s.counters, DeniedCounter(reason)) == CountReason(s.refusals, reason)
  }

  /** What one refusal adds. */
  ghost predicate AddsRefusal(c: Counters, d: Counters, reason: ReasonCode) {
    && OutcomeTotal(d) == OutcomeTotal(c) + 1 && RefusedTotal(d) == RefusedTotal(c) + 1
    && DeniedTotal(d) == DeniedTotal(c) + 1
    && CanaryTotal(d) == CanaryTotal(c) + (if reason == CanaryDetected then 1 else 0)
    && forall r :: Get(d, DeniedCounter(r)) == Get(c, DeniedCounter(r)) + (if r == reason then 1 else 0)
  }

  lemma ThreeBumps(c0: Counters, c1: Counters, c2: Counters, c3: Counters, sink: Sink, f: Refusal)
    requires f.outcome == Denied || f.outcome == Failed
    requires OneMore(c0, c1, OutcomeCounter(f.outcome)) && OneMore(c1, c2, DeniedCounter(f.reason))
    requires if f.reason == CanaryDetected then OneMore(c2, c3, CanaryCounter(sink)) else c3 == c2
    ensures AddsRefusal(c0, c3, f.reason)
  {
    OutcomeOneMore(c0, c1, f.outcome);
    DeniedOneMore(c1, c2, f.reason);
    if f.reason == CanaryDetected {
      CanaryOneMore(c2, c3, sink);
    }
  }

  lemma RefusalAdds(c: Counters, sink: Sink, f: Refusal)
    requires f.outcome == Denied || f.outcome == Failed
    ensures AddsRefusal(c, CountRefusal(c, sink, f), f.reason)
  {
    var c1 := Bump(c, OutcomeCounter(f.outcome));
    var c2 := Bump(c1, DeniedCounter(f.reason));
    BumpIsOneMore(c, OutcomeCounter(f.outcome));
    BumpIsOneMore(c1, DeniedCounter(f.reason));
    BumpIsOneMore(c2, CanaryCounter(sink));
    ThreeBumps(c, c1, c2, CountRefusal(c, sink, f), sink, f);
  }

  lemma BalancedByOne(s: GateState, n: nat, d: Counters, f: Refusal)
    requires Balanced(s, n) && AddsRefusal(s.counters, d, f.reason)
    ensures Balanced(GateState(d, s.refusals + [f]), n + 1)
  {
    CountReasonAppend(s.refusals, f, CanaryDetected);
    forall reason
      ensures Get(d, DeniedCounter(reason)) == CountReason(s.refusals + [f], reason)
    {
      CountReasonAppend(s.refusals, f, reason);
      assert Get(s.counters, DeniedCounter(reason)) == CountReason(s.refusals, reason);
    }
  }

  lemma RefusalBalances(s: GateState, n: nat, sink: Sink, f: Refusal)
    requires Balanced(s, n) && (f.outcome == Denied || f.outcome == Failed)
    ensures Balanced(Record(s, sink, Refused(f)), n + 1)
  {
    RefusalAdds(s.counters, sink, f);
    BalancedByOne(s, n, CountRefusal(s.counters, sink, f), f);
  }

  lemma AcceptanceBalances(s: GateState, n: nat, sink: Sink, o: OutcomeKind, p: Payload)
    requires Balanced(s, n) && (o == AllowedOpaque || o == Redacted)
    ensures Balanced(Record(s, sink, Accepted(o, p)), n + 1)
  {
    BumpIsOneMore(s.counters, OutcomeCounter(o));
    OutcomeOneMore(s.counters, Bump(s.counters, OutcomeCounter(o)), o);
  }

  /** Over any sequence of calls the outcome counters sum to the calls, the denial counters sum to the refusal
    * log reason by reason, and the canary counters to its canaries. */
  lemma {:induction false} CountersBalance(p: Policy, calls: seq<(Sink, Input)>)
    ensures Balanced(After(p, calls), |calls|)
  {
    if calls != [] {
      var init := calls[..|calls| - 1];
      CountersBalance(p, init);
      var (sink, input) := calls[|calls| - 1];
      RefusalKinds(p, input);
      match Scrubbed(p, input)
      case Refused(f) => RefusalBalances(After(p, init), |init|, sink, f);
      case Accepted(o, payload) => AcceptanceBalances(After(p, init), |init|, sink, o, payload);
    }
  }

  lemma {:induction false} AbsentRefusals(p: Policy, calls: seq<(Sink, Input)>)
    ensures CountReason(After(p, calls).refusals, PolicyAbsent) == if p.rules == [] then |calls| else 0
    ensures p.rules == [] ==> |After(p, calls).refusals| == |calls|
  {
    if calls != [] {
      var init := calls[..|calls| - 1];
      var (_, input) := calls[|calls| - 1];
      AbsentRefusals(p, init);
      PolicyAbsentIff(p, input);
      if Scrubbed(p, input).Refused? {
        CountReasonAppend(After(p, init).refusals, Scrubbed(p, input).refusal, PolicyAbsent);
      }
    }
  }

  /** Over any calls the POLICY_ABSENT counter is every call for a gate without rules, which never counts an
    * acceptance, and stays at zero for any other gate. */
  lemma NoRulesNoEgress(p: Policy, calls: seq<(Sink, Input)>)
    ensures var c := After(p, calls).counters;
            && Get(c, DeniedCounter(PolicyAbsent)) == (if p.rules == [] then |calls| else 0)
            && (p.rules == [] ==> Get(c, OutcomeCounter(AllowedOpaque)) == 0 && Get(c, OutcomeCounter(Redacted)) == 0)
  {
    CountersBalance(p, calls);
    AbsentRefusals(p, calls);
  }
}
