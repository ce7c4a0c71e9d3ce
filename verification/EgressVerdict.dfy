/** What the scrub stage decides, stated over the policy itself: which rules fire on which value, when a record
  * passes, what is sent, and why anything is refused.
  */
module EgressVerdict {
  import opened Wrappers
  import opened Text
  import opened EgressGate

  /** A rule fires on `v`: it is enabled, its class is applied, it is a value pattern, and the pattern matches. */
  predicate Fires(p: Policy, r: Rule, v: string) {
    r.enabled && r.ruleClass !in p.disabled && r.enforcement == ValuePattern && r.regex.Some? && r.regex.value.test(v)
  }

  predicate QuietUpTo(p: Policy, v: string, n: nat)
    requires n <= |p.rules|
  {
    forall k :: 0 <= k < n ==> !Fires(p, p.rules[k], v)
  }

  predicate Quiet(p: Policy, v: string) { QuietUpTo(p, v, |p.rules|) }

  /** Rule `k`, of class `c`, is the first to fire on `v`. */
  predicate FirstToFire(p: Policy, v: string, k: nat, c: string) {
    k < |p.rules| && Fires(p, p.rules[k], v) && QuietUpTo(p, v, k) && p.rules[k].ruleClass == c
  }

  /** The text that rule `k` is tried on: each rule before it has rewritten the text if it fired. */
  function Stage(p: Policy, v: string, k: nat): string
    requires k <= |p.rules|
  {
    if k == 0 then v
    else
      var w := Stage(p, v, k - 1);
      var r := p.rules[k - 1];
      if Fires(p, r, w) then r.regex.value.replace(w, "[REDACTED:" + r.ruleClass + "]") else w
  }

  function Sent(p: Policy, v: string): string { Stage(p, v, |p.rules|) }

  predicate Hit(p: Policy, v: string, k: nat)
    requires k < |p.rules|
  {
    Fires(p, p.rules[k], Stage(p, v, k))
  }

  /** How many of the first `n` rules fire at their turn. */
  function Hits(p: Policy, v: string, n: nat): nat
    requires n <= |p.rules|
  {
    if n == 0 then 0 else Hits(p, v, n - 1) + if Hit(p, v, n - 1) then 1 else 0
  }

  /** The last of the first `n` rules to fire at its turn has class `c`. */
  ghost predicate LastHit(p: Policy, v: string, n: nat, c: string)
    requires n <= |p.rules|
  {
    exists k: nat :: k < n && Hit(p, v, k) && Hits(p, v, k + 1) == Hits(p, v, n) && p.rules[k].ruleClass == c
  }

  function FieldHits(p: Policy, field: (string, Raw)): nat {
    if field.1.RawText? then Hits(p, field.1.text, |p.rules|) else 0
  }

  function TotalHits(p: Policy, fields: seq<(string, Raw)>, n: nat): nat
    requires n <= |fields|
  {
    if n == 0 then 0 else TotalHits(p, fields, n - 1) + FieldHits(p, fields[n - 1])
  }

  /** `last` is the class of the last rule to fire in the last of the first `n` fields in which any did. */
  ghost predicate LastClass(p: Policy, fields: seq<(string, Raw)>, n: nat, last: Option<string>)
    requires n <= |fields|
  {
    match last
    case None => TotalHits(p, fields, n) == 0
    case Some(c) =>
      exists i: nat ::
        i < n && fields[i].1.RawText? && LastHit(p, fields[i].1.text, |p.rules|, c)
        && TotalHits(p, fields, i + 1) == TotalHits(p, fields, n)
  }

  /** A field as received and as sent. */
  predicate SentAs(p: Policy, received: (string, Raw), sent: (string, string)) {
    received.1.RawText? && sent == (received.0, Sent(p, received.1.text))
  }

  /** The first `n` fields, in order, each as it is sent. */
  predicate AllSent(p: Policy, fields: seq<(string, Raw)>, n: nat, sent: seq<(string, string)>)
    requires n <= |fields|
  {
    |sent| == n && forall i :: 0 <= i < n ==> SentAs(p, fields[i], sent[i])
  }

  predicate AddressRule(p: Policy, r: Rule) {
    r.ruleClass == "EMAIL_ADDRESS" && r.enabled && "EMAIL_ADDRESS" !in p.disabled
  }

  /** Rule `k` is the first of the address class. */
  predicate FirstAddressRule(p: Policy, k: nat) {
    k < |p.rules| && AddressRule(p, p.rules[k]) && forall j :: 0 <= j < k ==> !AddressRule(p, p.rules[j])
  }

  predicate NotByRule(p: Policy, k: nat, t: string)
    requires k < |p.rules|
  {
    p.rules[k].regex.Some? && !p.rules[k].regex.value.test(t)
  }

  /** It ends like an address, and the first rule of the address class, which is applied, does not know it. */
  ghost predicate CutAddress(p: Policy, v: string) {
    p.truncatedShape(Trim(v)) && exists k: nat :: FirstAddressRule(p, k) && NotByRule(p, k, Trim(v))
  }

  predicate FormsQuiet(p: Policy, v: string) {
    var forms := p.encodedForms(v);
    forall i :: 0 <= i < |forms| ==> Quiet(p, forms[i])
  }

  /** A field may leave: an allowed name, a text, no cut address, nothing in any encoded form of it, and nothing
    * left in it once it is redacted. */
  ghost predicate Passes(p: Policy, field: (string, Raw)) {
    && field.0 !in p.prohibited && p.classification(field.0) == Some(Allow) && field.1.RawText?
    && !CutAddress(p, field.1.text) && FormsQuiet(p, field.1.text) && Quiet(p, Sent(p, field.1.text))
  }

  ghost predicate AllPass(p: Policy, fields: seq<(string, Raw)>) {
    forall i :: 0 <= i < |fields| ==> Passes(p, fields[i])
  }

  predicate AllQuiet(p: Policy, resource: seq<(string, string)>) {
    forall i :: 0 <= i < |resource| ==> Quiet(p, resource[i].1)
  }

  /** The first encoded form in which anything fires has rule class `c`. */
  ghost predicate FormFault(p: Policy, forms: seq<string>, c: string) {
    exists i: nat, k: nat ::
      i < |forms| && FirstToFire(p, forms[i], k, c) && forall j :: 0 <= j < i ==> Quiet(p, forms[j])
  }

  /** `f` says what is wrong with a field, in the gate's order: the name, its classification, the type of the
    * value, a cut address, an encoded form, and what redaction leaves. */
  ghost predicate Blames(p: Policy, field: (string, Raw), f: Refusal) {
    && f.path == Some(field.0)
    && (f.reason == ProhibitedFieldName <==> field.0 in p.prohibited)
    && (f.reason == NotAllowlisted <==> field.0 !in p.prohibited && p.classification(field.0).None?)
    && (f.reason == ProhibitedClass <==> field.0 !in p.prohibited && p.classification(field.0) == Some(Deny))
    && (f.reason == CanaryDetected ==>
        field.1.RawText? && if CutAddress(p, field.1.text) then f.ruleClass == Some("EMAIL_ADDRESS")
                            else f.ruleClass.Some? && FormFault(p, p.encodedForms(field.1.text), f.ruleClass.value))
    && (f.reason == ScrubFailed ==>
        if field.1.RawOther? then f.ruleClass.None?
        else
          && !CutAddress(p, field.1.text) && FormsQuiet(p, field.1.text)
          && f.ruleClass.Some? && exists k: nat :: FirstToFire(p, Sent(p, field.1.text), k, f.ruleClass.value))
    && f.reason != PolicyAbsent
    && (f.outcome == if f.reason == ScrubFailed then Failed else Denied)
    && (f.reason in {ProhibitedFieldName, NotAllowlisted, ProhibitedClass} ==> f.ruleClass.None?)
  }

  ghost predicate BlamesResource(p: Policy, attribute: (string, string), f: Refusal) {
    && f.outcome == Denied && f.reason == ProhibitedClass && f.path == Some(attribute.0) && f.ruleClass.Some?
    && exists k: nat :: FirstToFire(p, attribute.1, k, f.ruleClass.value)
  }

  /** The refusal of a record: no rules at all, else its first bad attribute, else its first bad field. */
  ghost predicate Earned(p: Policy, input: Input, f: Refusal) {
    if p.rules == [] then f == Refusal(Failed, PolicyAbsent, None, None)
    else if !AllQuiet(p, input.resource) then
      exists i: nat :: i < |input.resource| && AllQuiet(p, input.resource[..i]) && BlamesResource(p, input.resource[i], f)
    else
      exists i: nat :: i < |input.fields| && AllPass(p, input.fields[..i]) && Blames(p, input.fields[i], f)
  }

  // ---------------------------------------------------------------- compiled rules

  function Front(p: Policy, n: nat): seq<Rule>
    requires n <= |p.rules|
  {
    Compiled(p.rules[..n], p.disabled)
  }

  lemma FrontNext(p: Policy, n: nat)
    requires 0 < n <= |p.rules|
    ensures var r := p.rules[n - 1];
            Front(p, n) == Front(p, n - 1) + if r.enabled && r.ruleClass !in p.disabled then [r] else []
  {
    assert p.rules[..n][..n - 1] == p.rules[..n - 1];
  }

  lemma {:induction false} FirstMatchNext(a: seq<Rule>, r: Rule, v: string)
    ensures FirstMatch(a + [r], v)
         == if FirstMatch(a, v).Some? then FirstMatch(a, v) else if Matches(r, v) then Some(r.ruleClass) else None
  {
    if a == [] {
      assert a + [r] == [r] && FirstMatch([r][1..], v).None?;
    } else {
      assert (a + [r])[1..] == a[1..] + [r];
      FirstMatchNext(a[1..], r, v);
    }
  }

  /** A match of a compiled rule is the first rule of the policy to fire. */
  ghost predicate MatchFits(p: Policy, v: string, n: nat, m: Option<string>)
    requires n <= |p.rules|
  {
    match m
    case None => QuietUpTo(p, v, n)
    case Some(c) => exists k: nat :: k < n && FirstToFire(p, v, k, c)
  }

  lemma {:induction false} FirstMatchFits(p: Policy, v: string, n: nat)
    requires n <= |p.rules|
    ensures MatchFits(p, v, n, FirstMatch(Front(p, n), v))
  {
    if n > 0 {
      FirstMatchFits(p, v, n - 1);
      FrontNext(p, n);
      var r := p.rules[n - 1];
      if r.enabled && r.ruleClass !in p.disabled {
        FirstMatchNext(Front(p, n - 1), r, v);
        assert Matches(r, v) <==> Fires(p, r, v);
        if FirstMatch(Front(p, n - 1), v).None? && Fires(p, r, v) {
          assert FirstToFire(p, v, n - 1, r.ruleClass);
        }
      } else {
        assert Front(p, n) == Front(p, n - 1);
      }
    }
  }

  lemma CleanIsQuiet(p: Policy, v: string)
    ensures MatchFits(p, v, |p.rules|, FirstMatch(Compiled(p.rules, p.disabled), v))
    ensures FirstMatch(Compiled(p.rules, p.disabled), v).None? <==> Quiet(p, v)
  {
    assert p.rules[..|p.rules|] == p.rules;
    FirstMatchFits(p, v, |p.rules|);
  }

  lemma {:induction false} RuleNamedNext(a: seq<Rule>, r: Rule, name: string)
    ensures RuleNamed(a + [r], name)
         == if RuleNamed(a, name).Some? then RuleNamed(a, name) else if r.ruleClass == name then Some(|a|) else None
    ensures RuleNamed(a, name).Some? ==> RuleNamed(a, name).value < |a|
  {
    if a == [] {
      assert a + [r] == [r] && RuleNamed([r][1..], name).None?;
    } else {
      assert (a + [r])[1..] == a[1..] + [r];
      RuleNamedNext(a[1..], r, name);
    }
  }

  ghost predicate AddressFits(p: Policy, n: nat, m: Option<nat>)
    requires n <= |p.rules|
  {
    match m
    case None => forall k :: 0 <= k < n ==> !AddressRule(p, p.rules[k])
    case Some(i) => i < |Front(p, n)| && exists k: nat :: k < n && FirstAddressRule(p, k) && Front(p, n)[i] == p.rules[k]
  }

  lemma {:induction false} RuleNamedFits(p: Policy, n: nat)
    requires n <= |p.rules|
    ensures AddressFits(p, n, RuleNamed(Front(p, n), "EMAIL_ADDRESS"))
  {
    if n > 0 {
      RuleNamedFits(p, n - 1);
      FrontNext(p, n);
      var r := p.rules[n - 1];
      if r.enabled && r.ruleClass !in p.disabled {
        RuleNamedNext(Front(p, n - 1), r, "EMAIL_ADDRESS");
        assert Front(p, n)[|Front(p, n - 1)|] == r;
        if RuleNamed(Front(p, n - 1), "EMAIL_ADDRESS").None? && r.ruleClass == "EMAIL_ADDRESS" {
          assert FirstAddressRule(p, n - 1);
        }
      } else {
        assert Front(p, n) == Front(p, n - 1);
      }
    }
  }

  lemma TruncatedIsCut(p: Policy, v: string)
    ensures Truncated(p, Compiled(p.rules, p.disabled), v) <==> CutAddress(p, v)
  {
    assert p.rules[..|p.rules|] == p.rules;
    RuleNamedFits(p, |p.rules|);
    forall k: nat, j: nat | FirstAddressRule(p, k) && FirstAddressRule(p, j)
      ensures k == j
    {
    }
  }

  ghost predicate EncodedFits(p: Policy, forms: seq<string>, m: Option<string>) {
    match m
    case None => forall i :: 0 <= i < |forms| ==> Quiet(p, forms[i])
    case Some(c) => FormFault(p, forms, c) && exists i :: 0 <= i < |forms| && !Quiet(p, forms[i])
  }

  lemma EncodedNext(p: Policy, forms: seq<string>, m: Option<string>)
    requires forms != [] && Quiet(p, forms[0]) && EncodedFits(p, forms[1..], m)
    ensures EncodedFits(p, forms, m)
  {
    assert forall i :: 1 <= i < |forms| ==> forms[i] == forms[1..][i - 1];
    if m.Some? {
      var i: nat, k: nat :| i < |forms[1..]| && FirstToFire(p, forms[1..][i], k, m.value)
        && forall j :: 0 <= j < i ==> Quiet(p, forms[1..][j]);
      assert FirstToFire(p, forms[i + 1], k, m.value);
    }
  }

  lemma {:induction false} EncodedMatchFits(p: Policy, forms: seq<string>)
    ensures EncodedFits(p, forms, EncodedMatch(Compiled(p.rules, p.disabled), forms))
  {
    if forms != [] {
      CleanIsQuiet(p, forms[0]);
      if FirstMatch(Compiled(p.rules, p.disabled), forms[0]).None? {
        EncodedMatchFits(p, forms[1..]);
        EncodedNext(p, forms, EncodedMatch(Compiled(p.rules, p.disabled), forms[1..]));
      }
    }
  }

  // ---------------------------------------------------------------- redaction

  lemma {:induction false} RedactPrefix(a: seq<Rule>, b: seq<Rule>, n: nat, d: Redaction)
    requires n <= |a|
    ensures RedactUpTo(a + b, n, d) == RedactUpTo(a, n, d)
  {
    if n > 0 {
      RedactPrefix(a, b, n - 1, d);
    }
  }

  /** `e` is `d` after the first `n` rules of the policy. */
  ghost predicate RedactedTo(p: Policy, n: nat, d: Redaction, e: Redaction)
    requires n <= |p.rules|
  {
    && e.value == Stage(p, d.value, n) && e.count == d.count + Hits(p, d.value, n)
    && (Hits(p, d.value, n) == 0 ==> e.last == d.last)
    && (Hits(p, d.value, n) > 0 ==> e.last.Some? && LastHit(p, d.value, n, e.last.value))
  }

  lemma RedactedNext(p: Policy, n: nat, d: Redaction, e: Redaction)
    requires n < |p.rules| && RedactedTo(p, n, d, e)
    ensures var r := p.rules[n];
            RedactedTo(p, n + 1, d, if r.enabled && r.ruleClass !in p.disabled then RedactOne(r, e) else e)
  {
    var r := p.rules[n];
    assert Hit(p, d.value, n) <==> r.enabled && r.ruleClass !in p.disabled && Matches(r, e.value);
    if !Hit(p, d.value, n) && Hits(p, d.value, n) > 0 {
      var k: nat :| k < n && Hit(p, d.value, k) && Hits(p, d.value, k + 1) == Hits(p, d.value, n)
        && p.rules[k].ruleClass == e.last.value;
      assert LastHit(p, d.value, n + 1, e.last.value);
    }
  }

  lemma {:induction false} RedactFits(p: Policy, n: nat, d: Redaction)
    requires n <= |p.rules|
    ensures RedactedTo(p, n, d, RedactUpTo(Front(p, n), |Front(p, n)|, d))
  {
    if n > 0 {
      RedactFits(p, n - 1, d);
      FrontNext(p, n);
      var r, a := p.rules[n - 1], Front(p, n - 1);
      RedactedNext(p, n - 1, d, RedactUpTo(a, |a|, d));
      if r.enabled && r.ruleClass !in p.disabled {
        RedactPrefix(a, [r], |a|, d);
      } else {
        assert Front(p, n) == a;
      }
    } else {
      assert p.rules[..0] == [];
    }
  }

  // ---------------------------------------------------------------- fields

  lemma RefusalFits(p: Policy, field: (string, Raw))
    ensures match FieldRefusal(p, Compiled(p.rules, p.disabled), field.0, field.1)
            case Some(f) => Blames(p, field, f) && !Passes(p, field)
            case None =>
              && field.0 !in p.prohibited && p.classification(field.0) == Some(Allow) && field.1.RawText?
              && !CutAddress(p, field.1.text) && FormsQuiet(p, field.1.text)
  {
    if p.classification(field.0).Some? {
      var d := p.classification(field.0).value;
      assert d.Allow? || d.Deny?;
    }
    if field.1.RawText? {
      TruncatedIsCut(p, field.1.text);
      EncodedMatchFits(p, p.encodedForms(field.1.text));
    }
  }

  ghost predicate StepFits(p: Policy, field: (string, Raw), g: Progress, h: Progress)
    requires g.Going?
  {
    match h
    case Stopped(f) => Blames(p, field, f) && !Passes(p, field)
    case Going(fields, last, count) =>
      && Passes(p, field) && |fields| == |g.fields| + 1 && fields[..|g.fields|] == g.fields
      && SentAs(p, field, fields[|g.fields|])
      && RedactedTo(p, |p.rules|, Redaction(field.1.text, g.last, g.count), Redaction(fields[|g.fields|].1, last, count))
  }

  lemma FieldStepFits(p: Policy, field: (string, Raw), g: Progress)
    requires g.Going?
    ensures StepFits(p, field, g, FieldStep(p, Compiled(p.rules, p.disabled), field, g))
  {
    RefusalFits(p, field);
    if field.1.RawText? {
      assert p.rules[..|p.rules|] == p.rules;
      var d := Redaction(field.1.text, g.last, g.count);
      RedactFits(p, |p.rules|, d);
      CleanIsQuiet(p, Sent(p, field.1.text));
    }
  }

  ghost predicate FieldsFit(p: Policy, fields: seq<(string, Raw)>, n: nat, g: Progress)
    requires n <= |fields|
  {
    match g
    case Stopped(f) =>
      exists i: nat :: i < n && AllPass(p, fields[..i]) && Blames(p, fields[i], f) && !Passes(p, fields[i])
    case Going(sent, last, count) =>
      && AllPass(p, fields[..n]) && AllSent(p, fields, n, sent)
      && count == TotalHits(p, fields, n) && LastClass(p, fields, n, last)
  }

  lemma LastStays(p: Policy, fields: seq<(string, Raw)>, n: nat, last: Option<string>)
    requires n < |fields| && LastClass(p, fields, n, last) && FieldHits(p, fields[n]) == 0
    ensures LastClass(p, fields, n + 1, last)
  {
  }

  lemma LastMoves(p: Policy, fields: seq<(string, Raw)>, n: nat, last: Option<string>)
    requires n < |fields| && FieldHits(p, fields[n]) > 0
    requires fields[n].1.RawText? && last.Some? && LastHit(p, fields[n].1.text, |p.rules|, last.value)
    ensures LastClass(p, fields, n + 1, last)
  {
  }

  lemma PassNext(p: Policy, fields: seq<(string, Raw)>, n: nat)
    requires n < |fields| && AllPass(p, fields[..n]) && Passes(p, fields[n])
    ensures AllPass(p, fields[..n + 1])
  {
    assert forall i :: 0 <= i < n ==> fields[..n + 1][i] == fields[..n][i];
  }

  lemma SentNext(p: Policy, fields: seq<(string, Raw)>, n: nat, sent: seq<(string, string)>, more: seq<(string, string)>)
    requires n < |fields| && AllSent(p, fields, n, sent)
    requires |more| == n + 1 && more[..n] == sent && SentAs(p, fields[n], more[n])
    ensures AllSent(p, fields, n + 1, more)
  {
    assert forall i :: 0 <= i < n ==> more[i] == more[..n][i];
  }

  lemma LastNext(p: Policy, fields: seq<(string, Raw)>, n: nat, d: Redaction, e: Redaction)
    requires n < |fields| && fields[n].1 == RawText(d.value) && RedactedTo(p, |p.rules|, d, e)
    requires d.count == TotalHits(p, fields, n) && LastClass(p, fields, n, d.last)
    ensures e.count == TotalHits(p, fields, n + 1) && LastClass(p, fields, n + 1, e.last)
  {
    if FieldHits(p, fields[n]) == 0 {
      LastStays(p, fields, n, d.last);
    } else {
      LastMoves(p, fields, n, e.last);
    }
  }

  lemma PassedNext(p: Policy, fields: seq<(string, Raw)>, n: nat, g: Progress, h: Progress)
    requires n < |fields| && g.Going? && h.Going? && FieldsFit(p, fields, n, g) && StepFits(p, fields[n], g, h)
    ensures FieldsFit(p, fields, n + 1, h)
  {
    PassNext(p, fields, n);
    SentNext(p, fields, n, g.fields, h.fields);
    LastNext(p, fields, n, Redaction(fields[n].1.text, g.last, g.count), Redaction(h.fields[n].1, h.last, h.count));
  }

  lemma RefusedNext(p: Policy, fields: seq<(string, Raw)>, n: nat, g: Progress, h: Progress)
    requires n < |fields| && g.Going? && h.Stopped? && FieldsFit(p, fields, n, g) && StepFits(p, fields[n], g, h)
    ensures FieldsFit(p, fields, n + 1, h)
  {
    assert AllPass(p, fields[..n]) && Blames(p, fields[n], h.refusal) && !Passes(p, fields[n]);
  }

  lemma FieldsStepFits(p: Policy, fields: seq<(string, Raw)>, n: nat, g: Progress)
    requires n < |fields| && g.Going? && FieldsFit(p, fields, n, g)
    ensures FieldsFit(p, fields, n + 1, FieldStep(p, Compiled(p.rules, p.disabled), fields[n], g))
  {
    var h := FieldStep(p, Compiled(p.rules, p.disabled), fields[n], g);
    FieldStepFits(p, fields[n], g);
    match h
    case Going(_, _, _) => PassedNext(p, fields, n, g, h);
    case Stopped(_) => RefusedNext(p, fields, n, g, h);
  }

  lemma StoppedFits(p: Policy, fields: seq<(string, Raw)>, n: nat, g: Progress)
    requires n < |fields| && g.Stopped? && FieldsFit(p, fields, n, g)
    ensures FieldsFit(p, fields, n + 1, g)
  {
  }

  lemma {:induction false} FieldsUpToFit(p: Policy, fields: seq<(string, Raw)>, n: nat)
    requires n <= |fields|
    ensures FieldsFit(p, fields, n, FieldsUpTo(p, Compiled(p.rules, p.disabled), fields, n))
  {
    if n > 0 {
      FieldsUpToFit(p, fields, n - 1);
      var g := FieldsUpTo(p, Compiled(p.rules, p.disabled), fields, n - 1);
      match g
      case Going(_, _, _) => FieldsStepFits(p, fields, n - 1, g);
      case Stopped(_) => StoppedFits(p, fields, n - 1, g);
    }
  }

  ghost predicate ResourceFits(p: Policy, resource: seq<(string, string)>, n: nat, m: Option<Refusal>)
    requires n <= |resource|
  {
    match m
    case None => AllQuiet(p, resource[..n])
    case Some(f) =>
      exists i: nat :: i < n && AllQuiet(p, resource[..i]) && BlamesResource(p, resource[i], f) && !Quiet(p, resource[i].1)
  }

  lemma {:induction false} ResourceUpToFits(p: Policy, resource: seq<(string, string)>, n: nat)
    requires n <= |resource|
    ensures ResourceFits(p, resource, n, ResourceRefusal(Compiled(p.rules, p.disabled), resource, n))
  {
    if n > 0 {
      ResourceUpToFits(p, resource, n - 1);
      CleanIsQuiet(p, resource[n - 1].1);
      assert forall i :: 0 <= i < n - 1 ==> resource[..n][i] == resource[..n - 1][i];
    }
  }

  // ---------------------------------------------------------------- the verdict

  lemma ResourceVerdict(p: Policy, resource: seq<(string, string)>, m: Option<Refusal>)
    requires ResourceFits(p, resource, |resource|, m)
    ensures m.None? <==> AllQuiet(p, resource)
  {
    assert resource[..|resource|] == resource;
  }

  lemma FieldsVerdict(p: Policy, fields: seq<(string, Raw)>, g: Progress)
    requires FieldsFit(p, fields, |fields|, g)
    ensures g.Going? <==> AllPass(p, fields)
  {
    assert fields[..|fields|] == fields;
  }

  /** A record is accepted exactly when there is a policy, no rule fires on any resource value, and every field
    * passes. */
  lemma AcceptedIff(p: Policy, input: Input)
    ensures Scrubbed(p, input).Accepted? <==> p.rules != [] && AllQuiet(p, input.resource) && AllPass(p, input.fields)
  {
    var rules := Compiled(p.rules, p.disabled);
    ResourceUpToFits(p, input.resource, |input.resource|);
    ResourceVerdict(p, input.resource, ResourceRefusal(rules, input.resource, |input.resource|));
    FieldsUpToFit(p, input.fields, |input.fields|);
    FieldsVerdict(p, input.fields, FieldsUpTo(p, rules, input.fields, |input.fields|));
  }

  /** What is sent is every field under its name, rewritten by each rule that fires at its turn, with the attributes
    * as they came, the number of rewrites, the class of the last one, and an outcome that says if there were any. */
  lemma AcceptedPayloadIs(p: Policy, input: Input)
    requires Scrubbed(p, input).Accepted?
    ensures var a := Scrubbed(p, input);
            && AllSent(p, input.fields, |input.fields|, a.payload.fields) && a.payload.resource == input.resource
            && a.payload.count == TotalHits(p, input.fields, |input.fields|)
            && LastClass(p, input.fields, |input.fields|, a.payload.last)
            && a.outcome == (if a.payload.count > 0 then Redacted else AllowedOpaque)
  {
    FieldsUpToFit(p, input.fields, |input.fields|);
  }

  /** A refusal names the first thing wrong with the record, in the gate's order. */
  lemma RefusalIsEarned(p: Policy, input: Input)
    requires Scrubbed(p, input).Refused?
    ensures Earned(p, input, Scrubbed(p, input).refusal)
  {
    var rules := Compiled(p.rules, p.disabled);
    ResourceUpToFits(p, input.resource, |input.resource|);
    ResourceVerdict(p, input.resource, ResourceRefusal(rules, input.resource, |input.resource|));
    FieldsUpToFit(p, input.fields, |input.fields|);
  }
}
