/** Which samples the registry accepts, why it refuses the others, and what its log then holds. */
module MetricVerdicts {
  import opened Wrappers
  import opened Text
  import opened MetricsRegistry

  // ---------------------------------------------------------------- one label

  /** The value is outside the set declared for this family, or, where it declares none, for the label anywhere. */
  predicate OutOfBounds(c: Catalogue, name: string, p: (string, string)) {
    if (name, p.0) in c.perFamily then p.1 !in c.perFamily[(name, p.0)]
    else p.0 in c.general && p.1 !in c.general[p.0]
  }

  predicate LabelAllowed(c: Catalogue, name: string, p: (string, string))
    requires name in c.byName
  {
    p.0 !in c.prohibited && p.0 in c.byName[name].labels && !OutOfBounds(c, name, p)
  }

  ghost predicate AllAllowed(c: Catalogue, name: string, l: Labels, n: nat)
    requires name in c.byName && n <= |l|
  {
    forall i :: 0 <= i < n ==> LabelAllowed(c, name, l[i])
  }

  /** What is wrong with label `i`, whose predecessors are all allowed. */
  ghost predicate LabelBlamed(c: Catalogue, name: string, l: Labels, i: nat, code: Code)
    requires name in c.byName
  {
    && i < |l| && AllAllowed(c, name, l, i)
    && match code
       case ProhibitedLabel => l[i].0 in c.prohibited
       case UndeclaredLabel => l[i].0 !in c.prohibited && l[i].0 !in c.byName[name].labels
       case UnboundedLabelValue =>
         l[i].0 !in c.prohibited && l[i].0 in c.byName[name].labels && OutOfBounds(c, name, l[i])
       case _ => false
  }

  ghost predicate LabelVerdict(c: Catalogue, name: string, l: Labels, n: nat, code: Option<Code>)
    requires name in c.byName && n <= |l|
  {
    match code
    case None => AllAllowed(c, name, l, n)
    case Some(code) => exists i: nat :: i < n && LabelBlamed(c, name, l, i, code) && !LabelAllowed(c, name, l[i])
  }

  lemma {:induction false} LabelsJudged(c: Catalogue, name: string, l: Labels, n: nat)
    requires name in c.byName && n <= |l|
    ensures LabelVerdict(c, name, l, n, FirstLabelRefusal(c, name, c.byName[name], l, n))
  {
    if n > 0 {
      LabelsJudged(c, name, l, n - 1);
      if FirstLabelRefusal(c, name, c.byName[name], l, n - 1).None? {
        var code := LabelRefusal(c, name, c.byName[name], l[n - 1]);
        if code.Some? {
          assert LabelBlamed(c, name, l, n - 1, code.value);
        }
      }
    }
  }

  // ---------------------------------------------------------------- one sample

  function AsReal(k: int): real { k as real }

  ghost predicate IsWhole(x: real) { exists k: int :: AsReal(k) == x }

  lemma WholeIsItsFloor(x: real)
    ensures IsWhole(x) <==> x.Floor as real == x
  {
    if x.Floor as real == x {
      assert AsReal(x.Floor) == x;
    }
  }

  predicate NamesCurrency(l: Labels) { exists i :: 0 <= i < |l| && l[i].0 == "currency" && !AllSpace(l[i].1) }

  lemma CurrencyIs(l: Labels)
    ensures HasCurrency(l) <==> NamesCurrency(l)
  {
    forall i | 0 <= i < |l|
      ensures Trim(l[i].1) != [] <==> !AllSpace(l[i].1)
    {
      TrimIsEmptyIff(l[i].1);
    }
  }

  /** A sample of a registered family with allowed labels and a finite value; a cost is whole, in a named currency. */
  ghost predicate Acceptable(c: Catalogue, registered: set<string>, s: Sample) {
    && s.name in c.byName && s.name in registered && AllAllowed(c, s.name, s.labels, |s.labels|)
    && s.value.Finite? && (c.byName[s.name].minorUnits ==> IsWhole(s.value.x) && NamesCurrency(s.labels))
  }

  /** The rule a refused sample breaks, every earlier one being kept. */
  ghost predicate Broken(c: Catalogue, registered: set<string>, s: Sample, code: Code) {
    if s.name !in c.byName then code == NotCatalogued
    else if s.name !in registered then code == NotRegistered
    else if !AllAllowed(c, s.name, s.labels, |s.labels|) then exists i: nat :: LabelBlamed(c, s.name, s.labels, i, code)
    else if s.value.NonFinite? then code == NonFiniteValue
    else c.byName[s.name].minorUnits && if !IsWhole(s.value.x) then code == FloatCost
                                        else code == ImplicitCurrency && !NamesCurrency(s.labels)
  }

  lemma ValueJudged(f: Family, l: Labels, v: Number)
    ensures match ValueRefusal(f, l, v)
            case None => v.Finite? && (f.minorUnits ==> IsWhole(v.x) && NamesCurrency(l))
            case Some(code) =>
              if v.NonFinite? then code == NonFiniteValue
              else f.minorUnits && if !IsWhole(v.x) then code == FloatCost else code == ImplicitCurrency && !NamesCurrency(l)
  {
    CurrencyIs(l);
    if v.Finite? {
      WholeIsItsFloor(v.x);
    }
  }

  /** A sample is accepted exactly when it keeps every rule, and refused for the first one it breaks. */
  lemma RefusalIsEarned(c: Catalogue, registered: set<string>, s: Sample)
    ensures Refusal(c, registered, s).None? <==> Acceptable(c, registered, s)
    ensures Refusal(c, registered, s).Some? ==> Broken(c, registered, s, Refusal(c, registered, s).value)
  {
    if s.name in c.byName && s.name in registered {
      LabelsJudged(c, s.name, s.labels, |s.labels|);
      ValueJudged(c.byName[s.name], s.labels, s.value);
    }
  }

  // ---------------------------------------------------------------- every run

  /** The families registered so far: those of the catalogue that were asked for. */
  function Registered(c: Catalogue, calls: seq<Call>): set<string> {
    set name | name in c.byName && Registers(name) in calls
  }

  ghost predicate AcceptedAt(c: Catalogue, calls: seq<Call>, i: nat)
    requires i < |calls|
  {
    calls[i].Records? && Acceptable(c, Registered(c, calls[..i]), calls[i].sample)
  }

  lemma {:induction false} RegisteredAre(c: Catalogue, calls: seq<Call>)
    ensures After(c, calls).registered == Registered(c, calls)
  {
    if calls != [] {
      RegisteredAre(c, calls[..|calls| - 1]);
      assert forall call :: call in calls <==> call in calls[..|calls| - 1] || call == calls[|calls| - 1];
    }
  }

  lemma AcceptedIff(c: Catalogue, calls: seq<Call>, i: nat)
    requires i < |calls| && calls[i].Records?
    ensures AcceptedAt(c, calls, i) <==> Refusal(c, After(c, calls[..i]).registered, calls[i].sample).None?
  {
    RegisteredAre(c, calls[..i]);
    RefusalIsEarned(c, Registered(c, calls[..i]), calls[i].sample);
  }

  /** The samples that kept every rule when they were recorded, in the order of the calls. */
  ghost function AcceptedSamples(c: Catalogue, calls: seq<Call>): seq<Sample> {
    if calls == [] then []
    else
      var m := |calls| - 1;
      AcceptedSamples(c, calls[..m]) + if AcceptedAt(c, calls, m) then [calls[m].sample] else []
  }

  /** In every run the log is exactly these, and the index holds nothing else. */
  lemma {:induction false} LogIsTheAccepted(c: Catalogue, calls: seq<Call>)
    ensures After(c, calls).samples == AcceptedSamples(c, calls)
    ensures forall k :: k in After(c, calls).values ==>
              exists s :: s in AcceptedSamples(c, calls) && IndexKey(s.name, s.labels) == k
                          && s.value == After(c, calls).values[k]
  {
    if calls != [] {
      var m := |calls| - 1;
      LogIsTheAccepted(c, calls[..m]);
      if calls[m].Records? {
        AcceptedIff(c, calls, m);
      }
      var before, after := AcceptedSamples(c, calls[..m]), AcceptedSamples(c, calls);
      assert before <= after;
      assert AcceptedAt(c, calls, m) ==> after[|before|] == calls[m].sample;
    }
  }
}
