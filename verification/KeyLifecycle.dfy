/** The life of a key version, told by the calls alone: what is active, what has material, what was shredded. */
module KeyLifecycle {
  import opened Wrappers
  import opened KeyProvider

  function KeysAfter(calls: seq<Call>): Keys { After(calls).keys }

  predicate Shredded(k: Keys, t: Tenant, v: Version) { t in k.shredded && v in k.shredded[t] }

  /** A version that was shredded and holds nothing cannot be wrapped. */
  predicate Dead(k: Keys, t: Tenant, v: Version) { Shredded(k, t, v) && (t, v) !in k.deks }

  /** Call `c` asks for version `v` of `t`: named, or the one after the active version, or the first. */
  predicate AsksFor(k: Keys, c: Call, t: Tenant, v: Version) {
    || c == Wrapping(t, v)
    || (c == Rotating(t) && v == if t in k.active then k.active[t] + 1 else 1)
  }

  /** Call `c` makes `v` the active version of `t`. */
  predicate Activates(k: Keys, c: Call, t: Tenant, v: Version) { AsksFor(k, c, t, v) && !Dead(k, t, v) }

  /** Call `c` needs material for version `v` of `t`: a digest uses the active version, or the first. */
  predicate Supplies(k: Keys, c: Call, t: Tenant, v: Version) {
    || Activates(k, c, t, v)
    || (c.Hashing? && c.t == t && v == if t in k.active then k.active[t] else 1)
  }

  // ---------------------------------------------------------------- one call

  ghost predicate ActiveEffect(k: Keys, c: Call, l: Keys) {
    forall t, v :: t in l.active && l.active[t] == v <==>
      || Activates(k, c, t, v)
      || (t in k.active && k.active[t] == v && c != Shredding(t, v) && forall w :: !Activates(k, c, t, w))
  }

  ghost predicate MaterialEffect(k: Keys, c: Call, l: Keys) {
    && (forall t, v :: (t, v) in l.deks <==> Supplies(k, c, t, v) || ((t, v) in k.deks && c != Shredding(t, v)))
    && (forall t, v :: (t, v) in l.deks ==> l.deks[(t, v)] == if (t, v) in k.deks then k.deks[(t, v)] else |k.owner|)
  }

  ghost predicate ListEffect(k: Keys, c: Call, l: Keys) {
    && (forall t, v :: Shredded(l, t, v) <==> Shredded(k, t, v) || c == Shredding(t, v))
    && (forall t :: VersionsOf(l.rotated, t) == VersionsOf(k.rotated, t)
                    + if c == Rotating(t) && t in k.active then [k.active[t]] else [])
  }

  /** Everything one call does to what is active, to the material and to the two lists. */
  ghost predicate Effect(k: Keys, c: Call, l: Keys) {
    ActiveEffect(k, c, l) && MaterialEffect(k, c, l) && ListEffect(k, c, l)
  }

  lemma WrapEffect(k: Keys, t: Tenant, v: Version)
    ensures Effect(k, Wrapping(t, v), AfterWrap(k, t, v))
  {
    assert Activates(k, Wrapping(t, v), t, v) <==> !Dead(k, t, v);
  }

  lemma RotateActive(k: Keys, t: Tenant)
    ensures ActiveEffect(k, Rotating(t), AfterRotate(k, t))
  {
    var next := if t in k.active then k.active[t] + 1 else 1;
    assert Activates(k, Rotating(t), t, next) <==> !Dead(k, t, next);
  }

  lemma RotateMaterial(k: Keys, t: Tenant)
    ensures MaterialEffect(k, Rotating(t), AfterRotate(k, t))
  {
  }

  lemma RotateLists(k: Keys, t: Tenant)
    ensures ListEffect(k, Rotating(t), AfterRotate(k, t))
  {
  }

  lemma RotateEffect(k: Keys, t: Tenant)
    ensures Effect(k, Rotating(t), AfterRotate(k, t))
  {
    RotateActive(k, t);
    RotateMaterial(k, t);
    RotateLists(k, t);
  }

  lemma ShredEffect(k: Keys, t: Tenant, v: Version)
    ensures Effect(k, Shredding(t, v), AfterShred(k, t, v))
  {
  }

  lemma HmacEffect(k: Keys, t: Tenant, x: string)
    ensures Effect(k, Hashing(t, x), AfterHmac(k, t))
  {
  }

  lemma CallEffect(w: World, c: Call)
    ensures Effect(w.keys, c, Apply(w, c).keys)
  {
    match c
    case Wrapping(t, v) => WrapEffect(w.keys, t, v);
    case Rotating(t) => RotateEffect(w.keys, t);
    case Shredding(t, v) => ShredEffect(w.keys, t, v);
    case Encrypting(_, _, _) =>
    case Hashing(t, x) => HmacEffect(w.keys, t, x);
  }

  // ---------------------------------------------------------------- every run

  /** Call `i` made `v` the active version of `t`, and no later call made another one active or shredded it. */
  ghost predicate LastActivation(calls: seq<Call>, i: nat, t: Tenant, v: Version)
    requires i < |calls|
  {
    && Activates(KeysAfter(calls[..i]), calls[i], t, v)
    && forall j :: i < j < |calls| ==>
         calls[j] != Shredding(t, v) && forall w :: !Activates(KeysAfter(calls[..j]), calls[j], t, w)
  }

  /** Call `i` needed material for version `v` of `t`, and no later call shredded it. */
  ghost predicate LastSupply(calls: seq<Call>, i: nat, t: Tenant, v: Version)
    requires i < |calls|
  {
    && Supplies(KeysAfter(calls[..i]), calls[i], t, v)
    && forall j :: i < j < |calls| ==> calls[j] != Shredding(t, v)
  }

  ghost predicate WasActivated(calls: seq<Call>, t: Tenant, v: Version) {
    exists i: nat :: i < |calls| && LastActivation(calls, i, t, v)
  }

  ghost predicate WasSupplied(calls: seq<Call>, t: Tenant, v: Version) {
    exists i: nat :: i < |calls| && LastSupply(calls, i, t, v)
  }

  lemma PrefixOf(calls: seq<Call>, c: Call, i: nat)
    requires i <= |calls|
    ensures (calls + [c])[..i] == calls[..i]
  {
  }

  lemma ActivatedNext(calls: seq<Call>, c: Call, t: Tenant, v: Version)
    ensures WasActivated(calls + [c], t, v) <==>
            || Activates(KeysAfter(calls), c, t, v)
            || (WasActivated(calls, t, v) && c != Shredding(t, v) && forall w :: !Activates(KeysAfter(calls), c, t, w))
  {
    var all := calls + [c];
    assert all[..|calls|] == calls;
    forall i: nat | i < |calls|
      ensures all[..i] == calls[..i] && all[i] == calls[i]
    {
      PrefixOf(calls, c, i);
    }
    if Activates(KeysAfter(calls), c, t, v) {
      assert LastActivation(all, |calls|, t, v);
    }
    if WasActivated(calls, t, v) && c != Shredding(t, v) && forall w :: !Activates(KeysAfter(calls), c, t, w) {
      var i: nat :| i < |calls| && LastActivation(calls, i, t, v);
      assert LastActivation(all, i, t, v);
    }
    if WasActivated(all, t, v) {
      var i: nat :| i < |all| && LastActivation(all, i, t, v);
      if i < |calls| {
        assert LastActivation(calls, i, t, v);
        assert all[|calls|] == c;
      }
    }
  }

  lemma SuppliedNext(calls: seq<Call>, c: Call, t: Tenant, v: Version)
    ensures WasSupplied(calls + [c], t, v) <==>
            Supplies(KeysAfter(calls), c, t, v) || (WasSupplied(calls, t, v) && c != Shredding(t, v))
  {
    var all := calls + [c];
    assert all[..|calls|] == calls;
    forall i: nat | i < |calls|
      ensures all[..i] == calls[..i] && all[i] == calls[i]
    {
      PrefixOf(calls, c, i);
    }
    if Supplies(KeysAfter(calls), c, t, v) {
      assert LastSupply(all, |calls|, t, v);
    }
    if WasSupplied(calls, t, v) && c != Shredding(t, v) {
      var i: nat :| i < |calls| && LastSupply(calls, i, t, v);
      assert LastSupply(all, i, t, v);
    }
    if WasSupplied(all, t, v) {
      var i: nat :| i < |all| && LastSupply(all, i, t, v);
      if i < |calls| {
        assert LastSupply(calls, i, t, v);
        assert all[|calls|] == c;
      }
    }
  }

  lemma RunNext(calls: seq<Call>)
    requires calls != []
    ensures var init, c := calls[..|calls| - 1], calls[|calls| - 1];
            calls == init + [c] && Effect(KeysAfter(init), c, KeysAfter(calls))
  {
    CallEffect(After(calls[..|calls| - 1]), calls[|calls| - 1]);
  }

  /** After any run, a version is active exactly if some call made it so and no later call made another one active
    * or shredded it. */
  lemma {:induction false} ActiveIff(calls: seq<Call>, t: Tenant, v: Version)
    ensures var k := KeysAfter(calls);
            t in k.active && k.active[t] == v <==> WasActivated(calls, t, v)
  {
    if calls != [] {
      ActiveIff(calls[..|calls| - 1], t, v);
      RunNext(calls);
      ActivatedNext(calls[..|calls| - 1], calls[|calls| - 1], t, v);
    }
  }

  /** After any run, a version has material exactly if some call needed it and no later call shredded it. */
  lemma {:induction false} MaterialIff(calls: seq<Call>, t: Tenant, v: Version)
    ensures (t, v) in KeysAfter(calls).deks <==> WasSupplied(calls, t, v)
  {
    if calls != [] {
      MaterialIff(calls[..|calls| - 1], t, v);
      RunNext(calls);
      SuppliedNext(calls[..|calls| - 1], calls[|calls| - 1], t, v);
    }
  }

  /** After any run, a version is on the shredded list exactly if a call shredded it. */
  lemma {:induction false} ShreddedIff(calls: seq<Call>, t: Tenant, v: Version)
    ensures Shredded(KeysAfter(calls), t, v) <==> Shredding(t, v) in calls
  {
    if calls != [] {
      ShreddedIff(calls[..|calls| - 1], t, v);
      RunNext(calls);
    }
  }

  /** The versions that each rotation of `t` found active, in order. */
  function RotatedAway(calls: seq<Call>, t: Tenant): seq<Version> {
    if calls == [] then []
    else
      var init, c := calls[..|calls| - 1], calls[|calls| - 1];
      var k := KeysAfter(init);
      RotatedAway(init, t) + if c == Rotating(t) && t in k.active then [k.active[t]] else []
  }

  lemma {:induction false} RotatedIs(calls: seq<Call>, t: Tenant)
    ensures VersionsOf(KeysAfter(calls).rotated, t) == RotatedAway(calls, t)
  {
    if calls != [] {
      RotatedIs(calls[..|calls| - 1], t);
      RunNext(calls);
    }
  }

  /** Material is never replaced: while no call shreds it, a version keeps the key it has. */
  lemma {:induction false} KeyStays(calls: seq<Call>, later: seq<Call>, t: Tenant, v: Version)
    requires (t, v) in KeysAfter(calls).deks && Shredding(t, v) !in later
    ensures (t, v) in KeysAfter(calls + later).deks && KeysAfter(calls + later).deks[(t, v)] == KeysAfter(calls).deks[(t, v)]
    decreases |later|
  {
    if later == [] {
      assert calls + later == calls;
    } else {
      var init := later[..|later| - 1];
      KeyStays(calls, init, t, v);
      assert (calls + later)[..|calls + later| - 1] == calls + init;
      RunNext(calls + later);
    }
  }

  /** Rotation moves to the successor of the active version, or to version 1 if there is none, unless that version is
    * dead; then nothing but the list of rotated versions changes. */
  lemma RotateIsSuccessor(calls: seq<Call>, t: Tenant)
    ensures var k, l := KeysAfter(calls), KeysAfter(calls + [Rotating(t)]);
            var next := if t in k.active then k.active[t] + 1 else 1;
            if Dead(k, t, next) then l.active == k.active && l.deks == k.deks
            else t in l.active && l.active[t] == next && (t, next) in l.deks
  {
    var k, l := KeysAfter(calls), KeysAfter(calls + [Rotating(t)]);
    var next := if t in k.active then k.active[t] + 1 else 1;
    assert (calls + [Rotating(t)])[..|calls|] == calls;
    RunNext(calls + [Rotating(t)]);
    assert Activates(k, Rotating(t), t, next) <==> !Dead(k, t, next);
  }

  /** A digest is made with the key of the active version, or of the first one if none is active. */
  lemma DigestIsKeyed(calls: seq<Call>, t: Tenant, x: string)
    ensures var k, w := KeysAfter(calls), After(calls + [Hashing(t, x)]);
            var v := if t in k.active then k.active[t] else 1;
            && (t, v) in w.keys.deks
            && w.digests == After(calls).digests + [(t, Digest(w.keys.deks[(t, v)], x))]
  {
    assert (calls + [Hashing(t, x)])[..|calls|] == calls;
  }

  /** What is read back under each version: no key at all exactly if the version was never supplied or has been
    * shredded since; and bytes that no `encrypt` made are never opened. */
  lemma ReadingFails(calls: seq<Call>, t: Tenant, v: Version, b: Blob)
    ensures Open(KeysAfter(calls), t, v, b) == KeyGone <==> !WasSupplied(calls, t, v)
    ensures WasSupplied(calls, t, v) && b.Foreign? ==>
            Open(KeysAfter(calls), t, v, b) == if b.bytes <= 28 then TooShort else Unauthentic
  {
    MaterialIff(calls, t, v);
  }
}
