/** The local key provider: per-tenant key versions that are wrapped, rotated and shredded.
  *
  * Cryptography is ideal: a sealed blob remembers the key it was made with, the associated data and
  * the plaintext, is as long as its initialisation vector, tag and plaintext together, and passes
  * authentication under exactly that key and that data.  Random keys are fresh: the n-th
  * key drawn is the number n, and `owner[n]` is the tenant and version it was drawn for.
  */
module KeyProvider {
  import opened Wrappers
  import opened Text

  datatype Tenant = Tenant(id: string)
  type Version = int
  type Key = nat

  const IV_BYTES := 12
  const TAG_BYTES := 16

  /** A ciphertext this provider made, or bytes it did not make. */
  datatype Blob = Foreign(bytes: nat) | Sealed(key: Key, data: string, plaintext: string)

  function Length(b: Blob): nat {
    match b
    case Foreign(n) => n
    case Sealed(_, _, p) => IV_BYTES + TAG_BYTES + |p|
  }

  /** What `unwrap` answers: the plaintext, or why it throws. */
  datatype Opened = Plain(text: string) | KeyGone | TooShort | Unauthentic

  datatype WrappedKey = WrappedKey(tenant: Tenant, version: Version, data: string, dek: Key)
  datatype Digest = Digest(key: Key, value: string)
  datatype Operation = WrapOp(t: Tenant, v: Version) | RotateOp(t: Tenant, v: Version) | ShredOp(t: Tenant, v: Version)

  datatype Keys = Keys(
    deks: map<(Tenant, Version), Key>,
    active: map<Tenant, Version>,
    rotated: map<Tenant, seq<Version>>,
    shredded: map<Tenant, seq<Version>>,
    owner: seq<(Tenant, Version)>)

  const Empty := Keys(map[], map[], map[], map[], [])

  // ---------------------------------------------------------------- associated data

  function Signed(v: int): string {
    if v >= 0 then Decimal(v) else "-" + Decimal(-v)
  }

  function AssociatedData(t: Tenant, v: Version): string {
    "vg:" + t.id + ":" + Signed(v)
  }

  lemma SignedIsInjective(v: int, w: int)
    requires Signed(v) == Signed(w)
    ensures v == w
  {
    if v >= 0 {
      ValueOfDecimal(v);
      assert Decimal(v)[0] in Decimal(v);
    } else {
      ValueOfDecimal(-v);
      assert Signed(v)[1..] == Decimal(-v);
    }
    if w >= 0 {
      ValueOfDecimal(w);
      assert Decimal(w)[0] in Decimal(w);
    } else {
      ValueOfDecimal(-w);
      assert Signed(w)[1..] == Decimal(-w);
    }
  }

  lemma CutAtLast(a: string, x: string, b: string, y: string, c: char)
    requires a + [c] + x == b + [c] + y && c !in x && c !in y
    ensures a == b && x == y
  {
    var s := a + [c] + x;
    assert s[|a|] == c && s[|b|] == c;
    assert |a| == |b|;
    assert a == s[..|a|] && x == s[|a| + 1..];
  }

  /** The associated data names one tenant and one version, whatever characters the tenant id has. */
  lemma AssociatedDataIsInjective(t: Tenant, v: Version, u: Tenant, w: Version)
    requires AssociatedData(t, v) == AssociatedData(u, w)
    ensures t == u && v == w
  {
    var x, y := Signed(v), Signed(w);
    assert ("vg:" + t.id) + [':'] + x == AssociatedData(t, v);
    assert ("vg:" + u.id) + [':'] + y == AssociatedData(u, w);
    assert ':' !in x && ':' !in y;
    CutAtLast("vg:" + t.id, x, "vg:" + u.id, y, ':');
    assert t.id == ("vg:" + t.id)[3..] && u.id == ("vg:" + u.id)[3..];
    SignedIsInjective(v, w);
  }

  // ---------------------------------------------------------------- the operations on values

  function VersionsOf(m: map<Tenant, seq<Version>>, t: Tenant): seq<Version> {
    if t in m then m[t] else []
  }

  function Draw(k: Keys, t: Tenant, v: Version): Keys {
    k.(deks := k.deks[(t, v) := |k.owner|], owner := k.owner + [(t, v)])
  }

  /** `wrap` refuses exactly a shredded version that holds no material. */
  predicate WrapRefused(k: Keys, t: Tenant, v: Version) {
    (t, v) !in k.deks && v in VersionsOf(k.shredded, t)
  }

  function AfterWrap(k: Keys, t: Tenant, v: Version): Keys {
    if WrapRefused(k, t, v) then k
    else
      var drawn := if (t, v) in k.deks then k else Draw(k, t, v);
      drawn.(active := drawn.active[t := v])
  }

  function NextVersion(k: Keys, t: Tenant): Version {
    (if t in k.active then k.active[t] else 0) + 1
  }

  /** The rotation is recorded before the new version is wrapped, and stays recorded if that fails. */
  function AfterRotate(k: Keys, t: Tenant): Keys {
    var marked := if t in k.active then k.(rotated := k.rotated[t := VersionsOf(k.rotated, t) + [k.active[t]]]) else k;
    AfterWrap(marked, t, NextVersion(k, t))
  }

  function AfterShred(k: Keys, t: Tenant, v: Version): Keys {
    var listed := VersionsOf(k.shredded, t);
    k.(deks := k.deks - {(t, v)},
       shredded := k.shredded[t := if v in listed then listed else listed + [v]],
       active := if t in k.active && k.active[t] == v then k.active - {t} else k.active)
  }

  function HmacVersion(k: Keys, t: Tenant): Version {
    if t in k.active then k.active[t] else 1
  }

  function AfterHmac(k: Keys, t: Tenant): Keys {
    var v := HmacVersion(k, t);
    if (t, v) in k.deks then k else Draw(k, t, v)
  }

  function Seal(k: Keys, t: Tenant, v: Version, plaintext: string): Option<Blob> {
    if (t, v) in k.deks then Some(Sealed(k.deks[(t, v)], AssociatedData(t, v), plaintext)) else None
  }

  /** A body of no bytes counts as truncated. */
  function Open(k: Keys, t: Tenant, v: Version, b: Blob): Opened {
    if (t, v) !in k.deks then KeyGone
    else if Length(b) <= IV_BYTES + TAG_BYTES then TooShort
    else if b.Sealed? && b.key == k.deks[(t, v)] && b.data == AssociatedData(t, v) then Plain(b.plaintext)
    else Unauthentic
  }

  // ---------------------------------------------------------------- the provider

  class LocalFileKeyProvider {
    var deks: map<(Tenant, Version), Key>
    var active: map<Tenant, Version>
    var rotated: map<Tenant, seq<Version>>
    var shredded: map<Tenant, seq<Version>>
    var operations: seq<Operation>
    var drawn: nat
    ghost var owner: seq<(Tenant, Version)>

    ghost predicate Valid()
      reads this
    {
      |owner| == drawn
    }

    ghost function State(): Keys
      reads this
    {
      Keys(deks, active, rotated, shredded, owner)
    }

    constructor ()
      ensures Valid() && State() == Empty && operations == []
    {
      deks, active, rotated, shredded := map[], map[], map[], map[];
      operations, drawn, owner := [], 0, [];
    }

    /** Draw fresh key material for a version. */
    method Generate(t: Tenant, v: Version) returns (dek: Key)
      requires Valid()
      modifies this
      ensures Valid() && State() == Draw(old(State()), t, v) && operations == old(operations)
      ensures dek == deks[(t, v)]
    {
      dek := drawn;
      drawn := drawn + 1;
      deks := deks[(t, v) := dek];
      owner := owner + [(t, v)];
    }

    method UnwrapDek(w: WrappedKey, t: Tenant, v: Version) returns (dek: Option<Key>)
      ensures dek == if w.data == AssociatedData(t, v) then Some(w.dek) else None
    {
      dek := if w.data == AssociatedData(t, v) then Some(w.dek) else None;
    }

    method Wrap(t: Tenant, v: Version) returns (r: Option<WrappedKey>)
      requires Valid()
      modifies this
      ensures Valid() && State() == AfterWrap(old(State()), t, v)
      ensures r == None <==> WrapRefused(old(State()), t, v)
      ensures r.Some? ==> r == Some(WrappedKey(t, v, AssociatedData(t, v), deks[(t, v)])) && active[t] == v
      ensures operations == old(operations) +
                            if (t, v) in old(deks) || WrapRefused(old(State()), t, v) then [] else [WrapOp(t, v)]
    {
      var dek: Key;
      if (t, v) in deks {
        dek := deks[(t, v)];
      } else {
        if t in shredded && v in shredded[t] {
          return None;
        }
        dek := Generate(t, v);
        operations := operations + [WrapOp(t, v)];
      }
      active := active[t := v];
      var wrapped := WrappedKey(t, v, AssociatedData(t, v), dek);
      var back := UnwrapDek(wrapped, t, v);
      if back != Some(dek) {
        return None;
      }
      r := Some(wrapped);
    }

    method Encrypt(t: Tenant, v: Version, plaintext: string) returns (b: Option<Blob>)
      ensures b == Seal(State(), t, v, plaintext)
    {
      if (t, v) !in deks {
        return None;
      }
      b := Some(Sealed(deks[(t, v)], AssociatedData(t, v), plaintext));
    }

    method Unwrap(t: Tenant, v: Version, ciphertext: Blob) returns (p: Opened)
      ensures p == Open(State(), t, v, ciphertext)
    {
      if (t, v) !in deks {
        return KeyGone;
      }
      if Length(ciphertext) <= IV_BYTES + TAG_BYTES {
        return TooShort;
      }
      if ciphertext.Foreign? || ciphertext.key != deks[(t, v)] || ciphertext.data != AssociatedData(t, v) {
        return Unauthentic;
      }
      p := Plain(ciphertext.plaintext);
    }

    method Rotate(t: Tenant) returns (r: Option<WrappedKey>)
      requires Valid()
      modifies this
      ensures Valid() && State() == AfterRotate(old(State()), t)
      ensures r == None <==> WrapRefused(old(State()), t, NextVersion(old(State()), t))
      ensures r.Some? ==> r.value.version == active[t] == NextVersion(old(State()), t)
      ensures |operations| > |old(operations)| && operations[..|old(operations)| + 1]
                                                  == old(operations) + [RotateOp(t, NextVersion(old(State()), t))]
    {
      var next := (if t in active then active[t] else 0) + 1;
      if t in active {
        rotated := rotated[t := VersionsOf(rotated, t) + [active[t]]];
      }
      operations := operations + [RotateOp(t, next)];
      r := Wrap(t, next);
    }

    method Shred(t: Tenant, v: Version) returns (all: seq<Version>)
      requires Valid()
      modifies this
      ensures Valid() && State() == AfterShred(old(State()), t, v)
      ensures all == shredded[t] && v in all && operations == old(operations) + [ShredOp(t, v)]
    {
      deks := deks - {(t, v)};
      all := VersionsOf(shredded, t);
      if v !in all {
        all := all + [v];
      }
      shredded := shredded[t := all];
      operations := operations + [ShredOp(t, v)];
      if t in active && active[t] == v {
        active := active - {t};
      }
    }

    method Hmac(t: Tenant, value: string) returns (d: Digest)
      requires Valid()
      modifies this
      ensures Valid() && State() == AfterHmac(old(State()), t) && operations == old(operations)
      ensures d == Digest(deks[(t, HmacVersion(old(State()), t))], value)
    {
      var v := if t in active then active[t] else 1;
      var dek: Key;
      if (t, v) in deks {
        dek := deks[(t, v)];
      } else {
        dek := Generate(t, v);
      }
      d := Digest(dek, value);
    }
  }

  // ---------------------------------------------------------------- every run

  datatype Call =
    | Wrapping(t: Tenant, v: Version)
    | Rotating(t: Tenant)
    | Shredding(t: Tenant, v: Version)
    | Encrypting(t: Tenant, v: Version, plaintext: string)
    | Hashing(t: Tenant, value: string)

  /** A ciphertext somebody kept, and whether its version has been shredded since it was made. */
  datatype Kept = Kept(t: Tenant, v: Version, plaintext: string, blob: Blob, shreddedSince: bool)

  datatype World = World(keys: Keys, kept: seq<Kept>, digests: seq<(Tenant, Digest)>)

  const Begin := World(Empty, [], [])

  function MarkShredded(kept: seq<Kept>, t: Tenant, v: Version): seq<Kept> {
    seq(|kept|, i requires 0 <= i < |kept| =>
      if kept[i].t == t && kept[i].v == v then kept[i].(shreddedSince := true) else kept[i])
  }

  function Apply(w: World, c: Call): World {
    match c
    case Wrapping(t, v) => w.(keys := AfterWrap(w.keys, t, v))
    case Rotating(t) => w.(keys := AfterRotate(w.keys, t))
    case Shredding(t, v) => w.(keys := AfterShred(w.keys, t, v), kept := MarkShredded(w.kept, t, v))
    case Encrypting(t, v, p) =>
      (match Seal(w.keys, t, v, p)
       case None => w
       case Some(b) => w.(kept := w.kept + [Kept(t, v, p, b, false)]))
    case Hashing(t, x) =>
      var keys := AfterHmac(w.keys, t);
      World(keys, w.kept, w.digests + [(t, Digest(keys.deks[(t, HmacVersion(w.keys, t))], x))])
  }

  function After(calls: seq<Call>): World {
    if calls == [] then Begin else Apply(After(calls[..|calls| - 1]), calls[|calls| - 1])
  }

  ghost predicate KeysOwned(k: Keys) {
    forall p :: p in k.deks ==> k.deks[p] < |k.owner| && k.owner[k.deks[p]] == p
  }

  ghost predicate ActiveHaveMaterial(k: Keys) {
    forall t :: t in k.active ==> (t, k.active[t]) in k.deks
  }

  /** A shredded version holds material again only if it is version 1. */
  ghost predicate OnlyFirstRevived(k: Keys) {
    forall p :: p in k.deks && p.1 in VersionsOf(k.shredded, p.0) ==> p.1 == 1
  }

  ghost predicate KeptOk(k: Keys, m: Kept) {
    && m.blob.Sealed? && m.blob.data == AssociatedData(m.t, m.v) && m.blob.plaintext == m.plaintext
    && m.blob.key < |k.owner| && k.owner[m.blob.key] == (m.t, m.v)
    && ((m.t, m.v) in k.deks && k.deks[(m.t, m.v)] == m.blob.key <==> !m.shreddedSince)
    && (m.shreddedSince ==> m.v in VersionsOf(k.shredded, m.t))
  }

  ghost predicate KeptAllOk(w: World) {
    forall i :: 0 <= i < |w.kept| ==> KeptOk(w.keys, w.kept[i])
  }

  ghost predicate DigestsOwned(w: World) {
    forall i :: 0 <= i < |w.digests| ==>
      w.digests[i].1.key < |w.keys.owner| && w.keys.owner[w.digests[i].1.key].0 == w.digests[i].0
  }

  ghost predicate Inv(w: World) {
    && KeysOwned(w.keys) && ActiveHaveMaterial(w.keys) && OnlyFirstRevived(w.keys)
    && KeptAllOk(w) && DigestsOwned(w)
  }

  ghost predicate KeysInv(k: Keys) {
    KeysOwned(k) && ActiveHaveMaterial(k) && OnlyFirstRevived(k)
  }

  lemma DrawKeeps(k: Keys, t: Tenant, v: Version, m: Kept)
    requires KeysInv(k) && (t, v) !in k.deks && (v == 1 || v !in VersionsOf(k.shredded, t))
    ensures KeysInv(Draw(k, t, v))
    ensures KeptOk(k, m) ==> KeptOk(Draw(k, t, v), m)
  {
    var drawn := Draw(k, t, v);
    assert forall i :: 0 <= i < |k.owner| ==> drawn.owner[i] == k.owner[i];
  }

  lemma WrapKeeps(k: Keys, t: Tenant, v: Version, m: Kept)
    requires KeysInv(k)
    ensures KeysInv(AfterWrap(k, t, v))
    ensures KeptOk(k, m) ==> KeptOk(AfterWrap(k, t, v), m)
  {
    if (t, v) !in k.deks && !WrapRefused(k, t, v) {
      DrawKeeps(k, t, v, m);
    }
  }

  lemma HmacKeeps(k: Keys, t: Tenant, m: Kept)
    requires KeysInv(k)
    ensures KeysInv(AfterHmac(k, t))
    ensures KeptOk(k, m) ==> KeptOk(AfterHmac(k, t), m)
  {
    if (t, HmacVersion(k, t)) !in k.deks {
      DrawKeeps(k, t, HmacVersion(k, t), m);
    }
  }

  lemma ShredKeeps(k: Keys, t: Tenant, v: Version, m: Kept)
    requires KeysInv(k)
    ensures KeysInv(AfterShred(k, t, v))
    ensures KeptOk(k, m) && (m.t, m.v) != (t, v) ==> KeptOk(AfterShred(k, t, v), m)
    ensures KeptOk(k, m) && (m.t, m.v) == (t, v) ==> KeptOk(AfterShred(k, t, v), m.(shreddedSince := true))
  {
  }

  /** Nobody's ciphertext: any will do where only the keys matter. */
  const NOTHING := Kept(Tenant(""), 0, "", Foreign(0), false)

  lemma WrapKeepsAll(w: World, k: Keys, t: Tenant, v: Version)
    requires KeysInv(k) && forall i :: 0 <= i < |w.kept| ==> KeptOk(k, w.kept[i])
    ensures KeysInv(AfterWrap(k, t, v)) && forall i :: 0 <= i < |w.kept| ==> KeptOk(AfterWrap(k, t, v), w.kept[i])
  {
    WrapKeeps(k, t, v, NOTHING);
    forall i | 0 <= i < |w.kept|
      ensures KeptOk(AfterWrap(k, t, v), w.kept[i])
    {
      WrapKeeps(k, t, v, w.kept[i]);
    }
  }

  lemma HmacKeepsAll(w: World, t: Tenant)
    requires Inv(w)
    ensures KeysInv(AfterHmac(w.keys, t)) && forall i :: 0 <= i < |w.kept| ==> KeptOk(AfterHmac(w.keys, t), w.kept[i])
  {
    HmacKeeps(w.keys, t, NOTHING);
    forall i | 0 <= i < |w.kept|
      ensures KeptOk(AfterHmac(w.keys, t), w.kept[i])
    {
      HmacKeeps(w.keys, t, w.kept[i]);
    }
  }

  lemma ShredKeepsAll(w: World, t: Tenant, v: Version)
    requires Inv(w)
    ensures KeysInv(AfterShred(w.keys, t, v))
    ensures var marked := MarkShredded(w.kept, t, v);
            forall i :: 0 <= i < |marked| ==> KeptOk(AfterShred(w.keys, t, v), marked[i])
  {
    ShredKeeps(w.keys, t, v, NOTHING);
    forall i | 0 <= i < |w.kept|
      ensures KeptOk(AfterShred(w.keys, t, v), MarkShredded(w.kept, t, v)[i])
    {
      ShredKeeps(w.keys, t, v, w.kept[i]);
    }
  }

  lemma StepKeepsKeys(w: World, c: Call)
    requires Inv(w)
    ensures KeysInv(Apply(w, c).keys) && KeptAllOk(Apply(w, c))
  {
    match c
    case Wrapping(t, v) => WrapKeepsAll(w, w.keys, t, v);
    case Rotating(t) =>
      var marked := w.keys.(rotated := AfterRotate(w.keys, t).rotated);
      assert AfterRotate(w.keys, t) == AfterWrap(marked, t, NextVersion(w.keys, t));
      WrapKeepsAll(w, marked, t, NextVersion(w.keys, t));
    case Shredding(t, v) => ShredKeepsAll(w, t, v);
    case Encrypting(t, v, p) =>
    case Hashing(t, x) => HmacKeepsAll(w, t);
  }

  /** Drawn keys stay drawn, each for the version it was drawn for. */
  lemma OwnersStay(w: World, c: Call)
    ensures |w.keys.owner| <= |Apply(w, c).keys.owner|
    ensures forall i :: 0 <= i < |w.keys.owner| ==> Apply(w, c).keys.owner[i] == w.keys.owner[i]
  {
    match c
    case Wrapping(_, _) =>
    case Rotating(_) =>
    case Shredding(_, _) =>
    case Encrypting(_, _, _) =>
    case Hashing(_, _) =>
  }

  /** A digest is made with a key drawn for its own tenant. */
  lemma NewDigestIsOwned(k: Keys, t: Tenant)
    requires KeysInv(k)
    ensures var keys, p := AfterHmac(k, t), (t, HmacVersion(k, t));
            p in keys.deks && keys.deks[p] < |keys.owner| && keys.owner[keys.deks[p]] == p
  {
  }

  lemma StepKeepsDigests(w: World, c: Call)
    requires Inv(w)
    ensures DigestsOwned(Apply(w, c))
  {
    OwnersStay(w, c);
    if c.Hashing? {
      NewDigestIsOwned(w.keys, c.t);
    }
  }

  lemma StepKeepsInv(w: World, c: Call)
    requires Inv(w)
    ensures Inv(Apply(w, c))
  {
    StepKeepsKeys(w, c);
    StepKeepsDigests(w, c);
  }

  lemma {:induction false} RunKeepsInv(calls: seq<Call>)
    ensures Inv(After(calls))
  {
    if calls != [] {
      RunKeepsInv(calls[..|calls| - 1]);
      StepKeepsInv(After(calls[..|calls| - 1]), calls[|calls| - 1]);
    }
  }

  /** After any run, a kept ciphertext opens exactly under the tenant and version it was made for, while
    * that version has not been shredded since, unless it holds nothing; what opens is what was sealed. */
  lemma OpensIff(calls: seq<Call>, i: nat, t: Tenant, v: Version)
    requires i < |After(calls).kept|
    ensures var w := After(calls);
            var m := w.kept[i];
            && (Open(w.keys, t, v, m.blob).Plain? <==> t == m.t && v == m.v && !m.shreddedSince && m.plaintext != "")
            && (Open(w.keys, t, v, m.blob).Plain? ==> Open(w.keys, t, v, m.blob).text == m.plaintext)
            && (Open(w.keys, t, v, m.blob).TooShort? <==> (t, v) in w.keys.deks && m.plaintext == "")
  {
    RunKeepsInv(calls);
    var w := After(calls);
    if (t, v) in w.keys.deks && w.keys.deks[(t, v)] == w.kept[i].blob.key {
      assert w.keys.owner[w.keys.deks[(t, v)]] == (t, v);
    }
  }

  /** After any run, the active version of a tenant has material: `encrypt` under it succeeds. */
  lemma ActiveVersionsEncrypt(calls: seq<Call>, t: Tenant, plaintext: string)
    requires t in After(calls).keys.active
    ensures Seal(After(calls).keys, t, After(calls).keys.active[t], plaintext).Some?
  {
    RunKeepsInv(calls);
  }

  /** An empty plaintext is accepted under any active version, and whatever happens afterwards no tenant and
    * no version ever opens the result; any other plaintext can be read back at once. */
  lemma EmptyPlaintextIsLost(calls: seq<Call>, t: Tenant, plaintext: string, later: seq<Call>, u: Tenant, w: Version)
    requires t in After(calls).keys.active
    ensures var k := After(calls).keys;
            var sealed := Seal(k, t, k.active[t], plaintext);
            && sealed.Some?
            && (Open(k, t, k.active[t], sealed.value) == Plain(plaintext) <==> plaintext != "")
            && (plaintext == "" ==> !Open(After(calls + later).keys, u, w, sealed.value).Plain?)
  {
    ActiveVersionsEncrypt(calls, t, plaintext);
  }

  /** After any run, digests made for different tenants differ, even of the same value. */
  lemma DigestsSeparateTenants(calls: seq<Call>, i: nat, j: nat)
    requires i < |After(calls).digests| && j < |After(calls).digests|
    requires After(calls).digests[i].0 != After(calls).digests[j].0
    ensures After(calls).digests[i].1 != After(calls).digests[j].1
  {
    RunKeepsInv(calls);
  }

  /** After any run, a shredded version other than 1 has no material, is not active, and stays so
    * whatever single call comes next. */
  lemma ShreddedStaysDead(calls: seq<Call>, c: Call, t: Tenant, v: Version)
    requires v != 1 && v in VersionsOf(After(calls).keys.shredded, t)
    ensures WrapRefused(After(calls).keys, t, v)
    ensures var k := After(calls + [c]).keys;
            v in VersionsOf(k.shredded, t) && (t, v) !in k.deks && (t in k.active ==> k.active[t] != v)
  {
    RunKeepsInv(calls);
    RunKeepsInv(calls + [c]);
    assert (calls + [c])[..|calls|] == calls;
  }

  /** Version 1 is the exception: `hmac` draws new material for a shredded version exactly when the
    * tenant has no active version, version 1 is on its shredded list, and that version holds nothing. */
  lemma HmacRevivesIff(calls: seq<Call>, t: Tenant)
    ensures var k := After(calls).keys;
            (exists v :: WrapRefused(k, t, v) && (t, v) in AfterHmac(k, t).deks)
            <==> t !in k.active && 1 in VersionsOf(k.shredded, t) && (t, 1) !in k.deks
  {
    RunKeepsInv(calls);
    var k := After(calls).keys;
    if t !in k.active && 1 in VersionsOf(k.shredded, t) && (t, 1) !in k.deks {
      assert WrapRefused(k, t, 1) && (t, 1) in AfterHmac(k, t).deks;
    }
  }

  /** The promise "a shredded version is never recreated" fails for version 1. */
  lemma ShreddedVersionOneComesBack(t: Tenant)
    ensures var calls := [Wrapping(t, 1), Shredding(t, 1), Hashing(t, "x"), Wrapping(t, 1)];
            var k := After(calls).keys;
            1 in VersionsOf(k.shredded, t) && (t, 1) in k.deks && t in k.active && k.active[t] == 1
  {
    var calls := [Wrapping(t, 1), Shredding(t, 1), Hashing(t, "x"), Wrapping(t, 1)];
    assert calls[..3][..2] == calls[..2] && calls[..2][..1] == calls[..1] && calls[..1][..0] == [];
    assert After(calls[..1]) == Apply(Begin, Wrapping(t, 1));
    var k1 := After(calls[..1]).keys;
    assert k1 == AfterWrap(Empty, t, 1);
    var k2 := After(calls[..2]).keys;
    assert k2 == AfterShred(k1, t, 1);
    var k3 := After(calls[..3]).keys;
    assert k3 == AfterHmac(k2, t);
  }

  /** Rotation draws a fresh key exactly when the next version holds nothing and is not shredded; with
    * no active version the next version is 1 again. */
  lemma RotateIsFreshIff(calls: seq<Call>, t: Tenant)
    ensures var k := After(calls).keys;
            var next := NextVersion(k, t);
            && (t !in k.active ==> next == 1)
            && (AfterRotate(k, t).owner == k.owner + [(t, next)] <==>
                (t, next) !in k.deks && next !in VersionsOf(k.shredded, t))
            && (AfterRotate(k, t).owner == k.owner <==> (t, next) in k.deks || next in VersionsOf(k.shredded, t))
  {
    var k := After(calls).keys;
    assert |k.owner + [(t, NextVersion(k, t))]| != |k.owner|;
  }
}
