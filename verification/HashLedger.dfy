/** The hash-chained ledger: each entry carries the hash of the previous one and of itself.
  *
  * The digest of an entry's canonical form is any function; what is assumed of it is stated where needed.
  */
module HashLedger {
  import opened Wrappers

  datatype Json = Str(text: string) | Other(raw: string)

  /** The eight required keys of an entry, and any other. */
  datatype Key = EventId | TimestampUtc | AgentId | Mode | NodeId | EventKind | PreviousEventHash | EventHash | Extra(name: string)

  type Entry = map<Key, Json>

  type Digest = Entry -> string

  const REQUIRED: seq<Key> := [EventId, TimestampUtc, AgentId, Mode, NodeId, EventKind, PreviousEventHash, EventHash]

  predicate HasAll(e: Entry) {
    && EventId in e && TimestampUtc in e && AgentId in e && Mode in e && NodeId in e && EventKind in e
    && PreviousEventHash in e && EventHash in e
  }

  /** The entry that is hashed: its own hash blanked. */
  function Blanked(e: Entry): Entry { e[EventHash := Str("")] }

  datatype Verdict = Valid | Unparsable(line: nat) | Missing(line: nat) | WrongPrevious(line: nat) | WrongHash(line: nat)

  /** What is wrong with an entry that follows `prev`, if anything. */
  function Check(e: Option<Entry>, prev: string, line: nat, digest: Digest): Verdict {
    if e.None? then Unparsable(line)
    else if !HasAll(e.value) then Missing(line)
    else if e.value[PreviousEventHash] != Str(prev) then WrongPrevious(line)
    else if e.value[EventHash] != Str(digest(Blanked(e.value))) then WrongHash(line)
    else Valid
  }

  /** The hash a ledger ends in; the empty string before the first entry. */
  function LastHash(lines: seq<Option<Entry>>): string {
    if lines == [] then ""
    else
      match lines[|lines| - 1]
      case Some(e) => if EventHash in e && e[EventHash].Str? then e[EventHash].text else ""
      case None => ""
  }

  /** Every entry fits the one before it. */
  ghost predicate Accepted(lines: seq<Option<Entry>>, digest: Digest) {
    forall i :: 0 <= i < |lines| ==> FitsAt(lines, i, digest)
  }

  method FindMissing(e: Entry) returns (missing: bool)
    ensures missing <==> !HasAll(e)
  {
    for k := 0 to |REQUIRED|
      invariant forall j :: 0 <= j < k ==> REQUIRED[j] in e
    {
      if REQUIRED[k] !in e {
        return true;
      }
    }
    assert REQUIRED[0] in e && REQUIRED[1] in e && REQUIRED[2] in e && REQUIRED[3] in e;
    assert REQUIRED[4] in e && REQUIRED[5] in e && REQUIRED[6] in e && REQUIRED[7] in e;
    return false;
  }

  /** Accepts exactly the well-chained ledgers, and otherwise names the first line that breaks the chain. */
  method Validate(lines: seq<Option<Entry>>, digest: Digest) returns (v: Verdict)
    ensures v == Valid <==> Accepted(lines, digest)
    ensures v != Valid ==> 1 <= v.line <= |lines| && Accepted(lines[..v.line - 1], digest)
                           && v == Check(lines[v.line - 1], LastHash(lines[..v.line - 1]), v.line, digest)
  {
    var prev := "";
    var lineNo := 0;
    while lineNo < |lines|
      invariant lineNo <= |lines| && prev == LastHash(lines[..lineNo]) && Accepted(lines[..lineNo], digest)
    {
      var raw := lines[lineNo];
      lineNo := lineNo + 1;
      AcceptedGrows(lines, lineNo - 1, digest);
      if raw.None? { return Unparsable(lineNo); }
      var obj := raw.value;
      var missing := FindMissing(obj);
      if missing { return Missing(lineNo); }
      if obj[PreviousEventHash] != Str(prev) { return WrongPrevious(lineNo); }
      var claimed := obj[EventHash];
      var actual := digest(Blanked(obj));
      if Str(actual) != claimed { return WrongHash(lineNo); }
      prev := actual;
    }
    assert lines[..lineNo] == lines;
    return Valid;
  }

  ghost predicate FitsAt(lines: seq<Option<Entry>>, i: nat, digest: Digest)
    requires i < |lines|
  {
    Check(lines[i], LastHash(lines[..i]), i + 1, digest) == Valid
  }

  /** The keys every entry has to carry. */
  predicate CarriesAll(e: Entry) {
    {EventId, TimestampUtc, AgentId, Mode, NodeId, EventKind, PreviousEventHash, EventHash} <= e.Keys
  }

  /** The first line that breaks the chain is blamed for the first of these it fails. */
  lemma CheckBlames(e: Option<Entry>, prev: string, line: nat, digest: Digest)
    ensures match Check(e, prev, line, digest)
            case Unparsable(n) => n == line && e.None?
            case Missing(n) => n == line && e.Some? && !CarriesAll(e.value)
            case WrongPrevious(n) => n == line && e.Some? && CarriesAll(e.value) && e.value[PreviousEventHash] != Str(prev)
            case WrongHash(n) =>
              && n == line && e.Some? && CarriesAll(e.value) && e.value[PreviousEventHash] == Str(prev)
              && e.value[EventHash] != Str(digest(e.value[EventHash := Str("")]))
            case Valid =>
              && e.Some? && CarriesAll(e.value) && e.value[PreviousEventHash] == Str(prev)
              && e.value[EventHash] == Str(digest(e.value[EventHash := Str("")]))
  {
    if e.Some? {
      assert HasAll(e.value) <==> CarriesAll(e.value);
    }
  }

  /** Entry `i` carries every key, its own hash, and the hash of the entry before it. */
  predicate LinkedAt(lines: seq<Option<Entry>>, i: nat, digest: Digest)
    requires i < |lines|
  {
    && lines[i].Some? && CarriesAll(lines[i].value)
    && lines[i].value[EventHash] == Str(digest(lines[i].value[EventHash := Str("")]))
    && if i == 0 then lines[i].value[PreviousEventHash] == Str("")
       else lines[i - 1].Some? && EventHash in lines[i - 1].value
            && lines[i].value[PreviousEventHash] == lines[i - 1].value[EventHash]
  }

  lemma FitsIsLinked(lines: seq<Option<Entry>>, i: nat, digest: Digest)
    requires i < |lines| && (i > 0 ==> FitsAt(lines, i - 1, digest))
    ensures FitsAt(lines, i, digest) <==> LinkedAt(lines, i, digest)
  {
    CheckBlames(lines[i], LastHash(lines[..i]), i + 1, digest);
    if i > 0 {
      CheckBlames(lines[i - 1], LastHash(lines[..i - 1]), i, digest);
      assert lines[..i][i - 1] == lines[i - 1];
    }
  }

  /** A ledger is accepted exactly when every entry is linked to the one before it. */
  lemma {:induction false} AcceptedIsLinked(lines: seq<Option<Entry>>, n: nat, digest: Digest)
    requires n <= |lines|
    ensures (forall i :: 0 <= i < n ==> FitsAt(lines, i, digest)) <==> forall i :: 0 <= i < n ==> LinkedAt(lines, i, digest)
  {
    if n > 0 {
      AcceptedIsLinked(lines, n - 1, digest);
      if forall i :: 0 <= i < n - 1 ==> FitsAt(lines, i, digest) {
        FitsIsLinked(lines, n - 1, digest);
      }
    }
  }

  lemma AcceptedIff(lines: seq<Option<Entry>>, digest: Digest)
    ensures Accepted(lines, digest) <==> forall i :: 0 <= i < |lines| ==> LinkedAt(lines, i, digest)
  {
    AcceptedIsLinked(lines, |lines|, digest);
  }

  lemma FitsInPrefix(lines: seq<Option<Entry>>, n: nat, i: nat, digest: Digest)
    requires i < n <= |lines|
    ensures FitsAt(lines[..n], i, digest) <==> FitsAt(lines, i, digest)
  {
    assert lines[..n][..i] == lines[..i];
  }

  /** A ledger is accepted up to a line exactly when it is accepted before it and that line fits. */
  lemma AcceptedGrows(lines: seq<Option<Entry>>, n: nat, digest: Digest)
    requires n < |lines|
    ensures Accepted(lines[..n + 1], digest) <==> Accepted(lines[..n], digest) && FitsAt(lines, n, digest)
    ensures Accepted(lines, digest) ==> Accepted(lines[..n + 1], digest)
  {
    var shorter, longer := lines[..n], lines[..n + 1];
    forall i | 0 <= i <= n
      ensures FitsAt(longer, i, digest) <==> FitsAt(lines, i, digest)
      ensures i < n ==> (FitsAt(shorter, i, digest) <==> FitsAt(longer, i, digest))
    {
      FitsInPrefix(lines, n + 1, i, digest);
      if i < n {
        FitsInPrefix(lines, n, i, digest);
      }
    }
    if Accepted(longer, digest) {
      assert FitsAt(longer, n, digest);
      assert forall i :: 0 <= i < n ==> FitsAt(longer, i, digest);
    }
  }

  /** Every prefix of an accepted ledger is accepted: the chain alone does not show a truncation. */
  lemma PrefixIsAccepted(lines: seq<Option<Entry>>, n: nat, digest: Digest)
    requires n <= |lines| && Accepted(lines, digest)
    ensures Accepted(lines[..n], digest)
  {
    forall i | 0 <= i < n
      ensures FitsAt(lines[..n], i, digest)
    {
      FitsInPrefix(lines, n, i, digest);
    }
  }

  ghost predicate CollisionFree(digest: Digest) {
    && (forall a, b :: digest(a) == digest(b) ==> a == b)
    && (forall a :: digest(a) != "")
  }

  /** An accepted entry is determined by its hash. */
  lemma EntryFromHash(a: Entry, b: Entry, p: string, q: string, i: nat, j: nat, digest: Digest)
    requires CollisionFree(digest)
    requires Check(Some(a), p, i, digest) == Valid && Check(Some(b), q, j, digest) == Valid
    requires EventHash in a && EventHash in b && a[EventHash] == b[EventHash]
    ensures a == b && p == q
  {
    assert digest(Blanked(a)) == digest(Blanked(b));
    assert a == Blanked(a)[EventHash := a[EventHash]];
    assert b == Blanked(b)[EventHash := b[EventHash]];
  }

  lemma LastOfAccepted(lines: seq<Option<Entry>>, digest: Digest)
    requires Accepted(lines, digest) && lines != []
    ensures var n := |lines| - 1;
            && lines[n].Some? && EventHash in lines[n].value
            && lines[n].value[EventHash] == Str(LastHash(lines)) && LastHash(lines) == digest(Blanked(lines[n].value))
            && Check(lines[n], LastHash(lines[..n]), n + 1, digest) == Valid
  {
    var n := |lines| - 1;
    assert FitsAt(lines, n, digest);
  }

  /** Two accepted ledgers that end in the same hash are the same ledger: the last hash commits to the whole
    * history. */
  lemma {:induction false} LastHashDeterminesLedger(a: seq<Option<Entry>>, b: seq<Option<Entry>>, digest: Digest)
    requires CollisionFree(digest) && Accepted(a, digest) && Accepted(b, digest) && LastHash(a) == LastHash(b)
    ensures a == b
    decreases |a|
  {
    if a != [] {
      LastOfAccepted(a, digest);
    }
    if b != [] {
      LastOfAccepted(b, digest);
    }
    if a != [] && b != [] {
      var m, n := |a| - 1, |b| - 1;
      EntryFromHash(a[m].value, b[n].value, LastHash(a[..m]), LastHash(b[..n]), m + 1, n + 1, digest);
      PrefixIsAccepted(a, m, digest);
      PrefixIsAccepted(b, n, digest);
      LastHashDeterminesLedger(a[..m], b[..n], digest);
      assert a == a[..m] + [a[m]] && b == b[..n] + [b[n]];
    }
  }

  /** So an edit anywhere in an accepted ledger that keeps its last entry is refused. */
  lemma TamperingIsRefused(lines: seq<Option<Entry>>, i: nat, forged: Option<Entry>, digest: Digest)
    requires CollisionFree(digest) && Accepted(lines, digest) && i < |lines| - 1 && forged != lines[i]
    ensures !Accepted(lines[i := forged], digest)
  {
    var other := lines[i := forged];
    assert other[i] == forged;
    if Accepted(other, digest) {
      LastHashDeterminesLedger(lines, other, digest);
    }
  }
}
