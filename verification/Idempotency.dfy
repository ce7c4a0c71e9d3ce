/** The HTTP idempotency store: one table row per scope, `begin` in two transactions.
  *
  * `Store` is the adapter over the shared table.  `System` interleaves the single transactions of
  * any number of callers; the safety results are about every run of it.
  */
module Idempotency {
  import opened Wrappers
  import opened Text

  datatype Scope = Scope(tenantId: string, verb: string, routeTemplate: string, idempotencyKey: string)

  datatype Record = Record(
    responseStatus: nat,
    responseBody: string,
    fingerprint: string,
    resourceId: Option<string>,
    traceparent: Option<string>,
    completedAtMs: nat)

  /** A stored row.  The fingerprint column is written by `begin` and by nothing else. */
  datatype Row = InFlightRow(fingerprint: string) | CompletedRow(fingerprint: string, written: Record)

  type Table = map<Scope, Row>

  /** The status range the table's CHECK admits. */
  predicate StorableStatus(status: nat) { 200 <= status <= 599 }

  // ---------------------------------------------------------------- reading a row back as text

  /** The value of a text a runtime number conversion is applied to; only digits are interpreted. */
  datatype Number = Whole(n: nat) | Uninterpreted(text: string)

  function ToNumber(s: string): Number {
    if forall c :: c in s ==> IsDigit(c) then Whole(Value(s)) else Uninterpreted(s)
  }

  datatype ReadRecord = ReadRecord(
    responseStatus: Number,
    responseBody: string,
    fingerprint: string,
    resourceId: Option<string>,
    traceparent: Option<string>,
    completedAtMs: Number)

  datatype Answer = New | InFlight | Completed(record: ReadRecord) | Corrupt(state: string)

  function OrEmpty(o: Option<string>): string {
    match o case None => "" case Some(s) => s
  }

  function Present(s: string): Option<string> {
    if |s| > 0 then Some(s) else None
  }

  /** The projected columns, in the order the query concatenates them. */
  function Columns(row: Row): seq<string> {
    match row
    case InFlightRow(fp) => ["IN_FLIGHT", "", "", fp, "", "", "0"]
    case CompletedRow(fp, w) =>
      ["COMPLETED", Decimal(w.responseStatus), w.responseBody, fp, OrEmpty(w.resourceId), OrEmpty(w.traceparent),
       Decimal(w.completedAtMs)]
  }

  const LABEL := "vg_state="

  function Piece(parts: seq<string>, i: nat): string {
    if i < |parts| then parts[i] else ""
  }

  /** The first line of the output, trimmed; further lines of a row never carry the label first. */
  function FirstLine(output: string): string {
    TrimEnd(Split(output, '\n')[0])
  }

  /** What the pieces of a labelled line say. */
  function FromPieces(parts: seq<string>): Answer
    requires |parts| >= 1
  {
    if parts[0] == "IN_FLIGHT" then InFlight
    else if parts[0] != "COMPLETED" then Corrupt(parts[0])
    else
      Completed(ReadRecord(ToNumber(Piece(parts, 1)), Piece(parts, 2), Piece(parts, 3), Present(Piece(parts, 4)),
                           Present(Piece(parts, 5)), ToNumber(Piece(parts, 6))))
  }

  function Parse(line: string): Answer {
    if |line| < |LABEL| || line[..|LABEL|] != LABEL then New
    else FromPieces(Split(line[|LABEL|..], '|'))
  }

  function RowLine(row: Row): string {
    FirstLine(LABEL + Join(Columns(row), '|'))
  }

  function ReadRow(row: Row): Answer {
    Parse(RowLine(row))
  }

  function ReadScope(t: Table, s: Scope): Answer {
    if s in t then ReadRow(t[s]) else New
  }

  function Verbatim(w: Record): ReadRecord {
    ReadRecord(Whole(w.responseStatus), w.responseBody, w.fingerprint, w.resourceId, w.traceparent,
               Whole(w.completedAtMs))
  }

  predicate Clean(s: string) { '|' !in s && '\n' !in s }

  predicate CleanField(o: Option<string>) {
    o.Some? ==> o.value != "" && Clean(o.value)
  }

  /** What a caller can check about a record before handing it to `complete`. */
  predicate Replayable(w: Record) {
    Clean(w.responseBody) && CleanField(w.resourceId) && CleanField(w.traceparent)
  }

  lemma FirstLineKeeps(head: string, tail: string)
    requires head != [] && !IsSpace(head[|head| - 1]) && '\n' !in head
    ensures head <= FirstLine(head + tail) && '\n' !in FirstLine(head + tail)
  {
    FirstPiece(head, tail, '\n');
    TrimEndKeeps(head, Split(tail, '\n')[0]);
    var line := FirstLine(head + tail);
    assert forall c :: c in line ==> c in Split(head + tail, '\n')[0];
  }

  lemma JoinHead(parts: seq<string>, sep: char)
    requires |parts| >= 2
    ensures Join(parts, sep) == parts[0] + [sep] + Join(parts[1..], sep)
  {
  }

  /** The line the parser sees starts with the state and one separator, whatever the body holds. */
  lemma LineOf(row: Row)
    ensures LABEL + Columns(row)[0] + "|" <= RowLine(row) && '\n' !in RowLine(row)
  {
    var cs := Columns(row);
    var head := LABEL + cs[0] + "|";
    JoinHead(cs, '|');
    assert LABEL + Join(cs, '|') == head + Join(cs[1..], '|');
    assert '\n' !in head && head[|head| - 1] == '|';
    FirstLineKeeps(head, Join(cs[1..], '|'));
  }

  lemma HeadPiece(line: string, head: string)
    requires LABEL + head + "|" <= line && '|' !in head
    ensures line[..|LABEL|] == LABEL && Split(line[|LABEL|..], '|')[0] == head
  {
    var rest := line[|LABEL + head + "|"|..];
    assert line[|LABEL|..] == head + ['|'] + rest;
    SplitCons(head, rest, '|');
  }

  /** The stored state is always recognised: reading never takes the corrupt-row branch. */
  lemma ReadRecognisesState(row: Row)
    ensures row.InFlightRow? ==> ReadRow(row) == InFlight
    ensures row.CompletedRow? ==> ReadRow(row).Completed?
  {
    LineOf(row);
    HeadPiece(RowLine(row), Columns(row)[0]);
  }

  /** Every piece of a row's line is free of separators and line breaks. */
  lemma PiecesAreClean(row: Row, i: nat)
    ensures LABEL <= RowLine(row)
    ensures Clean(Piece(Split(RowLine(row)[|LABEL|..], '|'), i))
  {
    LineOf(row);
    var line := RowLine(row);
    assert forall c :: c in line[|LABEL|..] ==> c in line;
  }

  /** A completed response is replayed verbatim exactly when its record is `Replayable` and carries
    * the fingerprint the claim was made with. */
  lemma ReplayIsVerbatimIff(fp: string, w: Record)
    requires Clean(fp)
    ensures ReadRow(CompletedRow(fp, w)) == Completed(Verbatim(w)) <==> Replayable(w) && w.fingerprint == fp
  {
    var row := CompletedRow(fp, w);
    if Replayable(w) {
      ReplayableReads(fp, w);
    } else if ReadRow(row) == Completed(Verbatim(w)) {
      var parts := Split(RowLine(row)[|LABEL|..], '|');
      PiecesAreClean(row, 2);
      PiecesAreClean(row, 4);
      PiecesAreClean(row, 5);
      assert false;
    }
  }

  /** A clean text that does not end in white space is its own trimmed first line. */
  lemma WholeFirstLine(text: string)
    requires text != [] && '\n' !in text && !IsSpace(text[|text| - 1])
    ensures FirstLine(text) == text
  {
    SplitCons(text, [], '\n');
  }

  lemma ColumnsAreClean(fp: string, w: Record)
    requires Clean(fp) && Replayable(w)
    ensures var cs := Columns(CompletedRow(fp, w));
            |cs| == 7 && (forall i :: 0 <= i < 7 ==> '\n' !in cs[i] && '|' !in cs[i]) && cs[6] == Decimal(w.completedAtMs)
  {
  }

  lemma DigitsEndWell(n: nat)
    ensures !IsSpace(Decimal(n)[|Decimal(n)| - 1])
  {
    var last := Decimal(n)[|Decimal(n)| - 1];
    assert last in Decimal(n);
  }

  lemma ReplayableLine(fp: string, w: Record)
    requires Clean(fp) && Replayable(w)
    ensures RowLine(CompletedRow(fp, w)) == LABEL + Join(Columns(CompletedRow(fp, w)), '|')
  {
    var cs := Columns(CompletedRow(fp, w));
    ColumnsAreClean(fp, w);
    JoinAvoids(cs, '|', '\n');
    JoinEndsWith(cs, '|');
    DigitsEndWell(w.completedAtMs);
    WholeFirstLine(LABEL + Join(cs, '|'));
  }

  /** The columns of a completed row say what was written. */
  lemma ColumnsSay(fp: string, w: Record)
    requires Clean(fp) && Replayable(w)
    ensures FromPieces(Columns(CompletedRow(fp, w))) == Completed(Verbatim(w).(fingerprint := fp))
  {
    ValueOfDecimal(w.responseStatus);
    ValueOfDecimal(w.completedAtMs);
  }

  lemma LabelledLine(joined: string)
    ensures Parse(LABEL + joined) == FromPieces(Split(joined, '|'))
  {
    assert (LABEL + joined)[..|LABEL|] == LABEL && (LABEL + joined)[|LABEL|..] == joined;
  }

  lemma ReplayableReads(fp: string, w: Record)
    requires Clean(fp) && Replayable(w)
    ensures ReadRow(CompletedRow(fp, w)) == Completed(Verbatim(w).(fingerprint := fp))
  {
    var cs := Columns(CompletedRow(fp, w));
    ReplayableLine(fp, w);
    ColumnsAreClean(fp, w);
    SplitOfJoin(cs, '|');
    LabelledLine(Join(cs, '|'));
    ColumnsSay(fp, w);
  }

  lemma {:induction false} JoinAvoids(parts: seq<string>, sep: char, c: char)
    requires c != sep && forall i :: 0 <= i < |parts| ==> c !in parts[i]
    ensures c !in Join(parts, sep)
  {
    if |parts| > 1 {
      JoinAvoids(parts[1..], sep, c);
    }
  }

  lemma {:induction false} JoinEndsWith(parts: seq<string>, sep: char)
    requires |parts| >= 1 && parts[|parts| - 1] != []
    ensures var j := Join(parts, sep); j != [] && j[|j| - 1] == parts[|parts| - 1][|parts[|parts| - 1]| - 1]
  {
    if |parts| > 1 {
      JoinEndsWith(parts[1..], sep);
    }
  }

  // ---------------------------------------------------------------- single transactions

  /** INSERT ... ON CONFLICT DO NOTHING RETURNING: the new table and whether this call inserted. */
  function InsertIfAbsent(t: Table, s: Scope, fp: string): (Table, bool) {
    if s in t then (t, false) else (t[s := InFlightRow(fp)], true)
  }

  /** The decision `begin` takes from its read, given whether its insert claimed the row. */
  function Decide(current: Answer, claimed: bool): Answer {
    if current.Completed? || current.Corrupt? then current else if claimed then New else InFlight
  }

  /** UPDATE ... SET state = 'COMPLETED': touches the row of the scope, if there is one. */
  function CompleteRow(t: Table, s: Scope, w: Record): Table {
    if s in t then t[s := CompletedRow(t[s].fingerprint, w)] else t
  }

  /** DELETE ... AND state = 'IN_FLIGHT'. */
  function AbandonRow(t: Table, s: Scope): Table {
    if s in t && t[s].InFlightRow? then t - {s} else t
  }

  class Store {
    var rows: Table

    constructor ()
      ensures rows == map[]
    {
      rows := map[];
    }

    method Insert(scope: Scope, fingerprint: string) returns (claimed: bool)
      modifies this
      ensures (rows, claimed) == InsertIfAbsent(old(rows), scope, fingerprint)
    {
      claimed := scope !in rows;
      if claimed {
        rows := rows[scope := InFlightRow(fingerprint)];
      }
    }

    method Read(scope: Scope) returns (answer: Answer)
      ensures answer == ReadScope(rows, scope)
    {
      if scope !in rows {
        return New;
      }
      answer := Parse(FirstLine(LABEL + Join(Columns(rows[scope]), '|')));
    }

    /** `begin` with no other transaction between its two. */
    method Begin(scope: Scope, fingerprint: string) returns (answer: Answer)
      modifies this
      ensures scope !in old(rows) ==> answer == New && rows == old(rows)[scope := InFlightRow(fingerprint)]
      ensures scope in old(rows) ==> rows == old(rows) && answer == ReadRow(rows[scope]) && (answer.InFlight? || answer.Completed?)
    {
      var claimed := Insert(scope, fingerprint);
      var current := Read(scope);
      ReadRecognisesState(rows[scope]);
      if current.Completed? {
        return current;
      }
      answer := if claimed then New else InFlight;
    }

    /** `complete`; a status outside the column's range makes the statement fail. */
    method Complete(scope: Scope, record: Record) returns (ok: bool)
      modifies this
      ensures ok <==> scope !in old(rows) || StorableStatus(record.responseStatus)
      ensures rows == if ok then CompleteRow(old(rows), scope, record) else old(rows)
    {
      if scope !in rows {
        return true;
      }
      ok := StorableStatus(record.responseStatus);
      if ok {
        rows := rows[scope := CompletedRow(rows[scope].fingerprint, record)];
      }
    }

    method Abandon(scope: Scope)
      modifies this
      ensures rows == AbandonRow(old(rows), scope)
    {
      if scope in rows && rows[scope].InFlightRow? {
        rows := rows - {scope};
      }
    }
  }

  // ---------------------------------------------------------------- every interleaving

  /** Where a caller stands.  `Holder` was told NEW, `Busy` was told IN_FLIGHT and `Replayed` was given
    * the response read from a row.  `Lost` is a caller that died; its claim, if it had one, stays. */
  datatype Phase =
    | Inserted(claimed: bool)
    | Holder
    | Busy
    | Replayed(seen: Row)
    | Finished(record: Record)
    | Released
    | Lost(claimed: bool)

  /** The second half of `begin`: the caller's phase after it has read the table. */
  function Outcome(t: Table, s: Scope, claimed: bool): Phase {
    if s in t && t[s].CompletedRow? then Replayed(t[s]) else if claimed then Holder else Busy
  }

  /** The phases say what `begin` returned. */
  lemma OutcomeIsDecision(t: Table, s: Scope, claimed: bool)
    ensures Decide(ReadScope(t, s), claimed) ==
            match Outcome(t, s, claimed)
            case Replayed(row) => ReadRow(row)
            case Holder => New
            case _ => InFlight
  {
    if s in t {
      ReadRecognisesState(t[s]);
    }
  }

  datatype Caller = Caller(scope: Scope, fingerprint: string, phase: Phase)

  datatype System = System(table: Table, callers: map<nat, Caller>)

  datatype Event =
    | BeginInsert(id: nat, scope: Scope, fingerprint: string)
    | BeginRead(id: nat)
    | CompleteBy(id: nat, record: Record)
    | AbandonBy(id: nat)
    | Crash(id: nat)

  const Start := System(map[], map[])

  /** Callers are fresh on insert; only the holder of a claim completes or abandons, once. */
  predicate Enabled(st: System, e: Event) {
    match e
    case BeginInsert(id, _, _) => id !in st.callers
    case BeginRead(id) => id in st.callers && st.callers[id].phase.Inserted?
    case CompleteBy(id, w) => id in st.callers && st.callers[id].phase.Holder? && StorableStatus(w.responseStatus)
    case AbandonBy(id) => id in st.callers && st.callers[id].phase.Holder?
    case Crash(id) => id in st.callers && (st.callers[id].phase.Inserted? || st.callers[id].phase.Holder?)
  }

  function Next(st: System, e: Event): System
    requires Enabled(st, e)
  {
    match e
    case BeginInsert(id, s, fp) =>
      var (t, claimed) := InsertIfAbsent(st.table, s, fp);
      System(t, st.callers[id := Caller(s, fp, Inserted(claimed))])
    case BeginRead(id) =>
      var c := st.callers[id];
      System(st.table, st.callers[id := c.(phase := Outcome(st.table, c.scope, c.phase.claimed))])
    case CompleteBy(id, w) =>
      var c := st.callers[id];
      System(CompleteRow(st.table, c.scope, w), st.callers[id := c.(phase := Finished(w))])
    case AbandonBy(id) =>
      var c := st.callers[id];
      System(AbandonRow(st.table, c.scope), st.callers[id := c.(phase := Released)])
    case Crash(id) =>
      var c := st.callers[id];
      System(st.table, st.callers[id := c.(phase := Lost(c.phase.Holder? || c.phase.claimed))])
  }

  /** The system after a sequence of events, each enabled when it happens. */
  predicate Runs(st: System, es: seq<Event>)
    decreases |es|
  {
    es == [] || (Enabled(st, es[0]) && Runs(Next(st, es[0]), es[1..]))
  }

  function After(st: System, es: seq<Event>): System
    requires Runs(st, es)
    decreases |es|
  {
    if es == [] then st else After(Next(st, es[0]), es[1..])
  }

  // A caller that still stands behind the in-flight row.
  predicate Owns(p: Phase) {
    p.Holder? || (p.Inserted? && p.claimed) || (p.Lost? && p.claimed)
  }

  // A caller whose claim has not been given back.
  predicate Stands(p: Phase) {
    Owns(p) || p.Finished?
  }

  predicate EverClaimed(p: Phase) {
    Stands(p) || p.Released?
  }

  ghost predicate StandersUnique(st: System) {
    forall a, b :: a in st.callers && b in st.callers && a != b && st.callers[a].scope == st.callers[b].scope
      ==> !(Stands(st.callers[a].phase) && Stands(st.callers[b].phase))
  }

  ghost predicate OwnersHaveRows(st: System) {
    forall a :: a in st.callers && Owns(st.callers[a].phase) ==>
      st.callers[a].scope in st.table && st.table[st.callers[a].scope] == InFlightRow(st.callers[a].fingerprint)
  }

  ghost predicate FinishedHaveRows(st: System) {
    forall a :: a in st.callers && st.callers[a].phase.Finished? ==>
      st.callers[a].scope in st.table
      && st.table[st.callers[a].scope] == CompletedRow(st.callers[a].fingerprint, st.callers[a].phase.record)
  }

  ghost predicate ReplaysAreRows(st: System) {
    forall a :: a in st.callers && st.callers[a].phase.Replayed? ==>
      st.callers[a].phase.seen.CompletedRow?
      && st.callers[a].scope in st.table && st.table[st.callers[a].scope] == st.callers[a].phase.seen
  }

  /** Some caller of the scope has (had) the claim. */
  ghost predicate Claimant(st: System, s: Scope) {
    exists b :: b in st.callers && st.callers[b].scope == s && EverClaimed(st.callers[b].phase)
  }

  ghost predicate FinisherOf(st: System, s: Scope) {
    exists b :: b in st.callers && st.callers[b].scope == s && st.callers[b].phase.Finished?
  }

  ghost predicate RowsAndCallersClaimed(st: System) {
    && (forall a :: a in st.callers ==> Claimant(st, st.callers[a].scope))
    && (forall s :: s in st.table ==> Claimant(st, s))
    && (forall s :: s in st.table && st.table[s].CompletedRow? ==> FinisherOf(st, s))
  }

  /** Some caller of the scope stands for it: its claim has not been given back. */
  ghost predicate StanderOf(st: System, s: Scope) {
    exists b :: b in st.callers && st.callers[b].scope == s && Stands(st.callers[b].phase)
  }

  ghost predicate RowsHaveStanders(st: System) { forall s :: s in st.table ==> StanderOf(st, s) }

  ghost predicate Inv(st: System) {
    && StandersUnique(st) && OwnersHaveRows(st) && FinishedHaveRows(st) && ReplaysAreRows(st)
    && RowsAndCallersClaimed(st) && RowsHaveStanders(st)
  }

  lemma ClaimantPersists(st: System, e: Event, s: Scope)
    requires Inv(st) && Enabled(st, e) && Claimant(st, s)
    ensures Claimant(Next(st, e), s)
  {
    var b :| b in st.callers && st.callers[b].scope == s && EverClaimed(st.callers[b].phase);
    var st' := Next(st, e);
    assert b in st'.callers && st'.callers[b].scope == s && EverClaimed(st'.callers[b].phase);
  }

  lemma FinisherPersists(st: System, e: Event, s: Scope)
    requires Enabled(st, e) && FinisherOf(st, s)
    ensures FinisherOf(Next(st, e), s)
  {
    var f :| f in st.callers && st.callers[f].scope == s && st.callers[f].phase.Finished?;
    assert Next(st, e).callers[f] == st.callers[f];
  }

  lemma ClaimsKept(st: System, e: Event)
    requires Inv(st) && Enabled(st, e)
    ensures RowsAndCallersClaimed(Next(st, e))
  {
    var st' := Next(st, e);
    var s := if e.BeginInsert? then e.scope else st.callers[e.id].scope;
    assert Claimant(st', s) by {
      if e.BeginInsert? && s !in st.table {
        assert e.id in st'.callers && Owns(st'.callers[e.id].phase);
      } else {
        ClaimantPersists(st, e, s);
      }
    }
    forall t | t in st'.table || exists a :: a in st'.callers && st'.callers[a].scope == t
      ensures Claimant(st', t)
    {
      if t != s {
        assert Claimant(st, t);
        ClaimantPersists(st, e, t);
      }
    }
    forall t | t in st'.table && st'.table[t].CompletedRow?
      ensures FinisherOf(st', t)
    {
      if e.CompleteBy? && t == s {
        assert e.id in st'.callers && st'.callers[e.id].phase.Finished?;
      } else {
        FinisherPersists(st, e, t);
      }
    }
  }

  ghost predicate CoreInv(st: System) {
    StandersUnique(st) && OwnersHaveRows(st) && FinishedHaveRows(st) && ReplaysAreRows(st)
  }

  lemma CoreKept(st: System, e: Event)
    requires CoreInv(st) && Enabled(st, e)
    ensures CoreInv(Next(st, e))
  {
    match e
    case BeginInsert(_, _, _) => InsertKeepsCore(st, e);
    case BeginRead(_) => ReadKeepsCore(st, e);
    case CompleteBy(_, _) => CompleteKeepsCore(st, e);
    case AbandonBy(_) => AbandonKeepsCore(st, e);
    case Crash(_) => CrashKeepsCore(st, e);
  }

  lemma InsertKeepsCore(st: System, e: Event)
    requires CoreInv(st) && Enabled(st, e) && e.BeginInsert?
    ensures CoreInv(Next(st, e))
  {
  }

  lemma ReadKeepsCore(st: System, e: Event)
    requires CoreInv(st) && Enabled(st, e) && e.BeginRead?
    ensures CoreInv(Next(st, e))
  {
  }

  lemma CompleteKeepsCore(st: System, e: Event)
    requires CoreInv(st) && Enabled(st, e) && e.CompleteBy?
    ensures CoreInv(Next(st, e))
  {
  }

  lemma AbandonKeepsCore(st: System, e: Event)
    requires CoreInv(st) && Enabled(st, e) && e.AbandonBy?
    ensures CoreInv(Next(st, e))
  {
  }

  lemma CrashKeepsCore(st: System, e: Event)
    requires CoreInv(st) && Enabled(st, e) && e.Crash?
    ensures CoreInv(Next(st, e))
  {
  }

  /** A step never takes the stander away from a scope whose row it leaves. */
  lemma StanderPersists(st: System, e: Event, s: Scope)
    requires Inv(st) && Enabled(st, e) && StanderOf(st, s) && s in Next(st, e).table
    ensures StanderOf(Next(st, e), s)
  {
    var b :| b in st.callers && st.callers[b].scope == s && Stands(st.callers[b].phase);
    var next := Next(st, e);
    assert b in next.callers && next.callers[b].scope == s && Stands(next.callers[b].phase);
  }

  lemma StandersKept(st: System, e: Event)
    requires Inv(st) && Enabled(st, e)
    ensures RowsHaveStanders(Next(st, e))
  {
    var next := Next(st, e);
    forall s | s in next.table
      ensures StanderOf(next, s)
    {
      if s in st.table {
        StanderPersists(st, e, s);
      } else {
        assert e.id in next.callers && next.callers[e.id].scope == s && Stands(next.callers[e.id].phase);
      }
    }
  }

  lemma StepKeepsInv(st: System, e: Event)
    requires Inv(st) && Enabled(st, e)
    ensures Inv(Next(st, e))
  {
    CoreKept(st, e);
    ClaimsKept(st, e);
    StandersKept(st, e);
  }

  lemma {:induction false} RunKeepsInv(st: System, es: seq<Event>)
    requires Inv(st) && Runs(st, es)
    ensures Inv(After(st, es))
    decreases |es|
  {
    if es != [] {
      StepKeepsInv(st, es[0]);
      RunKeepsInv(Next(st, es[0]), es[1..]);
    }
  }

  /** In every run, a scope has at most one caller holding NEW, and at most one that ever completes. */
  lemma AtMostOneHolder(es: seq<Event>, a: nat, b: nat)
    requires Runs(Start, es)
    requires var st := After(Start, es);
             a in st.callers && b in st.callers && st.callers[a].scope == st.callers[b].scope
             && (st.callers[a].phase.Holder? || st.callers[a].phase.Finished?)
             && (st.callers[b].phase.Holder? || st.callers[b].phase.Finished?)
    ensures a == b
  {
    RunKeepsInv(Start, es);
  }

  /** In every run a scope has a row exactly while some caller stands for it. */
  lemma RowIffStander(es: seq<Event>, s: Scope)
    requires Runs(Start, es)
    ensures s in After(Start, es).table <==> StanderOf(After(Start, es), s)
  {
    RunKeepsInv(Start, es);
    var st := After(Start, es);
    if StanderOf(st, s) {
      var b :| b in st.callers && st.callers[b].scope == s && Stands(st.callers[b].phase);
      assert Owns(st.callers[b].phase) || st.callers[b].phase.Finished?;
    }
  }

  /** So an insert claims a scope exactly when nobody stands for it; a claim is answered NEW at the read, whatever
    * happened in between; and the holder who abandons gives the scope back, so the next insert claims it. */
  lemma ClaimIffFree(es: seq<Event>, id: nat, s: Scope, fp: string)
    requires Runs(Start, es) && id !in After(Start, es).callers
    ensures Next(After(Start, es), BeginInsert(id, s, fp)).callers[id]
            == Caller(s, fp, Inserted(!StanderOf(After(Start, es), s)))
  {
    RowIffStander(es, s);
  }

  lemma ClaimIsAnsweredNew(es: seq<Event>, id: nat)
    requires Runs(Start, es) && id in After(Start, es).callers && After(Start, es).callers[id].phase == Inserted(true)
    ensures AnswerOf(Next(After(Start, es), BeginRead(id)).callers[id].phase) == Some(New)
  {
    RunKeepsInv(Start, es);
    assert Owns(After(Start, es).callers[id].phase);
  }

  lemma AbandonFrees(es: seq<Event>, id: nat)
    requires Runs(Start, es) && Enabled(After(Start, es), AbandonBy(id))
    ensures var st := After(Start, es);
            var next, s := Next(st, AbandonBy(id)), st.callers[id].scope;
            && s !in next.table && !StanderOf(next, s)
            && forall other :: other != s ==> (other in next.table <==> other in st.table)
  {
    RunKeepsInv(Start, es);
    var st := After(Start, es);
    var next, s := Next(st, AbandonBy(id)), st.callers[id].scope;
    assert Stands(st.callers[id].phase) && Owns(st.callers[id].phase);
    forall b | b in next.callers && next.callers[b].scope == s
      ensures !Stands(next.callers[b].phase)
    {
      if b != id {
        assert next.callers[b] == st.callers[b];
      }
    }
  }

  lemma {:induction false} RunsOneMore(st: System, es: seq<Event>, e: Event)
    requires Runs(st, es) && Enabled(After(st, es), e)
    ensures Runs(st, es + [e]) && After(st, es + [e]) == Next(After(st, es), e)
    decreases |es|
  {
    if es == [] {
      assert [] + [e] == [e] && [e][1..] == [];
    } else {
      assert (es + [e])[0] == es[0] && (es + [e])[1..] == es[1..] + [e];
      RunsOneMore(Next(st, es[0]), es[1..], e);
    }
  }

  /** A retry after the work threw: whatever the run before, once the holder has abandoned, the next caller of the
    * scope is answered NEW. */
  lemma RetryAfterAbandonIsNew(es: seq<Event>, holder: nat, id: nat, fp: string)
    requires Runs(Start, es) && Enabled(After(Start, es), AbandonBy(holder)) && id !in After(Start, es).callers
    ensures var st := After(Start, es);
            var all := es + [AbandonBy(holder)] + [BeginInsert(id, st.callers[holder].scope, fp)] + [BeginRead(id)];
            Runs(Start, all) && id in After(Start, all).callers
            && AnswerOf(After(Start, all).callers[id].phase) == Some(New)
  {
    var st := After(Start, es);
    var s := st.callers[holder].scope;
    AbandonFrees(es, holder);
    RunsOneMore(Start, es, AbandonBy(holder));
    var freed := es + [AbandonBy(holder)];
    ClaimIffFree(freed, id, s, fp);
    RunsOneMore(Start, freed, BeginInsert(id, s, fp));
    var claimed := freed + [BeginInsert(id, s, fp)];
    ClaimIsAnsweredNew(claimed, id);
    RunsOneMore(Start, claimed, BeginRead(id));
  }

  /** What a caller in this phase was answered by `begin`. */
  function AnswerOf(p: Phase): Option<Answer> {
    match p
    case Replayed(row) => Some(ReadRow(row))
    case Holder => Some(New)
    case Busy => Some(InFlight)
    case _ => None
  }

  /** In any state, whoever else stepped in since the insert: the answer a caller gets is the decision `begin` takes
    * from the table as it is at the read, and it is never the corrupt-row answer. */
  lemma ReadAnswersDecision(st: System, id: nat)
    requires Enabled(st, BeginRead(id))
    ensures var c := st.callers[id];
            var answer := AnswerOf(Next(st, BeginRead(id)).callers[id].phase);
            answer == Some(Decide(ReadScope(st.table, c.scope), c.phase.claimed)) && !answer.value.Corrupt?
  {
    var c := st.callers[id];
    OutcomeIsDecision(st.table, c.scope, c.phase.claimed);
    if c.scope in st.table {
      ReadRecognisesState(st.table[c.scope]);
    }
  }

  /** Every replayed response comes from the row that one particular caller finished; every caller
    * told IN_FLIGHT shares its scope with a caller that had the claim. */
  lemma AnswersAreEarned(es: seq<Event>, a: nat)
    requires Runs(Start, es) && a in After(Start, es).callers
    ensures var st := After(Start, es);
            var c := st.callers[a];
            && (c.phase.Replayed? ==>
                  exists f :: f in st.callers && f != a && st.callers[f].scope == c.scope
                              && st.callers[f].phase.Finished?
                              && c.phase.seen == CompletedRow(st.callers[f].fingerprint, st.callers[f].phase.record))
            && (c.phase.Busy? ==>
                  exists f :: f in st.callers && f != a && st.callers[f].scope == c.scope
                              && EverClaimed(st.callers[f].phase))
  {
    RunKeepsInv(Start, es);
    var st := After(Start, es);
    var c := st.callers[a];
    assert Claimant(st, c.scope);
    if c.phase.Replayed? {
      assert FinisherOf(st, c.scope);
      var f :| f in st.callers && st.callers[f].scope == c.scope && st.callers[f].phase.Finished?;
    } else if c.phase.Busy? {
      var f :| f in st.callers && st.callers[f].scope == c.scope && EverClaimed(st.callers[f].phase);
    }
  }

  /** A caller that arrived after completion: not yet answered, or given the finished row. */
  ghost predicate LateCaller(c: Caller, row: Row) {
    || (c.phase.Inserted? && !c.phase.claimed)
    || (c.phase.Lost? && !c.phase.claimed)
    || c.phase == Replayed(row)
  }

  /** The scope is completed with `row`, and every caller that came after `present` is late. */
  ghost predicate Settled(st: System, s: Scope, row: Row, present: set<nat>) {
    && s in st.table && st.table[s] == row && row.CompletedRow?
    && forall a :: a in st.callers && a !in present && st.callers[a].scope == s ==> LateCaller(st.callers[a], row)
  }

  lemma SettledStep(st: System, e: Event, s: Scope, row: Row, present: set<nat>)
    requires Inv(st) && Enabled(st, e) && Settled(st, s, row, present)
    ensures Settled(Next(st, e), s, row, present)
  {
  }

  lemma {:induction false} SettledForever(st: System, es: seq<Event>, s: Scope, row: Row, present: set<nat>)
    requires Inv(st) && Runs(st, es) && Settled(st, s, row, present)
    ensures Inv(After(st, es)) && Settled(After(st, es), s, row, present)
    decreases |es|
  {
    if es != [] {
      StepKeepsInv(st, es[0]);
      SettledStep(st, es[0], s, row, present);
      SettledForever(Next(st, es[0]), es[1..], s, row, present);
    }
  }

  /** Once a scope is completed its row never changes, nobody holds NEW for it again, and every later
    * caller that is answered gets that row. */
  lemma CompletedIsFinal(before: seq<Event>, later: seq<Event>, s: Scope)
    requires Runs(Start, before) && Runs(After(Start, before), later)
    requires s in After(Start, before).table && After(Start, before).table[s].CompletedRow?
    ensures var mid := After(Start, before);
            var end := After(mid, later);
            && s in end.table && end.table[s] == mid.table[s]
            && (forall a :: a in end.callers && end.callers[a].scope == s ==> !end.callers[a].phase.Holder?)
            && (forall a :: a in end.callers && a !in mid.callers && end.callers[a].scope == s
                  ==> LateCaller(end.callers[a], mid.table[s]))
  {
    RunKeepsInv(Start, before);
    var mid := After(Start, before);
    SettledForever(mid, later, s, mid.table[s], mid.callers.Keys);
  }
}
