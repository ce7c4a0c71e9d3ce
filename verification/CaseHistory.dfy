/** What every run of the persistence handlers keeps: the audit log determines every case's state, and more. */
module CaseHistory {
  import opened Wrappers
  import opened TruthState
  import opened StateMachine
  import opened Entities
  import opened Commands
  import opened CaseTables

  // ---------------------------------------------------------------- runs

  /** One committed or rolled-back transaction. The last three are writes made elsewhere in the system. */
  datatype Event =
    | ECreate(call: Call, create: CreateRequest)
    | EUpdate(call: Call, loaded: Loaded, known: set<string>, update: UpdateRequest)
    | EGate(call: Call, loaded: Loaded, known: set<string>, gate: GateRequest)
    | EResponse(call: Call, known: set<string>, response: ResponseRequest)
    | EReconcile(call: Call, known: set<string>, reconcile: ReconcileRequest)
    | EVerify(call: Call, known: set<string>, verify: VerifyRequest)
    | EReappear(call: Call, known: set<string>, reappear: ReappearRequest)
    | ExposureWritten(exposure: string, exposureRow: ExposureRow)
    | DecisionRecorded(decision: string)
    | ActionRecorded(action: string, actionRow: ActionRow)

  function Transact(t: Tables, e: Event): (Tables, Answer) {
    match e
    case ECreate(call, r) => CreateCase(t, call, r)
    case EUpdate(call, l, k, r) => GuardedUpdate(t, call, l, k, r)
    case EGate(call, l, k, r) => RecordHumanGate(t, call, l, k, r)
    case EResponse(call, k, r) => RecordResponse(t, call, k, r)
    case EReconcile(call, k, r) => Reconcile(t, call, k, r)
    case EVerify(call, k, r) => RecordObservation(t, call, k, r)
    case EReappear(call, k, r) => RecordReappearance(t, call, k, r)
    case ExposureWritten(x, row) => (t.(exposures := t.exposures[x := row]), Done(None))
    case DecisionRecorded(d) => (if d in t.decisions then t else t.(decisions := t.decisions[d := None]), Done(None))
    case ActionRecorded(a, row) => (if a in t.actions then t else t.(actions := t.actions[a := row]), Done(None))
  }

  function After(t: Tables, events: seq<Event>): Tables {
    if events == [] then t else Transact(After(t, events[..|events| - 1]), events[|events| - 1]).0
  }

  const EMPTY := Tables(map[], map[], map[], map[], [], [], [], [], [], [])

  // ---------------------------------------------------------------- what one transaction can change

  datatype Change =
    | Quiet(notes: seq<AuditRow>)
    | Opened(caseId: string, row: Case, openedAt: Instant)
    | Advanced(caseId: string, code: Id, to: State, movedAt: Instant)
    | Resurfaced(auditRow: AuditRow)

  const REAPPEARED: set<Id> := {T17, T20}

  /** An absence, reported under another name than the one recorded with the submission it is judged against, over
    * another path than the one reported as acting, and later. */
  predicate Independent(o: ObservationRow, submission: AuditRow, c: string) {
    && o.caseId == c && o.finding == Absent
    && IsSubmissionOf(submission, c) && o.acting == submission.actor
    && o.actor != o.acting && o.actingPath != o.observationPath
    && o.observedAtMs > submission.atMs
  }

  ghost predicate Earned(t: Tables, c: string) {
    exists i, k :: 0 <= i < |t.observations| && 0 <= k < |t.audit| && Independent(t.observations[i], t.audit[k], c)
  }

  ghost predicate KeepsDecisions(t: Tables, u: Tables) {
    forall d :: d in t.decisions ==> d in u.decisions && u.decisions[d] == t.decisions[d]
  }

  /** `u` differs from `t` as `ch` says: nothing about cases, one case opened, one case advanced by one row
    * of the transition table, or an exposure resurfaced. Each leaves at most one audit row. */
  ghost predicate Changes(t: Tables, u: Tables, ch: Change) {
    && t.observations <= u.observations
    && match ch
       case Quiet(notes) =>
         && u.cases == t.cases && u.audit == t.audit + notes && |notes| <= 1
         && (forall i :: 0 <= i < |notes| ==> notes[i].entry == Note && notes[i].actor == ACTOR)
         && KeepsDecisions(t, u)
       case Opened(c, row, at) =>
         && c !in t.cases && u.cases == t.cases[c := row]
         && !HasOpenCase(t.cases, row.subject, row.source, row.exposure)
         && row.decision in t.decisions && t.decisions[row.decision].None?
         && u.decisions == t.decisions[row.decision := Some(c)]
         && u.audit == t.audit + [AuditRow(ACTOR, at, Creation(c, row.state))]
       case Advanced(c, code, to, at) =>
         && c in t.cases && Row(code) == Spec(Some(t.cases[c].state), to) && code !in REAPPEARED
         && u.cases == SetState(t, c, to).cases && u.decisions == t.decisions
         && u.audit == t.audit + [AuditRow(ACTOR, at, Transit(code, t.cases[c].state, to, Some(c), None))]
         && (code == T14 ==> Earned(u, c))
       case Resurfaced(row) =>
         && u.cases == t.cases && u.decisions == t.decisions && u.audit == t.audit + [row]
         && row.actor == ACTOR && row.entry.Transit? && row.entry.code in REAPPEARED && row.entry.to == Reappeared
  }

  lemma Unchanged(t: Tables)
    ensures Changes(t, t, Quiet([]))
  {
    assert t.audit == t.audit + [];
  }

  lemma CreateChanges(t: Tables, call: Call, r: CreateRequest) returns (ch: Change)
    ensures Changes(t, CreateCase(t, call, r).0, ch)
  {
    if CreateCase(t, call, r).1.Done? {
      var e := t.exposures[r.exposure];
      ch := Opened(r.newId, Case(e.state, 0, r.subject, r.source, r.exposure, r.decision), call.ctx.nowMs);
    } else {
      Unchanged(t);
      ch := Quiet([]);
    }
  }

  /** The shared tail: a move that is a row of the table, or nothing at all. */
  lemma FinishChanges(t: Tables, w: Tables, call: Call, c: string, o: Outcome) returns (ch: Change)
    requires c in t.cases && TableMove(o, Some(t.cases[c].state)) && o.id !in REAPPEARED
    requires w.cases == t.cases && w.audit == t.audit && w.decisions == t.decisions && t.observations <= w.observations
    requires o.id == T14 ==> Earned(w, c)
    ensures Changes(t, Finish(t, w, call, c, o).0, ch)
  {
    if call.storable {
      ch := Advanced(c, o.id, o.to, call.ctx.nowMs);
      var u := Finish(t, w, call, c, o).0;
      if o.id == T14 {
        var i, k :| 0 <= i < |w.observations| && 0 <= k < |w.audit| && Independent(w.observations[i], w.audit[k], c);
        assert Independent(u.observations[i], u.audit[k], c);
      }
    } else {
      Unchanged(t);
      ch := Quiet([]);
    }
  }

  /** Only the transitions into VERIFIED_REMOVED and REAPPEARED are special. */
  lemma OrdinaryTarget(id: Id)
    requires Row(id).to !in {VerifiedRemoved, Reappeared}
    ensures id != T14 && id !in REAPPEARED
  {
  }

  lemma UpdateChanges(t: Tables, call: Call, l: Loaded, known: set<string>, r: UpdateRequest) returns (ch: Change)
    ensures Changes(t, GuardedUpdate(t, call, l, known, r).0, ch)
  {
    Unchanged(t);
    ch := Quiet([]);
    if GuardedUpdate(t, call, l, known, r).1.Done? {
      var input := InputFrom(l, t.cases[r.caseId].state, r.requested == HumanRequired).value;
      PrepareMoves(call.ctx, input);
      var o := PrepareRequest(call.ctx, input);
      OrdinaryTarget(o.id);
      ch := FinishChanges(t, t, call, r.caseId, o);
    }
  }

  lemma GateChanges(t: Tables, call: Call, l: Loaded, known: set<string>, r: GateRequest) returns (ch: Change)
    ensures Changes(t, RecordHumanGate(t, call, l, known, r).0, ch)
  {
    Unchanged(t);
    ch := Quiet([]);
    if RecordHumanGate(t, call, l, known, r).1.Done? {
      var input := InputFrom(l, t.cases[r.caseId].state, true).value;
      PrepareMoves(call.ctx, input);
      var o := PrepareRequest(call.ctx, input);
      OrdinaryTarget(o.id);
      ch := FinishChanges(t, t.(gates := t.gates + [Gate(r.caseId, r.kind)]), call, r.caseId, o);
    }
  }

  lemma ResponseChanges(t: Tables, call: Call, known: set<string>, r: ResponseRequest) returns (ch: Change)
    ensures Changes(t, RecordResponse(t, call, known, r).0, ch)
  {
    Unchanged(t);
    ch := Quiet([]);
    if RecordResponse(t, call, known, r).1.Done? {
      var from := t.cases[r.caseId].state;
      ResponseMoves(call.ctx, from, OutcomeOf(r.kind), BasisRecorded(r));
      var o := RecordControllerResponse(call.ctx, from, OutcomeOf(r.kind), BasisRecorded(r));
      OrdinaryTarget(o.id);
      var w := t.(responses := t.responses + [ResponseRow(r.caseId, OutcomeOf(r.kind))]);
      ch := FinishChanges(t, w, call, r.caseId, o);
    }
  }

  lemma ReconcileChanges(t: Tables, call: Call, known: set<string>, r: ReconcileRequest) returns (ch: Change)
    ensures Changes(t, Reconcile(t, call, known, r).0, ch)
  {
    Unchanged(t);
    ch := Quiet([]);
    var (u, answer) := Reconcile(t, call, known, r);
    if answer.Done? && answer.code.None? && |u.audit| > |t.audit| {
      ch := Quiet([AuditRow(ACTOR, call.ctx.nowMs, Note)]);
    } else if answer.Done? && answer.code.Some? {
      ExecuteMoves(call.ctx, false, true, Accepted);
      var o := ExecuteAction(call.ctx, false, true, Accepted);
      OrdinaryTarget(o.id);
      var w := SetAction(t.(reconciliations := t.reconciliations + [Reconciliation(r.actionId, r.finding)]),
                         r.actionId, Submitted);
      ch := FinishChanges(t, w, call, t.actions[r.actionId].caseId, o);
    }
  }

  /** The tables with the sighting stored. */
  function Seen(t: Tables, r: VerifyRequest, acting: AuditRow): Tables {
    t.(observations := t.observations + [ObservationOf(r, acting.actor)])
  }

  lemma VerifyNotDone(t: Tables, call: Call, known: set<string>, r: VerifyRequest)
    ensures !RecordObservation(t, call, known, r).1.Done? ==> RecordObservation(t, call, known, r).0 == t
  {
  }

  /** What a verification that gets an answer has passed, and where it ends. */
  lemma VerifyEnds(t: Tables, call: Call, known: set<string>, r: VerifyRequest) returns (k: nat)
    requires RecordObservation(t, call, known, r).1.Done?
    ensures k < |t.audit| && r.caseId in t.cases && IsSubmissionOf(t.audit[k], r.caseId) && r.requiredSeconds > 0
    ensures t.cases[r.caseId].state == Acknowledged
    ensures r.actor != t.audit[k].actor && r.actingPath != r.observationPath
    ensures RecordObservation(t, call, known, r) ==
            Concluded(t, Seen(t, r, t.audit[k]), call, r.caseId,
                      Commands.RecordVerification(call.ctx, VerificationOf(r, t.audit[k])))
  {
    k := SubmissionRow(t.audit, r.caseId).value;
  }

  lemma VerifyMoves(t: Tables, call: Call, known: set<string>, r: VerifyRequest, k: nat, o: Outcome) returns (ch: Change)
    requires k < |t.audit| && r.caseId in t.cases && IsSubmissionOf(t.audit[k], r.caseId) && r.requiredSeconds > 0
    requires t.cases[r.caseId].state == Acknowledged
    requires r.actor != t.audit[k].actor && r.actingPath != r.observationPath
    requires o == Commands.RecordVerification(call.ctx, VerificationOf(r, t.audit[k])) && o.Moved? && o.from.Some?
    ensures Changes(t, Finish(t, Seen(t, r, t.audit[k]), call, r.caseId, o).0, ch)
  {
    var v, w := VerificationOf(r, t.audit[k]), Seen(t, r, t.audit[k]);
    VerificationMoves(call.ctx, v);
    OnlyVerificationRemoves(call.ctx, CRecordVerification(v));
    assert Independent(w.observations[|t.observations|], w.audit[k], r.caseId);
    ch := FinishChanges(t, w, call, r.caseId, o);
  }

  lemma VerifyChanges(t: Tables, call: Call, known: set<string>, r: VerifyRequest) returns (ch: Change)
    ensures Changes(t, RecordObservation(t, call, known, r).0, ch)
  {
    Unchanged(t);
    ch := Quiet([]);
    VerifyNotDone(t, call, known, r);
    if RecordObservation(t, call, known, r).1.Done? {
      var k := VerifyEnds(t, call, known, r);
      var o := Commands.RecordVerification(call.ctx, VerificationOf(r, t.audit[k]));
      if o.Moved? && o.from.Some? {
        ch := VerifyMoves(t, call, known, r, k, o);
      } else {
        ch := Quiet([AuditRow(ACTOR, call.ctx.nowMs, Note)]);
      }
    }
  }

  lemma ReappearChanges(t: Tables, call: Call, known: set<string>, r: ReappearRequest) returns (ch: Change)
    ensures Changes(t, RecordReappearance(t, call, known, r).0, ch)
  {
    Unchanged(t);
    ch := Quiet([]);
    var (u, answer) := RecordReappearance(t, call, known, r);
    if answer.Done? {
      var from := t.exposures[r.exposure].state;
      MovesAreTableRows(call.ctx, CDetectReappearance(from, true));
      ch := Resurfaced(u.audit[|t.audit|]);
    }
  }

  lemma Classify(t: Tables, e: Event) returns (ch: Change)
    ensures Changes(t, Transact(t, e).0, ch)
  {
    match e
    case ECreate(call, r) => ch := CreateChanges(t, call, r);
    case EUpdate(call, l, k, r) => ch := UpdateChanges(t, call, l, k, r);
    case EGate(call, l, k, r) => ch := GateChanges(t, call, l, k, r);
    case EResponse(call, k, r) => ch := ResponseChanges(t, call, k, r);
    case EReconcile(call, k, r) => ch := ReconcileChanges(t, call, k, r);
    case EVerify(call, k, r) => ch := VerifyChanges(t, call, k, r);
    case EReappear(call, k, r) => ch := ReappearChanges(t, call, k, r);
    case _ =>
      Unchanged(t);
      ch := Quiet([]);
  }

  // ---------------------------------------------------------------- event sourcing

  /** The case an audit row speaks for: its creation, or a transition of the case itself. */
  function Subject(e: Entry): Option<string> {
    match e
    case Creation(c, _) => Some(c)
    case Transit(code, _, _, c, _) => if code in REAPPEARED then None else c
    case Note => None
  }

  function StateAfter(e: Entry): State
    requires Subject(e).Some?
  {
    match e
    case Creation(_, s) => s
    case Transit(_, _, to, _, _) => to
  }

  /** The state of a case, rebuilt from the log alone; None when the log creates no such case. */
  function Rebuilt(audit: seq<AuditRow>, c: string): Option<State> {
    if audit == [] then None
    else
      var last := audit[|audit| - 1].entry;
      if Subject(last) == Some(c) then Some(StateAfter(last)) else Rebuilt(audit[..|audit| - 1], c)
  }

  function Stored(t: Tables, c: string): Option<State> {
    if c in t.cases then Some(t.cases[c].state) else None
  }

  /** The log determines the table. */
  ghost predicate EventSourced(t: Tables) {
    forall c :: Rebuilt(t.audit, c) == Stored(t, c)
  }

  /** Row `i` creates a case the log did not know, or moves one by a row of the transition table, starting
    * where the log had left it. */
  ghost predicate FitsAt(audit: seq<AuditRow>, i: nat)
    requires i < |audit|
  {
    match audit[i].entry
    case Creation(c, _) => Rebuilt(audit[..i], c) == None
    case Transit(code, from, to, Some(c), _) =>
      if code in REAPPEARED then to == Reappeared else Row(code) == Spec(Some(from), to) && Rebuilt(audit[..i], c) == Some(from)
    case _ => true
  }

  ghost predicate Chained(audit: seq<AuditRow>) {
    forall i :: 0 <= i < |audit| ==> FitsAt(audit, i)
  }

  lemma RebuiltAppend(audit: seq<AuditRow>, row: AuditRow, c: string)
    ensures Rebuilt(audit + [row], c)
            == if Subject(row.entry) == Some(c) then Some(StateAfter(row.entry)) else Rebuilt(audit, c)
  {
    assert (audit + [row])[..|audit|] == audit;
  }

  lemma QuietRebuild(audit: seq<AuditRow>, notes: seq<AuditRow>, c: string)
    requires |notes| <= 1 && forall i :: 0 <= i < |notes| ==> notes[i].entry == Note
    ensures Rebuilt(audit + notes, c) == Rebuilt(audit, c)
  {
    if notes == [] {
      assert audit + notes == audit;
    } else {
      assert notes == [notes[0]];
      RebuiltAppend(audit, notes[0], c);
    }
  }

  lemma SourcedStep(t: Tables, u: Tables, ch: Change)
    requires Changes(t, u, ch) && EventSourced(t)
    ensures EventSourced(u)
  {
    forall c
      ensures Rebuilt(u.audit, c) == Stored(u, c)
    {
      assert Rebuilt(t.audit, c) == Stored(t, c);
      match ch
      case Quiet(notes) => QuietRebuild(t.audit, notes, c);
      case _ =>
        assert u.audit == t.audit + [u.audit[|t.audit|]];
        RebuiltAppend(t.audit, u.audit[|t.audit|], c);
    }
  }

  lemma FitsEarlier(audit: seq<AuditRow>, longer: seq<AuditRow>, i: nat)
    requires audit <= longer && i < |audit| && FitsAt(audit, i)
    ensures FitsAt(longer, i)
  {
    assert longer[..i] == audit[..i];
  }

  lemma ChainedStep(t: Tables, u: Tables, ch: Change)
    requires Changes(t, u, ch) && EventSourced(t) && Chained(t.audit)
    ensures Chained(u.audit)
  {
    forall i | 0 <= i < |u.audit|
      ensures FitsAt(u.audit, i)
    {
      if i < |t.audit| {
        assert FitsAt(t.audit, i);
        FitsEarlier(t.audit, u.audit, i);
      } else {
        assert u.audit[..i] == t.audit;
        match ch
        case Opened(c, _, _) => assert Rebuilt(t.audit, c) == Stored(t, c);
        case Advanced(c, _, _, _) => assert Rebuilt(t.audit, c) == Stored(t, c);
        case _ =>
      }
    }
  }

  /** In every run the log and the case table say the same, and the log is a chain of legal transitions. */
  lemma {:induction false} LogRebuildsCases(t: Tables, events: seq<Event>)
    requires EventSourced(t) && Chained(t.audit)
    ensures EventSourced(After(t, events)) && Chained(After(t, events).audit)
  {
    if events != [] {
      var init := events[..|events| - 1];
      LogRebuildsCases(t, init);
      var ch := Classify(After(t, init), events[|events| - 1]);
      SourcedStep(After(t, init), After(t, events), ch);
      ChainedStep(After(t, init), After(t, events), ch);
    }
  }

  lemma EmptyIsSourced()
    ensures EventSourced(EMPTY) && Chained(EMPTY.audit)
  {
  }

  /** The rows a transaction appends that speak for `c`. */
  function RowsFor(rows: seq<AuditRow>, c: string): seq<AuditRow> {
    if rows == [] then []
    else RowsFor(rows[..|rows| - 1], c) + if Subject(rows[|rows| - 1].entry) == Some(c) then [rows[|rows| - 1]] else []
  }

  /** At most one row was appended; the rows that speak for `c` number one, and carry its new state, exactly
    * when the case was created or changed state. */
  ghost predicate Accounted(t: Tables, u: Tables, c: string) {
    && t.audit <= u.audit && |u.audit| <= |t.audit| + 1
    && var rows := RowsFor(u.audit[|t.audit|..], c);
       if Stored(u, c) == Stored(t, c) then rows == []
       else |rows| == 1 && Subject(rows[0].entry).Some? && Stored(u, c) == Some(StateAfter(rows[0].entry))
  }

  lemma OneRowAdded(before: seq<AuditRow>, after: seq<AuditRow>, row: AuditRow, c: string)
    requires after == before + [row]
    ensures before <= after && RowsFor(after[|before|..], c) == if Subject(row.entry) == Some(c) then [row] else []
  {
    assert after[|before|..] == [row] && [row][..0] == [];
  }

  /** No transition leads back to the state it starts from. */
  lemma NoRowStays(id: Id)
    ensures Row(id).from != Some(Row(id).to)
  {
  }

  lemma SameCasesAccounted(t: Tables, u: Tables, row: AuditRow, c: string)
    requires u.cases == t.cases && u.audit == t.audit + [row] && Subject(row.entry).None?
    ensures Accounted(t, u, c)
  {
    OneRowAdded(t.audit, u.audit, row, c);
  }

  lemma OpenedAccounted(t: Tables, u: Tables, d: string, newRow: Case, at: Instant, c: string)
    requires d !in t.cases && u.cases == t.cases[d := newRow]
    requires u.audit == t.audit + [AuditRow(ACTOR, at, Creation(d, newRow.state))]
    ensures Accounted(t, u, c)
  {
    OneRowAdded(t.audit, u.audit, AuditRow(ACTOR, at, Creation(d, newRow.state)), c);
  }

  lemma AdvancedAccounted(t: Tables, u: Tables, d: string, code: Id, to: State, at: Instant, c: string)
    requires d in t.cases && Row(code) == Spec(Some(t.cases[d].state), to) && code !in REAPPEARED
    requires u.cases == SetState(t, d, to).cases
    requires u.audit == t.audit + [AuditRow(ACTOR, at, Transit(code, t.cases[d].state, to, Some(d), None))]
    ensures Accounted(t, u, c)
  {
    NoRowStays(code);
    OneRowAdded(t.audit, u.audit, AuditRow(ACTOR, at, Transit(code, t.cases[d].state, to, Some(d), None)), c);
  }

  lemma ChangeAccounted(t: Tables, u: Tables, ch: Change, c: string)
    requires Changes(t, u, ch)
    ensures Accounted(t, u, c)
  {
    match ch
    case Quiet(notes) =>
      if notes == [] {
        assert u.audit == t.audit;
      } else {
        assert notes == [notes[0]];
        SameCasesAccounted(t, u, notes[0], c);
      }
    case Opened(d, row, at) => OpenedAccounted(t, u, d, row, at, c);
    case Advanced(d, code, to, at) => AdvancedAccounted(t, u, d, code, to, at, c);
    case Resurfaced(row) => SameCasesAccounted(t, u, row, c);
  }

  /** No case is created or changes state without exactly one audit row that says so, no row speaks for a
    * case that did not change, and one transaction appends at most one row. */
  lemma OneRowPerChange(t: Tables, e: Event, c: string)
    ensures Accounted(t, Transact(t, e).0, c)
  {
    var ch := Classify(t, e);
    ChangeAccounted(t, Transact(t, e).0, ch, c);
  }

  /** What may survive a refused request: the gate, the response or the sighting that was reported. */
  ghost predicate OnlyReported(t: Tables, u: Tables, e: Event) {
    match e
    case EGate(_, _, _, r) => u == t || u == t.(gates := t.gates + [Gate(r.caseId, r.kind)])
    case EResponse(_, _, r) => u == t || u == t.(responses := t.responses + [ResponseRow(r.caseId, OutcomeOf(r.kind))])
    case EReappear(_, _, r) => u == t || u == t.(reappearances := t.reappearances + [Reappearance(r.exposure, r.priorRow)])
    case _ => u == t
  }

  /** A thrown request leaves no trace; a refused one leaves at most the row that records its report; and an
    * answer that names a transition is backed by the newest audit row. */
  ghost predicate Honest(t: Tables, e: Event) {
    var (u, answer) := Transact(t, e);
    match answer
    case Crashed => u == t
    case Denied(_) => OnlyReported(t, u, e)
    case Done(Some(id)) =>
      |u.audit| == |t.audit| + 1 && u.audit[|t.audit|].entry.Transit? && u.audit[|t.audit|].entry.code == id
    case Done(None) => true
  }

  lemma FinishIsHonest(before: Tables, t: Tables, call: Call, c: string, o: Outcome)
    requires o.Moved? && o.from.Some? && c in t.cases && t.audit == before.audit
    ensures var (u, answer) := Finish(before, t, call, c, o);
            if call.storable
            then answer == Done(Some(o.id)) && |u.audit| == |before.audit| + 1
                 && u.audit[|before.audit|].entry.Transit? && u.audit[|before.audit|].entry.code == o.id
            else u == before && answer == Crashed
  {
  }

  /** A guarded update is refused, crashes, or ends in the shared tail. */
  lemma UpdateEnds(t: Tables, call: Call, l: Loaded, k: set<string>, r: UpdateRequest) returns (o: Outcome)
    ensures var (u, answer) := GuardedUpdate(t, call, l, k, r);
            || (u == t && (answer.Denied? || answer.Crashed?))
            || (r.caseId in t.cases && o.Moved? && o.from.Some? && (u, answer) == Finish(t, t, call, r.caseId, o))
  {
    o := Threw(Machine(NoSuchTransition));
    if r.caseId in t.cases {
      var input := InputFrom(l, t.cases[r.caseId].state, r.requested == HumanRequired);
      if input.Some? {
        o := PrepareRequest(call.ctx, input.value);
      }
    }
  }

  lemma UpdateIsHonest(t: Tables, call: Call, l: Loaded, k: set<string>, r: UpdateRequest)
    ensures Honest(t, EUpdate(call, l, k, r))
  {
    var o := UpdateEnds(t, call, l, k, r);
    if r.caseId in t.cases && o.Moved? && o.from.Some? {
      FinishIsHonest(t, t, call, r.caseId, o);
    }
  }

  /** A gate is refused with or without its row, crashes, or ends in the shared tail. */
  lemma GateEnds(t: Tables, call: Call, l: Loaded, k: set<string>, r: GateRequest) returns (o: Outcome)
    ensures var (u, answer) := RecordHumanGate(t, call, l, k, r);
            var gated := t.(gates := t.gates + [Gate(r.caseId, r.kind)]);
            || ((u == t || u == gated) && answer.Denied?) || (u == t && answer.Crashed?)
            || (r.caseId in t.cases && o.Moved? && o.from.Some? && (u, answer) == Finish(t, gated, call, r.caseId, o))
  {
    o := Threw(Machine(NoSuchTransition));
    if r.caseId in t.cases {
      var input := InputFrom(l, t.cases[r.caseId].state, true);
      if input.Some? {
        o := PrepareRequest(call.ctx, input.value);
      }
    }
  }

  lemma GateIsHonest(t: Tables, call: Call, l: Loaded, k: set<string>, r: GateRequest)
    ensures Honest(t, EGate(call, l, k, r))
  {
    var o := GateEnds(t, call, l, k, r);
    if r.caseId in t.cases && o.Moved? && o.from.Some? {
      FinishIsHonest(t, t.(gates := t.gates + [Gate(r.caseId, r.kind)]), call, r.caseId, o);
    }
  }

  lemma VerificationIsHonest(t: Tables, call: Call, k: set<string>, r: VerifyRequest)
    ensures Honest(t, EVerify(call, k, r))
  {
  }

  lemma AnswersAreHonest(t: Tables, e: Event)
    ensures Honest(t, e)
  {
    match e
    case EUpdate(call, l, k, r) => UpdateIsHonest(t, call, l, k, r);
    case EGate(call, l, k, r) => GateIsHonest(t, call, l, k, r);
    case EVerify(call, k, r) => VerificationIsHonest(t, call, k, r);
    case _ =>
  }

  // ---------------------------------------------------------------- replaying every row that names a case

  predicate Names(e: Entry, c: string) {
    match e
    case Creation(d, _) => d == c
    case Transit(_, _, _, d, _) => d == Some(c)
    case Note => false
  }

  function Latest(audit: seq<AuditRow>, c: string): (r: Option<Entry>)
    ensures r.Some? ==> Names(r.value, c) && exists i :: 0 <= i < |audit| && audit[i].entry == r.value
  {
    if audit == [] then None
    else if Names(audit[|audit| - 1].entry, c) then Some(audit[|audit| - 1].entry)
    else Latest(audit[..|audit| - 1], c)
  }

  predicate Resurfacing(e: Entry) { e.Transit? && e.code in REAPPEARED }

  lemma {:induction false} LatestRebuilds(audit: seq<AuditRow>, c: string)
    ensures Latest(audit, c).Some? && !Resurfacing(Latest(audit, c).value) ==>
              Subject(Latest(audit, c).value) == Some(c)
              && Rebuilt(audit, c) == Some(StateAfter(Latest(audit, c).value))
    ensures Latest(audit, c).None? ==> Rebuilt(audit, c).None?
  {
    if audit != [] && !Names(audit[|audit| - 1].entry, c) {
      LatestRebuilds(audit[..|audit| - 1], c);
    }
  }

  function EndOf(e: Entry): Option<State> {
    match e
    case Creation(_, s) => Some(s)
    case Transit(_, _, to, _, _) => Some(to)
    case Note => None
  }

  /** The newest row that names a case ends in the case's state exactly unless that row is a reappearance,
    * which names the case but moves only its exposure. */
  lemma NewestRowAgreesIff(t: Tables, c: string)
    requires EventSourced(t) && Chained(t.audit) && c in t.cases
    ensures Latest(t.audit, c).Some?
    ensures var e := Latest(t.audit, c).value;
            EndOf(e) == Some(t.cases[c].state) <==> !Resurfacing(e) || t.cases[c].state == Reappeared
  {
    assert Rebuilt(t.audit, c) == Stored(t, c);
    LatestRebuilds(t.audit, c);
    var e := Latest(t.audit, c).value;
    if Resurfacing(e) {
      var i :| 0 <= i < |t.audit| && t.audit[i].entry == e;
      assert FitsAt(t.audit, i);
    }
  }

  // ---------------------------------------------------------------- the other invariants

  /** A policy decision belongs to the case created from it, so no two cases share one. */
  ghost predicate OwnDecisions(t: Tables) {
    forall c :: c in t.cases ==> t.cases[c].decision in t.decisions && t.decisions[t.cases[c].decision] == Some(c)
  }

  /** At most one open case per subject, source and exposure. */
  ghost predicate OneOpenEach(t: Tables) {
    forall c, d :: c in t.cases && d in t.cases && Open(t.cases[c].state) && Open(t.cases[d].state) && c != d ==>
                     !SameTriple(t.cases[c], t.cases[d].subject, t.cases[d].source, t.cases[d].exposure)
  }

  ghost predicate BornVerified(audit: seq<AuditRow>, c: string) {
    exists i :: 0 <= i < |audit| && audit[i].entry == Creation(c, VerifiedRemoved)
  }

  /** A verified removal was either already there when the case was opened, or earned. */
  ghost predicate RemovalsEarned(t: Tables) {
    forall c :: c in t.cases && t.cases[c].state == VerifiedRemoved ==> BornVerified(t.audit, c) || Earned(t, c)
  }

  lemma DecisionsStep(t: Tables, u: Tables, ch: Change)
    requires Changes(t, u, ch) && OwnDecisions(t)
    ensures OwnDecisions(u)
  {
  }

  /** A closed case is never reopened by a legal case transition. */
  lemma OpenFrom(code: Id)
    requires code !in REAPPEARED && Row(code).from.Some? && Open(Row(code).to)
    ensures Open(Row(code).from.value)
  {
  }

  lemma OneOpenStep(t: Tables, u: Tables, ch: Change)
    requires Changes(t, u, ch) && OneOpenEach(t)
    ensures OneOpenEach(u)
  {
    if ch.Advanced? && Open(ch.to) {
      OpenFrom(ch.code);
    }
  }

  lemma EarnedGrows(t: Tables, u: Tables, c: string)
    requires Earned(t, c) && t.observations <= u.observations && t.audit <= u.audit
    ensures Earned(u, c)
  {
    var i, k :| 0 <= i < |t.observations| && 0 <= k < |t.audit| && Independent(t.observations[i], t.audit[k], c);
    assert Independent(u.observations[i], u.audit[k], c);
  }

  lemma BornGrows(t: Tables, u: Tables, c: string)
    requires BornVerified(t.audit, c) && t.audit <= u.audit
    ensures BornVerified(u.audit, c)
  {
    var i :| 0 <= i < |t.audit| && t.audit[i].entry == Creation(c, VerifiedRemoved);
    assert u.audit[i].entry == Creation(c, VerifiedRemoved);
  }

  lemma AuditGrows(t: Tables, u: Tables, ch: Change)
    requires Changes(t, u, ch)
    ensures t.audit <= u.audit
  {
  }

  lemma EarnedStep(t: Tables, u: Tables, ch: Change)
    requires Changes(t, u, ch) && RemovalsEarned(t)
    ensures RemovalsEarned(u)
  {
    AuditGrows(t, u, ch);
    forall c | c in u.cases && u.cases[c].state == VerifiedRemoved
      ensures BornVerified(u.audit, c) || Earned(u, c)
    {
      if c in t.cases && t.cases[c].state == VerifiedRemoved {
        if Earned(t, c) { EarnedGrows(t, u, c); } else { BornGrows(t, u, c); }
      } else if ch.Opened? {
        assert u.audit[|t.audit|].entry == Creation(c, VerifiedRemoved);
      } else {
        PathRows(ch.code);
      }
    }
  }

  ghost predicate Inv(t: Tables) { OwnDecisions(t) && OneOpenEach(t) && RemovalsEarned(t) }

  lemma {:induction false} RunKeepsInv(t: Tables, events: seq<Event>)
    requires Inv(t)
    ensures Inv(After(t, events))
  {
    if events != [] {
      var init := events[..|events| - 1];
      RunKeepsInv(t, init);
      var before, after := After(t, init), After(t, events);
      var ch := Classify(before, events[|events| - 1]);
      DecisionsStep(before, after, ch);
      OneOpenStep(before, after, ch);
      EarnedStep(before, after, ch);
    }
  }

  /** From an empty database: cases never share a decision, no two open cases are about the same thing, and
    * a removal is verified only on an independent, later observation of absence. */
  lemma EveryRunIsSafe(events: seq<Event>)
    ensures Inv(After(EMPTY, events)) && EventSourced(After(EMPTY, events)) && Chained(After(EMPTY, events).audit)
  {
    EmptyIsSourced();
    LogRebuildsCases(EMPTY, events);
    RunKeepsInv(EMPTY, events);
  }

  // ---------------------------------------------------------------- finality and versions

  /** Where no case transition leads out of. */
  predicate Final(s: State) { Absorbing(s) || s == VerifiedRemoved }

  lemma FinalStep(t: Tables, u: Tables, ch: Change, c: string)
    requires Changes(t, u, ch) && c in t.cases
    ensures c in u.cases && u.cases[c].version >= t.cases[c].version
    ensures u.cases[c] != t.cases[c] ==> u.cases[c].version > t.cases[c].version
    ensures Final(t.cases[c].state) ==> u.cases[c] == t.cases[c]
    ensures u.cases[c].(state := t.cases[c].state, version := t.cases[c].version) == t.cases[c]
  {
    if ch.Advanced? {
      PathRows(ch.code);
    }
  }

  /** A final case is never changed again, whatever runs. */
  lemma {:induction false} FinalForever(t: Tables, events: seq<Event>, c: string)
    requires c in t.cases && Final(t.cases[c].state)
    ensures c in After(t, events).cases && After(t, events).cases[c] == t.cases[c]
  {
    if events != [] {
      var init := events[..|events| - 1];
      FinalForever(t, init, c);
      var ch := Classify(After(t, init), events[|events| - 1]);
      FinalStep(After(t, init), After(t, events), ch, c);
    }
  }

  /** HUMAN_REQUIRED is final yet open: once a case is there, no case for the same subject, source and
    * exposure can ever be created again. */
  lemma HumanRequiredBlocksForever(t: Tables, events: seq<Event>, c: string, call: Call, r: CreateRequest)
    requires c in t.cases && t.cases[c].state == HumanRequired
    requires SameTriple(t.cases[c], r.subject, r.source, r.exposure)
    ensures var later := After(t, events); CreateCase(later, call, r).0 == later && CreateCase(later, call, r).1.Denied?
  {
    FinalForever(t, events, c);
    assert HasOpenCase(After(t, events).cases, r.subject, r.source, r.exposure);
  }

  lemma {:induction false} VersionsGrow(t: Tables, events: seq<Event>, c: string)
    requires c in t.cases
    ensures c in After(t, events).cases && After(t, events).cases[c].version >= t.cases[c].version
  {
    if events != [] {
      var init := events[..|events| - 1];
      VersionsGrow(t, init, c);
      var ch := Classify(After(t, init), events[|events| - 1]);
      FinalStep(After(t, init), After(t, events), ch, c);
    }
  }

  /** The case and version a request names, for the handlers that are guarded by a version. */
  function Guarded(e: Event): Option<(string, nat)> {
    match e
    case EUpdate(_, _, _, r) => Some((r.caseId, r.version))
    case EGate(_, _, _, r) => Some((r.caseId, r.version))
    case EResponse(_, _, r) => Some((r.caseId, r.version))
    case EVerify(_, _, r) => Some((r.caseId, r.version))
    case _ => None
  }

  lemma StaleIsRefused(now: Tables, late: Event, c: string)
    requires Guarded(late).Some? && Guarded(late).value.0 == c && c in now.cases
    requires now.cases[c].version != Guarded(late).value.1
    ensures Transact(now, late) == (now, Denied(PreconditionFailed))
  {
  }

  lemma ChangedIsNewer(t: Tables, first: Event, c: string)
    requires c in t.cases && Stored(Transact(t, first).0, c) != Stored(t, c)
    ensures var u := Transact(t, first).0; c in u.cases && u.cases[c].version > t.cases[c].version
  {
    var ch := Classify(t, first);
    FinalStep(t, Transact(t, first).0, ch, c);
  }

  /** Once anything has changed a case, every request made against its earlier version is refused and
    * writes nothing, however much happens in between. */
  lemma StaleRequestsAreRefused(t: Tables, first: Event, between: seq<Event>, late: Event)
    requires Guarded(late).Some? && Guarded(late).value.0 in t.cases
    requires Guarded(late).value.1 == t.cases[Guarded(late).value.0].version
    requires Stored(Transact(t, first).0, Guarded(late).value.0) != Stored(t, Guarded(late).value.0)
    ensures var now := After(Transact(t, first).0, between);
            Transact(now, late) == (now, Denied(PreconditionFailed))
  {
    var c := Guarded(late).value.0;
    var u := Transact(t, first).0;
    ChangedIsNewer(t, first, c);
    VersionsGrow(u, between, c);
    StaleIsRefused(After(u, between), late, c);
  }
}
