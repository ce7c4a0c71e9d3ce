/** When each handler succeeds and what it leaves; whom it looks up; why it refuses. */
module CaseVerdicts {
  import opened Wrappers
  import opened TruthState
  import opened StateMachine
  import opened Channels
  import opened Entities
  import opened Commands
  import opened CommandMoves
  import opened CaseTables
  import opened CaseGuards

  // ---------------------------------------------------------------- opening a case

  predicate GrantCovers(g: StoredGrant, now: Instant) {
    && g.selfServiceWrite && g.revokedAtMs.None? && (g.expiresAtMs.Some? ==> now < g.expiresAtMs.value)
  }

  ghost predicate Taken(t: Tables, r: CreateRequest) {
    exists c :: c in t.cases && t.cases[c].subject == r.subject && t.cases[c].source == r.source
                && t.cases[c].exposure == r.exposure
                && t.cases[c].state !in {VerifiedRemoved, VerifiedNotPresent, NotRemovable}
  }

  ghost predicate Creatable(t: Tables, call: Call, r: CreateRequest) {
    && r.exposure in t.exposures
    && t.exposures[r.exposure].subject == r.subject && t.exposures[r.exposure].source == r.source
    && t.exposures[r.exposure].state != DiscoveredCandidate
    && r.grant.Some? && GrantCovers(r.grant.value, call.ctx.nowMs)
    && !Taken(t, r)
    && r.decision in t.decisions && t.decisions[r.decision].None?
    && r.recipe == Some((true, r.source))
    && r.newId !in t.cases && call.ctx.recordable && call.storable
  }

  /** A case is opened exactly for a confirmed exposure of the same subject and source, under a grant that covers it,
    * with an unused decision and an enabled recipe of that source, while no case for them is open; it starts in
    * the exposure's state and takes the decision. */
  lemma CreateDoneIff(t: Tables, call: Call, r: CreateRequest)
    ensures var (u, answer) := CreateCase(t, call, r);
            && (answer == Done(None) <==> Creatable(t, call, r))
            && (answer.Done? ==> answer == Done(None))
            && (!answer.Done? ==> u == t)
            && (answer.Done? ==>
                && u.cases == t.cases[r.newId :=
                     Case(t.exposures[r.exposure].state, 0, r.subject, r.source, r.exposure, r.decision)]
                && u.decisions == t.decisions[r.decision := Some(r.newId)])
  {
    assert HasOpenCase(t.cases, r.subject, r.source, r.exposure) <==> Taken(t, r) by {
      assert forall s :: Open(s) <==> s != VerifiedRemoved && s != VerifiedNotPresent && s != NotRemovable;
    }
  }

  /** The reason given is true of the request. */
  lemma CreateReason(t: Tables, call: Call, r: CreateRequest)
    requires CreateCase(t, call, r).1.Denied?
    ensures match CreateCase(t, call, r).1.reason
            case NotFound => r.exposure !in t.exposures
            case ExposureStateMismatch =>
              r.exposure in t.exposures &&
              var e := t.exposures[r.exposure];
              e.subject != r.subject || e.source != r.source || e.state == DiscoveredCandidate
            case AuthorityInsufficient => r.grant.None? || !GrantCovers(r.grant.value, call.ctx.nowMs)
            case CaseAlreadyExists => Taken(t, r)
            case PolicyDecisionIncomplete => r.decision !in t.decisions || t.decisions[r.decision].Some?
            case RecipeNotEnabled => r.recipe != Some((true, r.source))
            case _ => false
  {
    if HasOpenCase(t.cases, r.subject, r.source, r.exposure) {
      var c :| c in t.cases && Open(t.cases[c].state) && SameTriple(t.cases[c], r.subject, r.source, r.exposure);
      assert t.cases[c].subject == r.subject;
    }
  }

  // ---------------------------------------------------------------- human gates

  /** The move of one case, and no other. */
  predicate MovesCase(t: Tables, u: Tables, c: string, to: State) {
    && c in t.cases && u.cases == t.cases[c := t.cases[c].(state := to, version := t.cases[c].version + 1)]
  }

  predicate GateAdmitted(t: Tables, l: Loaded, known: set<string>, r: GateRequest) {
    && r.caseId in t.cases && t.cases[r.caseId].version == r.version && !r.bypass
    && (r.evidence.Some? ==> r.evidence.value in known)
    && r.routable && l.decision.Some? && l.authority.Some? && l.recipe.Some?
  }

  lemma GateDecides(t: Tables, call: Call, l: Loaded, known: set<string>, r: GateRequest, input: PrepareInput, o: Outcome)
    requires GateAdmitted(t, l, known, r) && InputFrom(l, t.cases[r.caseId].state, true) == Some(input)
    requires o == PrepareRequest(call.ctx, input) && (o.Moved? ==> o.from.Some? && o.to == HumanRequired)
    ensures var (u, answer) := RecordHumanGate(t, call, l, known, r);
            && (answer.Done? <==> o.Moved? && call.storable)
            && (answer.Done? ==> MovesCase(t, u, r.caseId, HumanRequired))
            && (!answer.Crashed? ==> u.gates == t.gates + [Gate(r.caseId, r.kind)])
  {
  }

  /** A gate is recorded with a move exactly when the request is admitted, the rows are usable now and the case is in a
    * state a gate can stop; the case then waits for a human. */
  lemma GateDoneIff(t: Tables, call: Call, l: Loaded, known: set<string>, r: GateRequest)
    ensures var (u, answer) := RecordHumanGate(t, call, l, known, r);
            && (answer.Done? <==>
                && GateAdmitted(t, l, known, r) && UsableNow(l, call.ctx.nowMs) && t.cases[r.caseId].state in GATED
                && call.ctx.recordable && call.storable)
            && (answer.Done? ==> MovesCase(t, u, r.caseId, HumanRequired) && u.gates == t.gates + [Gate(r.caseId, r.kind)])
  {
    if GateAdmitted(t, l, known, r) {
      var input := InputFrom(l, t.cases[r.caseId].state, true);
      if input.Some? {
        PreparedFromRows(call.ctx, l, t.cases[r.caseId].state, true);
        PreparesIff(call.ctx, input.value);
        PrepareMoves(call.ctx, input.value);
        GateDecides(t, call, l, known, r, input.value, PrepareRequest(call.ctx, input.value));
      }
    }
  }

  // ---------------------------------------------------------------- controller responses

  function OutcomeFor(k: ResponseKind): ResponseOutcome {
    if k == RefusalKind || k == NoResponseTimeout then ResponseRefused
    else if k == DemandsIdentity || k == DemandsAuthority then ResponseHumanGate
    else ResponseAcknowledged
  }

  predicate ResponseAdmitted(t: Tables, known: set<string>, r: ResponseRequest) {
    && r.caseId in t.cases && t.cases[r.caseId].version == r.version
    && (r.evidence.Some? ==> r.evidence.value in known)
    && (r.kind == RefusalKind ==> r.basis.Some? && r.basis.value != "")
  }

  /** A refusal and a timeout end the removal, a demand hands the case to a human, and anything else acknowledges it;
    * from ACKNOWLEDGED only a refusal with its basis, or a timeout, ends it. The response itself is kept whenever
    * it is admitted and nothing is thrown. */
  lemma ResponseDoneIff(t: Tables, call: Call, known: set<string>, r: ResponseRequest)
    ensures var (u, answer) := RecordResponse(t, call, known, r);
            && (answer.Done? <==>
                && ResponseAdmitted(t, known, r) && r.wellFormed && call.ctx.recordable && call.storable
                && ResponseApplies(t.cases[r.caseId].state, OutcomeFor(r.kind), r.basis.Some? || r.kind == NoResponseTimeout))
            && (answer.Done? ==> MovesCase(t, u, r.caseId, ResponseTarget(OutcomeFor(r.kind))))
            && (!answer.Done? ==> u.cases == t.cases)
            && u.responses == t.responses + (if ResponseAdmitted(t, known, r) && !answer.Crashed?
                                             then [ResponseRow(r.caseId, OutcomeFor(r.kind))] else [])
  {
    assert OutcomeOf(r.kind) == OutcomeFor(r.kind);
    if r.caseId in t.cases {
      ResponseIff(call.ctx, t.cases[r.caseId].state, OutcomeOf(r.kind), BasisRecorded(r));
    }
  }

  // ---------------------------------------------------------------- verification

  predicate Submits(row: AuditRow, c: string) {
    row.entry.Transit? && row.entry.code == T8 && row.entry.ofCase == Some(c)
  }

  /** Row `k` is the submission of `c` with the latest time, the last one of them. */
  predicate LatestSubmission(audit: seq<AuditRow>, c: string, k: nat) {
    && k < |audit| && Submits(audit[k], c)
    && forall j :: 0 <= j < |audit| && Submits(audit[j], c) ==>
         audit[j].atMs < audit[k].atMs || (audit[j].atMs == audit[k].atMs && j <= k)
  }

  lemma {:induction false} SubmissionRowIs(audit: seq<AuditRow>, c: string)
    ensures match SubmissionRow(audit, c)
            case Some(k) => LatestSubmission(audit, c, k)
            case None => forall j :: 0 <= j < |audit| ==> !Submits(audit[j], c)
  {
    if audit != [] {
      var init := audit[..|audit| - 1];
      SubmissionRowIs(init, c);
      assert forall j :: 0 <= j < |init| ==> audit[j] == init[j];
    }
  }

  /** What is asked of an observation before the command judges it. */
  predicate Observable(t: Tables, known: set<string>, r: VerifyRequest, k: nat) {
    && r.caseId in t.cases && t.cases[r.caseId].version == r.version && t.cases[r.caseId].state == Acknowledged
    && (r.evidence.Some? ==> r.evidence.value in known)
    && LatestSubmission(t.audit, r.caseId, k)
    && r.observationPath != r.actingPath && r.actor != t.audit[k].actor && r.means == r.recipeMeans
    && r.requiredSeconds > 0 && r.wellFormed
    && (r.finding == Absent ==> r.observedAtMs - t.audit[k].atMs >= r.requiredSeconds * 1000)
  }

  lemma VerifyEnds(t: Tables, call: Call, known: set<string>, r: VerifyRequest, k: nat)
    requires Observable(t, known, r, k) && SubmissionRow(t.audit, r.caseId) == Some(k)
    ensures var seen := t.(observations := t.observations + [ObservationOf(r, t.audit[k].actor)]);
            RecordObservation(t, call, known, r) ==
            Concluded(t, seen, call, r.caseId, Commands.RecordVerification(call.ctx, VerificationOf(r, t.audit[k])))
  {
  }

  lemma ConcludedIs(t: Tables, seen: Tables, call: Call, r: VerifyRequest, acting: AuditRow)
    requires r.caseId in t.cases && seen.cases == t.cases && r.requiredSeconds > 0 && r.means == r.recipeMeans
    requires r.actor != acting.actor && (r.finding == Absent ==> r.observedAtMs - acting.atMs >= r.requiredSeconds * 1000)
    ensures var (u, answer) := Concluded(t, seen, call, r.caseId, Commands.RecordVerification(call.ctx, VerificationOf(r, acting)));
            if !call.ctx.recordable || !call.storable then (u, answer) == (t, Crashed)
            else
              && u.observations == seen.observations
              && if r.finding == Absent then answer == Done(Some(T14)) && MovesCase(t, u, r.caseId, VerifiedRemoved)
                 else answer == Done(None) && u.cases == t.cases
  {
    if call.ctx.recordable {
      VerificationDecides(call.ctx, VerificationOf(r, acting));
    }
  }

  /** An observation is recorded exactly when it is of an acknowledged case, by another name and path than the latest
    * submission's, by the recipe's method and, if it reports an absence, after the whole window; an absence then
    * removes the case and anything else leaves it where it is. */
  lemma VerifyDoneIff(t: Tables, call: Call, known: set<string>, r: VerifyRequest)
    ensures var (u, answer) := RecordObservation(t, call, known, r);
            && (answer.Done? <==> call.ctx.recordable && call.storable && exists k: nat :: Observable(t, known, r, k))
            && (answer.Done? ==>
                if r.finding == Absent then answer == Done(Some(T14)) && MovesCase(t, u, r.caseId, VerifiedRemoved)
                else answer == Done(None) && u.cases == t.cases)
            && (!answer.Done? ==> u == t)
  {
    SubmissionRowIs(t.audit, r.caseId);
    var k := SubmissionRow(t.audit, r.caseId);
    if k.Some? && Observable(t, known, r, k.value) {
      var acting := t.audit[k.value];
      VerifyEnds(t, call, known, r, k.value);
      ConcludedIs(t, t.(observations := t.observations + [ObservationOf(r, acting.actor)]), call, r, acting);
    } else {
      NotObservable(t, call, known, r);
      forall j: nat | LatestSubmission(t.audit, r.caseId, j)
        ensures k == Some(j)
      {
        assert Submits(t.audit[j], r.caseId);
      }
    }
  }

  lemma NotObservable(t: Tables, call: Call, known: set<string>, r: VerifyRequest)
    requires SubmissionRow(t.audit, r.caseId).Some? ==> LatestSubmission(t.audit, r.caseId, SubmissionRow(t.audit, r.caseId).value)
    requires SubmissionRow(t.audit, r.caseId).Some? ==> !Observable(t, known, r, SubmissionRow(t.audit, r.caseId).value)
    ensures !RecordObservation(t, call, known, r).1.Done? && RecordObservation(t, call, known, r).0 == t
  {
  }

  // ---------------------------------------------------------------- reappearance

  /** The row opened a case that is still there, for this exposure. */
  predicate OpensFor(t: Tables, row: AuditRow, exposure: string) {
    row.entry.Creation? && row.entry.caseId in t.cases && t.cases[row.entry.caseId].exposure == exposure
  }

  /** Row `k` is the last one that opened a case for the exposure. */
  predicate LastOpening(t: Tables, audit: seq<AuditRow>, exposure: string, k: nat) {
    k < |audit| && OpensFor(t, audit[k], exposure) && forall j :: k < j < |audit| ==> !OpensFor(t, audit[j], exposure)
  }

  ghost predicate NewestFits(t: Tables, audit: seq<AuditRow>, exposure: string, newest: Option<string>) {
    match newest
    case Some(c) => exists k: nat :: LastOpening(t, audit, exposure, k) && audit[k].entry.caseId == c
    case None => forall j :: 0 <= j < |audit| ==> !OpensFor(t, audit[j], exposure)
  }

  lemma NewestNext(t: Tables, audit: seq<AuditRow>, row: AuditRow, exposure: string, newest: Option<string>)
    requires NewestFits(t, audit, exposure, newest)
    ensures NewestFits(t, audit + [row], exposure, if OpensFor(t, row, exposure) then Some(row.entry.caseId) else newest)
  {
    var longer := audit + [row];
    if OpensFor(t, row, exposure) {
      assert LastOpening(t, longer, exposure, |audit|);
    } else if newest.Some? {
      var k: nat :| LastOpening(t, audit, exposure, k) && audit[k].entry.caseId == newest.value;
      assert LastOpening(t, longer, exposure, k);
    }
  }

  lemma {:induction false} NewestCaseIs(t: Tables, audit: seq<AuditRow>, exposure: string)
    ensures NewestFits(t, audit, exposure, NewestCase(t, audit, exposure))
  {
    if audit != [] {
      var init, row := audit[..|audit| - 1], audit[|audit| - 1];
      NewestCaseIs(t, init, exposure);
      NewestNext(t, init, row, exposure, NewestCase(t, init, exposure));
      assert audit == init + [row];
    }
  }

  /** The row recorded that this exposure, or a case of it, was removed or delisted. */
  predicate Establishes(t: Tables, row: AuditRow, exposure: string, state: State) {
    && row.entry.Transit? && row.entry.to == state
    && (if state == VerifiedRemoved then row.entry.code == T14 else row.entry.code == T21)
    && (row.entry.onExposure == Some(exposure)
        || (row.entry.ofCase.Some? && row.entry.ofCase.value in t.cases && t.cases[row.entry.ofCase.value].exposure == exposure))
  }

  /** A reappearance is recorded exactly for a removed or delisted exposure at its current version, with the row that
    * established this and known evidence; the exposure reappears, its case does not move, and the audit row names
    * the newest case opened for it. */
  lemma ReappearDoneIff(t: Tables, call: Call, known: set<string>, r: ReappearRequest)
    ensures var (u, answer) := RecordReappearance(t, call, known, r);
            && (answer.Done? <==>
                && r.exposure in t.exposures && r.versionMatches
                && t.exposures[r.exposure].state in {VerifiedRemoved, SearchDelisted}
                && r.priorRow < |t.audit|
                && Establishes(t, t.audit[r.priorRow], r.exposure, t.exposures[r.exposure].state)
                && r.evidence in known && call.ctx.recordable && call.storable)
            && (answer.Done? ==>
                var e := t.exposures[r.exposure];
                var code := if e.state == VerifiedRemoved then T17 else T20;
                && answer == Done(Some(code))
                && u.exposures == t.exposures[r.exposure := e.(state := Reappeared)] && u.cases == t.cases
                && u.reappearances == t.reappearances + [Reappearance(r.exposure, r.priorRow)]
                && u.audit == t.audit + [AuditRow(ACTOR, call.ctx.nowMs,
                     Transit(code, e.state, Reappeared, NewestCase(t, t.audit, r.exposure), Some(r.exposure)))])
            && (!answer.Done? ==> u.cases == t.cases && u.exposures == t.exposures && u.audit == t.audit)
  {
    if r.exposure in t.exposures {
      ReappearanceIff(call.ctx, t.exposures[r.exposure].state, true);
      if r.priorRow < |t.audit| {
        assert Establishes(t, t.audit[r.priorRow], r.exposure, t.exposures[r.exposure].state)
               <==> PriorEvent(t, t.audit[r.priorRow], r.exposure, t.exposures[r.exposure].state);
      }
    }
  }

  // ---------------------------------------------------------------- reasons

  /** What the refusals of the four handlers of one case have in common. */
  predicate CaseReason(t: Tables, caseId: string, version: nat, reason: Reason) {
    && (reason == NotFound <==> caseId !in t.cases)
    && (reason == PreconditionFailed <==> caseId in t.cases && t.cases[caseId].version != version)
  }

  predicate UnknownEvidence(evidence: Option<string>, known: set<string>) { evidence.Some? && evidence.value !in known }

  /** The reason holds of the update. */
  ghost predicate UpdateRefused(t: Tables, ctx: Context, l: Loaded, known: set<string>, r: UpdateRequest, reason: Reason) {
    && CaseReason(t, r.caseId, r.version, reason)
    && match reason
       case NotFound | PreconditionFailed => true
       case NotRouteable => r.requested !in {RequestReady, NotRemovable, HumanRequired}
       case PolicyDecisionIncomplete => l.decision.None?
       case AuthorityInsufficient => l.authority.None?
       case EvidenceNotFound => !AllEvidenceKnown(r.evidence, known)
       case IllegalTransition => NoRowTo(t.cases[r.caseId].state, Wanted(l, r.requested))
       case GuardFailed =>
         l.recipe.None? || !l.signatureVerifies || !UsableNow(l, ctx.nowMs) || !ctx.recordable
         || Wanted(l, r.requested) != r.requested || t.cases[r.caseId].state !in Sources(r.requested)
       case _ => false
  }

  ghost predicate NoRowTo(from: State, to: State) { forall id :: Row(id) != Spec(Some(from), to) }

  /** A refused preparation blames the table exactly when the table has no such row. */
  lemma RefusedPreparation(ctx: Context, i: PrepareInput, o: Outcome)
    requires o == PrepareRequest(ctx, i) && !o.Moved?
    ensures o.Threw? && (Illegal(o.error) <==> Preparable(ctx, i) && NoRowTo(i.from, PreparedTarget(i)))
  {
    NoRowIsDiagnosed(i.from, PreparedTarget(i), PreparedFacts(i));
  }

  /** How an admitted update ends when the preparation `o` does not give it what it asked for. */
  lemma RefusedInside(t: Tables, call: Call, l: Loaded, known: set<string>, r: UpdateRequest, i: PrepareInput, o: Outcome)
    requires Admitted(t, l, known, r) && i.from == t.cases[r.caseId].state && PreparedTarget(i) == Wanted(l, r.requested)
    requires Preparable(call.ctx, i) <==> UsableNow(l, call.ctx.nowMs)
    requires !o.Moved? ==> Preparable(call.ctx, i) && call.ctx.recordable ==> i.from !in Sources(PreparedTarget(i))
    requires o.Moved? ==> o.to == PreparedTarget(i)
    requires !o.Moved? ==> o.Threw? && (Illegal(o.error) <==> Preparable(call.ctx, i) && NoRowTo(i.from, PreparedTarget(i)))
    ensures !o.Moved? ==> UpdateRefused(t, call.ctx, l, known, r, if Illegal(o.error) then IllegalTransition else GuardFailed)
    ensures o.Moved? && o.to != r.requested ==> UpdateRefused(t, call.ctx, l, known, r, GuardFailed)
  {
  }

  lemma RefusedAtTheDoor(t: Tables, call: Call, l: Loaded, known: set<string>, r: UpdateRequest)
    requires !Admitted(t, l, known, r)
    ensures GuardedUpdate(t, call, l, known, r).1.Denied?
    ensures UpdateRefused(t, call.ctx, l, known, r, GuardedUpdate(t, call, l, known, r).1.reason)
  {
  }

  /** An update is refused for a reason that holds of it. */
  lemma UpdateReason(t: Tables, call: Call, l: Loaded, known: set<string>, r: UpdateRequest)
    requires GuardedUpdate(t, call, l, known, r).1.Denied?
    ensures UpdateRefused(t, call.ctx, l, known, r, GuardedUpdate(t, call, l, known, r).1.reason)
  {
    if Admitted(t, l, known, r) {
      AdmittedReason(t, call, l, known, r);
    } else {
      RefusedAtTheDoor(t, call, l, known, r);
    }
  }

  lemma AdmittedReason(t: Tables, call: Call, l: Loaded, known: set<string>, r: UpdateRequest)
    requires Admitted(t, l, known, r) && GuardedUpdate(t, call, l, known, r).1.Denied?
    ensures UpdateRefused(t, call.ctx, l, known, r, GuardedUpdate(t, call, l, known, r).1.reason)
  {
    var i := InputFrom(l, t.cases[r.caseId].state, r.requested == HumanRequired).value;
    var o := PrepareRequest(call.ctx, i);
    PreparedFromRows(call.ctx, l, t.cases[r.caseId].state, r.requested == HumanRequired);
    PreparesIff(call.ctx, i);
    PrepareMoves(call.ctx, i);
    UpdateEnds(t, call, l, known, r, i, o);
    if !o.Moved? {
      RefusedPreparation(call.ctx, i, o);
    }
    RefusedInside(t, call, l, known, r, i, o);
  }

  /** The target the stored rows justify. */
  function Wanted(l: Loaded, requested: State): State {
    if requested == HumanRequired then HumanRequired else if Writable(l) then RequestReady else NotRemovable
  }

  lemma UpdateEnds(t: Tables, call: Call, l: Loaded, known: set<string>, r: UpdateRequest, i: PrepareInput, o: Outcome)
    requires Admitted(t, l, known, r) && InputFrom(l, t.cases[r.caseId].state, r.requested == HumanRequired) == Some(i)
    requires o == PrepareRequest(call.ctx, i) && GuardedUpdate(t, call, l, known, r).1.Denied?
    ensures GuardedUpdate(t, call, l, known, r).1.reason ==
            if !o.Moved? && o.Threw? && Illegal(o.error) then IllegalTransition else GuardFailed
    ensures o.Moved? ==> o.to != r.requested
  {
    PrepareMoves(call.ctx, i);
  }

  /** So is a gate. */
  lemma GateReason(t: Tables, call: Call, l: Loaded, known: set<string>, r: GateRequest)
    requires RecordHumanGate(t, call, l, known, r).1.Denied?
    ensures var reason := RecordHumanGate(t, call, l, known, r).1.reason;
            && CaseReason(t, r.caseId, r.version, reason)
            && match reason
               case NotFound | PreconditionFailed => true
               case BypassAttempt => r.bypass
               case EvidenceNotFound => UnknownEvidence(r.evidence, known)
               case IllegalTransition =>
                 || !GateAdmitted(t, l, known, r) || !UsableNow(l, call.ctx.nowMs) || !call.ctx.recordable
                 || t.cases[r.caseId].state !in GATED
               case _ => false
  {
    if GateAdmitted(t, l, known, r) {
      var input := InputFrom(l, t.cases[r.caseId].state, true).value;
      GateStopped(t, call, l, known, r, input);
      PreparedFromRows(call.ctx, l, t.cases[r.caseId].state, true);
      PreparesIff(call.ctx, input);
    }
  }

  lemma GateStopped(t: Tables, call: Call, l: Loaded, known: set<string>, r: GateRequest, input: PrepareInput)
    requires GateAdmitted(t, l, known, r) && InputFrom(l, t.cases[r.caseId].state, true) == Some(input)
    requires RecordHumanGate(t, call, l, known, r).1.Denied?
    ensures RecordHumanGate(t, call, l, known, r).1.reason == IllegalTransition && !PrepareRequest(call.ctx, input).Moved?
  {
    PrepareMoves(call.ctx, input);
  }

  /** And a response: a demand that the state does not allow is told that a human step is required. */
  lemma ResponseReason(t: Tables, call: Call, known: set<string>, r: ResponseRequest)
    requires RecordResponse(t, call, known, r).1.Denied?
    ensures var reason := RecordResponse(t, call, known, r).1.reason;
            && CaseReason(t, r.caseId, r.version, reason)
            && match reason
               case NotFound | PreconditionFailed => true
               case EvidenceNotFound => UnknownEvidence(r.evidence, known)
               case RefusalBasisRequired => r.kind == RefusalKind && (r.basis.None? || r.basis.value == "")
               case HumanStepRequired => OutcomeFor(r.kind) == ResponseHumanGate && t.cases[r.caseId].state !in GATED
               case IllegalTransition =>
                 || !r.wellFormed || !call.ctx.recordable
                 || !ResponseApplies(t.cases[r.caseId].state, OutcomeFor(r.kind), r.basis.Some? || r.kind == NoResponseTimeout)
               case _ => false
  {
    assert OutcomeOf(r.kind) == OutcomeFor(r.kind);
    if r.caseId in t.cases {
      ResponseIff(call.ctx, t.cases[r.caseId].state, OutcomeOf(r.kind), BasisRecorded(r));
      var facts := {HumanGateDetected};
      NoRowIsDiagnosed(t.cases[r.caseId].state, HumanRequired, facts);
      GatedRows(t.cases[r.caseId].state);
    }
  }

  lemma GatedRows(from: State)
    ensures from in GATED <==> exists id :: Row(id) == Spec(Some(from), HumanRequired)
  {
    match from
    case MatchConfirmed => assert Row(T7) == Spec(Some(from), HumanRequired);
    case RequestReady => assert Row(T9) == Spec(Some(from), HumanRequired);
    case RequestSubmitted => assert Row(T12) == Spec(Some(from), HumanRequired);
    case Acknowledged => assert Row(T16) == Spec(Some(from), HumanRequired);
    case _ =>
  }

  /** And an observation. */
  lemma VerifyReason(t: Tables, call: Call, known: set<string>, r: VerifyRequest)
    requires RecordObservation(t, call, known, r).1.Denied?
    ensures var reason := RecordObservation(t, call, known, r).1.reason;
            && CaseReason(t, r.caseId, r.version, reason)
            && match reason
               case NotFound | PreconditionFailed => true
               case IllegalTransition => t.cases[r.caseId].state != Acknowledged
               case EvidenceNotFound => UnknownEvidence(r.evidence, known)
               case PathNotIndependent =>
                 r.observationPath == r.actingPath
                 || forall k: nat :: LatestSubmission(t.audit, r.caseId, k) ==> r.actor == t.audit[k].actor
               case MethodMismatch => r.means != r.recipeMeans
               case WindowNotMet =>
                 r.finding == Absent && exists k: nat ::
                   LatestSubmission(t.audit, r.caseId, k) && r.observedAtMs - t.audit[k].atMs < r.requiredSeconds * 1000
               case _ => false
  {
    SubmissionRowIs(t.audit, r.caseId);
    var k := SubmissionRow(t.audit, r.caseId);
    forall j: nat | LatestSubmission(t.audit, r.caseId, j)
      ensures k == Some(j)
    {
      assert Submits(t.audit[j], r.caseId);
    }
    DeniedObservation(t, call, known, r, k);
  }

  lemma DeniedObservation(t: Tables, call: Call, known: set<string>, r: VerifyRequest, k: Option<nat>)
    requires k == SubmissionRow(t.audit, r.caseId) && RecordObservation(t, call, known, r).1.Denied?
    ensures var reason := RecordObservation(t, call, known, r).1.reason;
            && CaseReason(t, r.caseId, r.version, reason)
            && (reason == NotFound || reason == PreconditionFailed
                || (reason == IllegalTransition && t.cases[r.caseId].state != Acknowledged)
                || (reason == EvidenceNotFound && UnknownEvidence(r.evidence, known))
                || (reason == PathNotIndependent
                    && (k.None? || r.observationPath == r.actingPath || r.actor == t.audit[k.value].actor))
                || (reason == MethodMismatch && r.means != r.recipeMeans)
                || (reason == WindowNotMet && k.Some? && r.finding == Absent
                    && r.observedAtMs - t.audit[k.value].atMs < r.requiredSeconds * 1000))
  {
  }

  /** And a reappearance. */
  lemma ReappearReason(t: Tables, call: Call, known: set<string>, r: ReappearRequest)
    requires RecordReappearance(t, call, known, r).1.Denied?
    ensures match RecordReappearance(t, call, known, r).1.reason
            case NotFound => r.exposure !in t.exposures
            case PreconditionFailed => !r.versionMatches
            case NoPriorRemoval => t.exposures[r.exposure].state !in {VerifiedRemoved, SearchDelisted}
            case PriorEventNotFound =>
              r.priorRow >= |t.audit| || !Establishes(t, t.audit[r.priorRow], r.exposure, t.exposures[r.exposure].state)
            case EvidenceNotFound => r.evidence !in known
            case IllegalTransition => !call.ctx.recordable
            case _ => false
  {
    if r.exposure in t.exposures {
      ReappearanceIff(call.ctx, t.exposures[r.exposure].state, true);
      if r.priorRow < |t.audit| {
        assert Establishes(t, t.audit[r.priorRow], r.exposure, t.exposures[r.exposure].state)
               <==> PriorEvent(t, t.audit[r.priorRow], r.exposure, t.exposures[r.exposure].state);
      }
    }
  }
}
