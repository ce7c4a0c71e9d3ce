/** The handlers as they write: statement by statement against the tables, rolling back when they throw. */
module CaseDatabase {
  import opened Wrappers
  import opened TruthState
  import opened StateMachine
  import opened Entities
  import opened Commands
  import opened CaseTables

  class Database {
    var cases: map<string, Case>
    var exposures: map<string, ExposureRow>
    var decisions: map<string, Option<string>>
    var actions: map<string, ActionRow>
    var audit: seq<AuditRow>
    var gates: seq<Gate>
    var responses: seq<ResponseRow>
    var reconciliations: seq<Reconciliation>
    var observations: seq<ObservationRow>
    var reappearances: seq<Reappearance>

    constructor ()
      ensures Contents() == Tables(map[], map[], map[], map[], [], [], [], [], [], [])
    {
      cases, exposures, decisions, actions := map[], map[], map[], map[];
      audit, gates, responses, reconciliations, observations, reappearances := [], [], [], [], [], [];
    }

    function Contents(): Tables
      reads this
    {
      Tables(cases, exposures, decisions, actions, audit, gates, responses, reconciliations, observations, reappearances)
    }

    method Rollback(t: Tables)
      modifies this
      ensures Contents() == t
    {
      cases, exposures, decisions, actions := t.cases, t.exposures, t.decisions, t.actions;
      audit, gates, responses := t.audit, t.gates, t.responses;
      reconciliations, observations, reappearances := t.reconciliations, t.observations, t.reappearances;
    }

    /** Appends one audit row; when the audit sink throws, everything since `before` is undone. */
    method AppendOrUndo(before: Tables, call: Call, entry: Entry) returns (ok: bool)
      modifies this
      ensures ok == call.storable
      ensures Contents() == if ok then Append(old(Contents()), call, entry) else before
    {
      ok := call.storable;
      if ok {
        audit := audit + [AuditRow(ACTOR, call.ctx.nowMs, entry)];
      } else {
        Rollback(before);
      }
    }

    /** UPDATE, then the audit row; if the audit row cannot be written the update is undone with everything else. */
    method MoveCase(before: Tables, call: Call, caseId: string, o: Commands.Outcome) returns (a: Answer)
      requires o.Moved? && o.from.Some? && caseId in cases
      modifies this
      ensures (Contents(), a) == Finish(before, old(Contents()), call, caseId, o)
    {
      var c := cases[caseId];
      cases := cases[caseId := c.(state := o.to, version := c.version + 1)];
      var ok := AppendOrUndo(before, call, Transit(o.id, o.from.value, o.to, Some(caseId), None));
      return if ok then Done(Some(o.id)) else Crashed;
    }

    method CreateCase(call: Call, r: CreateRequest) returns (a: Answer)
      modifies this
      ensures (Contents(), a) == CaseTables.CreateCase(old(Contents()), call, r)
    {
      var before := Contents();
      if r.exposure !in exposures { return Denied(NotFound); }
      var e := exposures[r.exposure];
      if e.subject != r.subject || e.source != r.source { return Denied(ExposureStateMismatch); }
      if e.state == DiscoveredCandidate { return Denied(ExposureStateMismatch); }
      if r.grant.None? || !GrantUsable(r.grant.value, call.ctx.nowMs) { return Denied(AuthorityInsufficient); }
      if HasOpenCase(cases, r.subject, r.source, r.exposure) { return Denied(CaseAlreadyExists); }
      if r.decision !in decisions || decisions[r.decision].Some? { return Denied(PolicyDecisionIncomplete); }
      if r.recipe.None? || !r.recipe.value.0 || r.recipe.value.1 != r.source { return Denied(RecipeNotEnabled); }
      if r.newId in cases { return Crashed; }
      cases := cases[r.newId := Case(e.state, 0, r.subject, r.source, r.exposure, r.decision)];
      decisions := decisions[r.decision := Some(r.newId)];
      if !call.ctx.recordable {
        Rollback(before);
        return Crashed;
      }
      var ok := AppendOrUndo(before, call, Creation(r.newId, e.state));
      return if ok then Done(None) else Crashed;
    }

    /** The first unknown artifact refuses the request. */
    static method AllKnown(evidence: seq<string>, known: set<string>) returns (ok: bool)
      ensures ok <==> !(exists i :: 0 <= i < |evidence| && evidence[i] !in known)
    {
      for i := 0 to |evidence|
        invariant forall j :: 0 <= j < i ==> evidence[j] in known
      {
        if evidence[i] !in known {
          return false;
        }
      }
      return true;
    }

    method GuardedUpdate(call: Call, l: Loaded, known: set<string>, r: UpdateRequest) returns (a: Answer)
      modifies this
      ensures (Contents(), a) == CaseTables.GuardedUpdate(old(Contents()), call, l, known, r)
    {
      var before := Contents();
      if r.caseId !in cases { return Denied(NotFound); }
      if cases[r.caseId].version != r.version { return Denied(PreconditionFailed); }
      if r.requested !in {RequestReady, NotRemovable, HumanRequired} { return Denied(NotRouteable); }
      if l.decision.None? { return Denied(PolicyDecisionIncomplete); }
      if l.authority.None? { return Denied(AuthorityInsufficient); }
      var allKnown := AllKnown(r.evidence, known);
      if !allKnown { return Denied(EvidenceNotFound); }
      if l.recipe.None? || !l.signatureVerifies { return Denied(GuardFailed); }
      var input := InputFrom(l, cases[r.caseId].state, r.requested == HumanRequired);
      if input.None? { return Crashed; }
      var o := PrepareRequest(call.ctx, input.value);
      if !o.Moved? {
        return Denied(if o.Threw? && Illegal(o.error) then IllegalTransition else GuardFailed);
      }
      if o.to != r.requested { return Denied(GuardFailed); }
      if o.from.None? { return Crashed; }
      a := MoveCase(before, call, r.caseId, o);
    }

    method RecordHumanGate(call: Call, l: Loaded, known: set<string>, r: GateRequest) returns (a: Answer)
      modifies this
      ensures (Contents(), a) == CaseTables.RecordHumanGate(old(Contents()), call, l, known, r)
    {
      var before := Contents();
      if r.caseId !in cases { return Denied(NotFound); }
      if cases[r.caseId].version != r.version { return Denied(PreconditionFailed); }
      if r.bypass { return Denied(BypassAttempt); }
      if r.evidence.Some? && r.evidence.value !in known { return Denied(EvidenceNotFound); }
      if !r.routable || l.decision.None? || l.authority.None? || l.recipe.None? { return Denied(IllegalTransition); }
      gates := gates + [Gate(r.caseId, r.kind)];
      var input := InputFrom(l, cases[r.caseId].state, true);
      if input.None? {
        Rollback(before);
        return Crashed;
      }
      var o := PrepareRequest(call.ctx, input.value);
      if !o.Moved? || o.from.None? { return Denied(IllegalTransition); }
      a := MoveCase(before, call, r.caseId, o);
    }

    method RecordResponse(call: Call, known: set<string>, r: ResponseRequest) returns (a: Answer)
      modifies this
      ensures (Contents(), a) == CaseTables.RecordResponse(old(Contents()), call, known, r)
    {
      var before := Contents();
      if r.caseId !in cases { return Denied(NotFound); }
      var c := cases[r.caseId];
      if c.version != r.version { return Denied(PreconditionFailed); }
      if r.evidence.Some? && r.evidence.value !in known { return Denied(EvidenceNotFound); }
      var outcome := OutcomeOf(r.kind);
      if BasisMissing(r) { return Denied(RefusalBasisRequired); }
      responses := responses + [ResponseRow(r.caseId, outcome)];
      if !r.wellFormed { return Denied(IllegalTransition); }
      var o := RecordControllerResponse(call.ctx, c.state, outcome, BasisRecorded(r));
      if !o.Moved? || o.from.None? {
        return Denied(if o.Threw? && Illegal(o.error) && outcome.ResponseHumanGate? then HumanStepRequired
                      else IllegalTransition);
      }
      a := MoveCase(before, call, r.caseId, o);
    }

    method Reconcile(call: Call, known: set<string>, r: ReconcileRequest) returns (a: Answer)
      modifies this
      ensures (Contents(), a) == CaseTables.Reconcile(old(Contents()), call, known, r)
    {
      var before := Contents();
      if r.actionId !in actions || actions[r.actionId].caseId !in cases { return Denied(NotFound); }
      var row := actions[r.actionId];
      if !row.ambiguous { return Denied(NotAmbiguous); }
      if r.evidence.Some? && r.evidence.value !in known { return Denied(EvidenceNotFound); }
      reconciliations := reconciliations + [Reconciliation(r.actionId, r.finding)];
      if r.finding == EffectAbsent || r.finding == Indeterminate {
        if r.finding == EffectAbsent {
          actions := actions[r.actionId := row.(status := Failed, ambiguous := false)];
        }
        if !call.ctx.recordable {
          Rollback(before);
          return Crashed;
        }
        var ok := AppendOrUndo(before, call, Note);
        return if ok then Done(None) else Crashed;
      }
      actions := actions[r.actionId := row.(status := Submitted, ambiguous := false)];
      if cases[row.caseId].state != RequestReady { return Done(None); }
      if !r.actionLoads {
        Rollback(before);
        return Crashed;
      }
      var o := ExecuteAction(call.ctx, false, true, Accepted);
      if !o.Moved? || o.from.None? { return Done(None); }
      a := MoveCase(before, call, row.caseId, o);
    }

    /** A removal moves the case; a refusal is recorded without moving it. */
    method Conclude(before: Tables, call: Call, caseId: string, o: Commands.Outcome) returns (a: Answer)
      requires caseId in cases
      modifies this
      ensures (Contents(), a) == Concluded(before, old(Contents()), call, caseId, o)
    {
      match o {
        case Moved(from, _, _, _, _) =>
          if from.Some? {
            a := MoveCase(before, call, caseId, o);
            return;
          }
        case Refusal(_, _) =>
          var ok := AppendOrUndo(before, call, Note);
          return if ok then Done(None) else Crashed;
        case _ =>
      }
      Rollback(before);
      return Crashed;
    }

    method RecordObservation(call: Call, known: set<string>, r: VerifyRequest) returns (a: Answer)
      modifies this
      ensures (Contents(), a) == CaseTables.RecordObservation(old(Contents()), call, known, r)
    {
      var before := Contents();
      if r.caseId !in cases { return Denied(NotFound); }
      if cases[r.caseId].version != r.version { return Denied(PreconditionFailed); }
      if cases[r.caseId].state != Acknowledged { return Denied(IllegalTransition); }
      if r.evidence.Some? && r.evidence.value !in known { return Denied(EvidenceNotFound); }
      var k := SubmissionRow(audit, r.caseId);
      if k.None? { return Denied(PathNotIndependent); }
      var acting := audit[k.value];
      if r.observationPath == r.actingPath { return Denied(PathNotIndependent); }
      if r.actor == acting.actor { return Denied(PathNotIndependent); }
      if r.means != r.recipeMeans { return Denied(MethodMismatch); }
      if r.requiredSeconds <= 0 { return Crashed; }
      if r.finding == Absent && r.observedAtMs - acting.atMs < WindowOf(r) { return Denied(WindowNotMet); }
      observations := observations + [ObservationOf(r, acting.actor)];
      if !r.wellFormed {
        Rollback(before);
        return Crashed;
      }
      a := Conclude(before, call, r.caseId, Commands.RecordVerification(call.ctx, VerificationOf(r, acting)));
    }

    method RecordReappearance(call: Call, known: set<string>, r: ReappearRequest) returns (a: Answer)
      modifies this
      ensures (Contents(), a) == CaseTables.RecordReappearance(old(Contents()), call, known, r)
    {
      var before := Contents();
      if r.exposure !in exposures { return Denied(NotFound); }
      var e := exposures[r.exposure];
      if !r.versionMatches { return Denied(PreconditionFailed); }
      if e.state != VerifiedRemoved && e.state != SearchDelisted { return Denied(NoPriorRemoval); }
      if r.priorRow >= |audit| || !PriorEvent(before, audit[r.priorRow], r.exposure, e.state) {
        return Denied(PriorEventNotFound);
      }
      if r.evidence !in known { return Denied(EvidenceNotFound); }
      var caseId := NewestCase(before, audit, r.exposure);
      reappearances := reappearances + [Reappearance(r.exposure, r.priorRow)];
      var o := DetectReappearance(call.ctx, e.state, true);
      ReappearanceEnds(before, call, known, r, e, o);
      if !o.Moved? { return Denied(IllegalTransition); }
      if o.from.None? {
        Rollback(before);
        return Crashed;
      }
      exposures := exposures[r.exposure := e.(state := o.to)];
      var ok := AppendOrUndo(before, call, Transit(o.id, o.from.value, o.to, caseId, Some(r.exposure)));
      return if ok then Done(Some(o.id)) else Crashed;
    }
  }

  /** How an admitted reappearance ends once the command has decided. */
  lemma ReappearanceEnds(t: Tables, call: Call, known: set<string>, r: ReappearRequest, e: ExposureRow, o: Outcome)
    requires r.exposure in t.exposures && e == t.exposures[r.exposure] && r.versionMatches && r.evidence in known
    requires e.state == VerifiedRemoved || e.state == SearchDelisted
    requires r.priorRow < |t.audit| && PriorEvent(t, t.audit[r.priorRow], r.exposure, e.state)
    requires o == DetectReappearance(call.ctx, e.state, true)
    ensures var seen := t.(reappearances := t.reappearances + [Reappearance(r.exposure, r.priorRow)]);
            CaseTables.RecordReappearance(t, call, known, r) ==
            if !o.Moved? then (seen, Denied(IllegalTransition))
            else if o.from.None? || !call.storable then (t, Crashed)
            else
              (Append(seen.(exposures := seen.exposures[r.exposure := e.(state := o.to)]), call,
                      Transit(o.id, o.from.value, o.to, NewestCase(t, t.audit, r.exposure), Some(r.exposure))),
               Done(Some(o.id)))
  {
  }
}
