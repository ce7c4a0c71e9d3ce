/** The persisted side of the removal machine: case, gate, response, action, observation and audit tables,
  * and the handlers that write them, each inside one transaction.
  *
  * A thrown error rolls the whole transaction back; a returned refusal commits whatever was already
  * written. What a handler reads from tables it never writes is a parameter of the call.
  */
module CaseTables {
  import opened Wrappers
  import opened TruthState
  import opened StateMachine
  import opened Channels
  import opened Entities
  import opened Commands

  // ---------------------------------------------------------------- rows

  datatype Case = Case(
    state: State, version: nat, subject: string, source: string, exposure: string, decision: string)

  datatype ExposureRow = ExposureRow(state: State, subject: string, source: string)

  /** What an audit row records: a creation, a transition (of a case, of an exposure, or of both), or neither. */
  datatype Entry =
    | Creation(caseId: string, state: State)
    | Transit(code: Id, from: State, to: State, ofCase: Option<string>, onExposure: Option<string>)
    | Note

  datatype AuditRow = AuditRow(actor: string, atMs: Instant, entry: Entry)

  datatype ActionStatus = Prepared | Submitted | Uncertain | Declined | Failed

  datatype ActionRow = ActionRow(caseId: string, status: ActionStatus, ambiguous: bool)

  datatype Gate = Gate(caseId: string, kind: string)

  datatype ResponseRow = ResponseRow(caseId: string, outcome: ResponseOutcome)

  datatype EffectFinding = EffectConfirmed | EffectAbsent | Indeterminate

  datatype Reconciliation = Reconciliation(actionId: string, finding: EffectFinding)

  datatype ObservationRow = ObservationRow(
    caseId: string, means: string, observedAtMs: Instant, actor: string, acting: string, finding: Finding,
    actingPath: string, observationPath: string)

  datatype Reappearance = Reappearance(exposure: string, priorRow: nat)

  datatype Tables = Tables(
    cases: map<string, Case>,
    exposures: map<string, ExposureRow>,
    decisions: map<string, Option<string>>,
    actions: map<string, ActionRow>,
    audit: seq<AuditRow>,
    gates: seq<Gate>,
    responses: seq<ResponseRow>,
    reconciliations: seq<Reconciliation>,
    observations: seq<ObservationRow>,
    reappearances: seq<Reappearance>)

  /** `storable`: the correlation id has one of the two forms the audit column accepts. */
  datatype Call = Call(ctx: Context, storable: bool)

  datatype Reason =
    | NotFound | PreconditionFailed | ExposureStateMismatch | AuthorityInsufficient | CaseAlreadyExists
    | PolicyDecisionIncomplete | RecipeNotEnabled | NotRouteable | EvidenceNotFound | GuardFailed | IllegalTransition
    | BypassAttempt | RefusalBasisRequired | HumanStepRequired | NotAmbiguous | PathNotIndependent | MethodMismatch
    | WindowNotMet | NoPriorRemoval | PriorEventNotFound

  datatype Answer =
    | Done(code: Option<Id>)
    | Denied(reason: Reason)
    | Crashed

  const ACTOR := "domain-command"

  predicate Open(s: State) { s !in {VerifiedRemoved, VerifiedNotPresent, NotRemovable} }

  predicate SameTriple(c: Case, subject: string, source: string, exposure: string) {
    c.subject == subject && c.source == source && c.exposure == exposure
  }

  predicate HasOpenCase(cases: map<string, Case>, subject: string, source: string, exposure: string) {
    exists c :: c in cases && Open(cases[c].state) && SameTriple(cases[c], subject, source, exposure)
  }

  predicate Illegal(e: CommandError) {
    e.Machine? && (e.error.Forbidden? || e.error.NoSuchTransition? || e.error.NotAnInitialState?)
  }

  // ---------------------------------------------------------------- single writes

  function Append(t: Tables, call: Call, entry: Entry): Tables {
    t.(audit := t.audit + [AuditRow(ACTOR, call.ctx.nowMs, entry)])
  }

  /** The row trigger gives every updated case a new version. */
  function SetState(t: Tables, caseId: string, to: State): Tables
    requires caseId in t.cases
  {
    var c := t.cases[caseId];
    t.(cases := t.cases[caseId := c.(state := to, version := c.version + 1)])
  }

  /** The shared end of every handler that moves a case: the state and its one audit row, together. */
  function Advance(t: Tables, call: Call, caseId: string, code: Id, from: State, to: State): Tables
    requires caseId in t.cases
  {
    Append(SetState(t, caseId, to), call, Transit(code, from, to, Some(caseId), None))
  }

  /** `before` is the state to roll back to, `t` what has been written so far. */
  function Finish(before: Tables, t: Tables, call: Call, caseId: string, o: Outcome): (Tables, Answer)
    requires o.Moved? && o.from.Some? && caseId in t.cases
  {
    if call.storable then (Advance(t, call, caseId, o.id, o.from.value, o.to), Done(Some(o.id))) else (before, Crashed)
  }

  // ---------------------------------------------------------------- creating a case

  /** A grant as stored; a missing expiry means it never expires. */
  datatype StoredGrant = StoredGrant(selfServiceWrite: bool, revokedAtMs: Option<Instant>, expiresAtMs: Option<Instant>)

  predicate GrantUsable(g: StoredGrant, nowMs: Instant) {
    g.revokedAtMs.None? && (g.expiresAtMs.Some? ==> g.expiresAtMs.value > nowMs) && g.selfServiceWrite
  }

  datatype CreateRequest = CreateRequest(
    subject: string, source: string, exposure: string, decision: string, grant: Option<StoredGrant>,
    recipe: Option<(bool, string)>, newId: string)

  function CreateCase(t: Tables, call: Call, r: CreateRequest): (Tables, Answer) {
    if r.exposure !in t.exposures then (t, Denied(NotFound))
    else
      var e := t.exposures[r.exposure];
      if e.subject != r.subject || e.source != r.source || e.state == DiscoveredCandidate then
        (t, Denied(ExposureStateMismatch))
      else if r.grant.None? || !GrantUsable(r.grant.value, call.ctx.nowMs) then (t, Denied(AuthorityInsufficient))
      else if HasOpenCase(t.cases, r.subject, r.source, r.exposure) then (t, Denied(CaseAlreadyExists))
      else if r.decision !in t.decisions || t.decisions[r.decision].Some? then (t, Denied(PolicyDecisionIncomplete))
      else if r.recipe.None? || !r.recipe.value.0 || r.recipe.value.1 != r.source then (t, Denied(RecipeNotEnabled))
      else if r.newId in t.cases || !call.ctx.recordable || !call.storable then (t, Crashed)
      else
        var row := Case(e.state, 0, r.subject, r.source, r.exposure, r.decision);
        (Append(t.(cases := t.cases[r.newId := row], decisions := t.decisions[r.decision := Some(r.newId)]),
                call, Creation(r.newId, e.state)),
         Done(None))
  }

  // ---------------------------------------------------------------- moving a case by preparation

  datatype StoredDecision = StoredDecision(decision: PolicyDecision, channel: Channel)

  /** The rows a preparation re-reads; None is a missing row. `entitiesAccept`: the entity factories accept them. */
  datatype Loaded = Loaded(
    decision: Option<StoredDecision>, authority: Option<StoredGrant>, recipe: Option<RemovalRecipe>,
    source: Option<PermissionClass>, policy: Option<JurisdictionPolicy>, signatureVerifies: bool, entitiesAccept: bool)

  const MAX_SAFE_INTEGER: int := 9007199254740991

  function OnlyOption(c: Channel, source: PermissionClass): seq<ChannelOption> {
    [if source == WritePermitted then ChannelOption(c, None, None)
     else ChannelOption(c, Some(Unlawful), Some("source permission class does not permit writes"))]
  }

  /** The command input built from rows; None when it throws. */
  function InputFrom(l: Loaded, from: State, humanGate: bool): Option<PrepareInput> {
    if l.authority.None? || l.decision.None? || l.recipe.None? || l.source.None? || l.policy.None? || !l.entitiesAccept
    then None
    else
      var g := l.authority.value;
      var expires := if g.expiresAtMs.Some? then g.expiresAtMs.value else MAX_SAFE_INTEGER;
      Some(PrepareInput(from, AuthorityGrant(g.revokedAtMs, expires), l.decision.value.decision, l.policy.value,
                        l.recipe.value, l.source.value, OnlyOption(l.decision.value.channel, l.source.value), humanGate))
  }

  datatype UpdateRequest = UpdateRequest(
    caseId: string, version: nat, requested: State, evidence: seq<string>)

  function GuardedUpdate(t: Tables, call: Call, l: Loaded, known: set<string>, r: UpdateRequest): (Tables, Answer) {
    if r.caseId !in t.cases then (t, Denied(NotFound))
    else if t.cases[r.caseId].version != r.version then (t, Denied(PreconditionFailed))
    else if r.requested !in {RequestReady, NotRemovable, HumanRequired} then (t, Denied(NotRouteable))
    else if l.decision.None? then (t, Denied(PolicyDecisionIncomplete))
    else if l.authority.None? then (t, Denied(AuthorityInsufficient))
    else if exists i :: 0 <= i < |r.evidence| && r.evidence[i] !in known then (t, Denied(EvidenceNotFound))
    else if l.recipe.None? || !l.signatureVerifies then (t, Denied(GuardFailed))
    else
      var input := InputFrom(l, t.cases[r.caseId].state, r.requested == HumanRequired);
      if input.None? then (t, Crashed)
      else
        var o := PrepareRequest(call.ctx, input.value);
        if !o.Moved? then (t, Denied(if o.Threw? && Illegal(o.error) then IllegalTransition else GuardFailed))
        else if o.to != r.requested then (t, Denied(GuardFailed))
        else if o.from.Some? then Finish(t, t, call, r.caseId, o)
        else (t, Crashed)
  }

  datatype GateRequest = GateRequest(
    caseId: string, version: nat, bypass: bool, evidence: Option<string>, kind: string, routable: bool)

  /** The gate row survives a refused transition: the gate still happened. */
  function RecordHumanGate(t: Tables, call: Call, l: Loaded, known: set<string>, r: GateRequest): (Tables, Answer) {
    if r.caseId !in t.cases then (t, Denied(NotFound))
    else if t.cases[r.caseId].version != r.version then (t, Denied(PreconditionFailed))
    else if r.bypass then (t, Denied(BypassAttempt))
    else if r.evidence.Some? && r.evidence.value !in known then (t, Denied(EvidenceNotFound))
    else if !r.routable || l.decision.None? || l.authority.None? || l.recipe.None? then (t, Denied(IllegalTransition))
    else
      var gated := t.(gates := t.gates + [Gate(r.caseId, r.kind)]);
      var input := InputFrom(l, t.cases[r.caseId].state, true);
      if input.None? then (t, Crashed)
      else
        var o := PrepareRequest(call.ctx, input.value);
        if !o.Moved? || o.from.None? then (gated, Denied(IllegalTransition))
        else Finish(t, gated, call, r.caseId, o)
  }

  // ---------------------------------------------------------------- controller responses

  datatype ResponseKind =
    | Acknowledgement | PartialAction | ClaimedDeletion | DemandsIdentity | DemandsAuthority | RefusalKind
    | NoResponseTimeout | OtherKind

  function OutcomeOf(k: ResponseKind): ResponseOutcome {
    match k
    case RefusalKind | NoResponseTimeout => ResponseRefused
    case DemandsIdentity | DemandsAuthority => ResponseHumanGate
    case _ => ResponseAcknowledged
  }

  /** `wellFormed`: the response entity's factory accepts the body reference. */
  datatype ResponseRequest = ResponseRequest(
    caseId: string, version: nat, kind: ResponseKind, basis: Option<string>, evidence: Option<string>, wellFormed: bool)

  predicate BasisMissing(r: ResponseRequest) {
    r.kind == RefusalKind && (r.basis.None? || r.basis.value == "")
  }

  predicate BasisRecorded(r: ResponseRequest) {
    r.basis.Some? || r.kind == NoResponseTimeout
  }

  /** The response row survives a refused transition. The command starts from whatever state the case is in. */
  function RecordResponse(t: Tables, call: Call, known: set<string>, r: ResponseRequest): (Tables, Answer) {
    if r.caseId !in t.cases then (t, Denied(NotFound))
    else if t.cases[r.caseId].version != r.version then (t, Denied(PreconditionFailed))
    else if r.evidence.Some? && r.evidence.value !in known then (t, Denied(EvidenceNotFound))
    else if BasisMissing(r) then (t, Denied(RefusalBasisRequired))
    else
      var answered := t.(responses := t.responses + [ResponseRow(r.caseId, OutcomeOf(r.kind))]);
      if !r.wellFormed then (answered, Denied(IllegalTransition))
      else
        var o := RecordControllerResponse(call.ctx, t.cases[r.caseId].state, OutcomeOf(r.kind), BasisRecorded(r));
        if !o.Moved? || o.from.None? then
          (answered, Denied(if o.Threw? && Illegal(o.error) && OutcomeOf(r.kind).ResponseHumanGate? then HumanStepRequired
                             else IllegalTransition))
        else Finish(t, answered, call, r.caseId, o)
  }

  // ---------------------------------------------------------------- reconciliation

  /** `actionLoads`: the stored action passes the entity factory. */
  datatype ReconcileRequest = ReconcileRequest(
    actionId: string, finding: EffectFinding, evidence: Option<string>, actionLoads: bool)

  function SetAction(t: Tables, actionId: string, status: ActionStatus): Tables
    requires actionId in t.actions
  {
    t.(actions := t.actions[actionId := t.actions[actionId].(status := status, ambiguous := false)])
  }

  /** An absent effect closes the action, an indeterminate one leaves it reconcilable, a confirmed one
    * submits the case if it is still ready. */
  function Reconcile(t: Tables, call: Call, known: set<string>, r: ReconcileRequest): (Tables, Answer) {
    if r.actionId !in t.actions || t.actions[r.actionId].caseId !in t.cases then (t, Denied(NotFound))
    else
      var a := t.actions[r.actionId];
      if !a.ambiguous then (t, Denied(NotAmbiguous))
      else if r.evidence.Some? && r.evidence.value !in known then (t, Denied(EvidenceNotFound))
      else
        var noted := t.(reconciliations := t.reconciliations + [Reconciliation(r.actionId, r.finding)]);
        match r.finding
        case EffectAbsent =>
          if call.ctx.recordable && call.storable
          then (Append(SetAction(noted, r.actionId, Failed), call, Note), Done(None)) else (t, Crashed)
        case Indeterminate =>
          if call.ctx.recordable && call.storable then (Append(noted, call, Note), Done(None)) else (t, Crashed)
        case EffectConfirmed =>
          var settled := SetAction(noted, r.actionId, Submitted);
          if t.cases[a.caseId].state != RequestReady then (settled, Done(None))
          else if !r.actionLoads then (t, Crashed)
          else
            var o := ExecuteAction(call.ctx, false, true, Accepted);
            if !o.Moved? || o.from.None? then (settled, Done(None)) else Finish(t, settled, call, a.caseId, o)
  }

  // ---------------------------------------------------------------- verification

  predicate IsSubmissionOf(row: AuditRow, caseId: string) {
    row.entry.Transit? && row.entry.code == T8 && row.entry.ofCase == Some(caseId)
  }

  /** The submission row of a case: the latest by time, then by row id. */
  function SubmissionRow(audit: seq<AuditRow>, caseId: string): (r: Option<nat>)
    ensures r.Some? ==> r.value < |audit| && IsSubmissionOf(audit[r.value], caseId)
  {
    if audit == [] then None
    else
      var n := |audit| - 1;
      var earlier := SubmissionRow(audit[..n], caseId);
      if IsSubmissionOf(audit[n], caseId) && (earlier.Some? ==> audit[earlier.value].atMs <= audit[n].atMs) then Some(n)
      else earlier
  }

  /** `recipeMeans`: the verification method of the case's recipe, or the word that stands for a missing one. */
  datatype VerifyRequest = VerifyRequest(
    caseId: string, version: nat, evidence: Option<string>, actingPath: string, observationPath: string, actor: string,
    means: string, observedAtMs: Instant, requiredSeconds: int, finding: Finding, recipeMeans: string, wellFormed: bool)

  function WindowOf(r: VerifyRequest): int { r.requiredSeconds * 1000 }

  function ObservationOf(r: VerifyRequest, acting: string): ObservationRow {
    ObservationRow(r.caseId, r.means, r.observedAtMs, r.actor, acting, r.finding, r.actingPath, r.observationPath)
  }

  function VerificationOf(r: VerifyRequest, acting: AuditRow): Verification
    requires r.requiredSeconds > 0
  {
    Verification(Acknowledged, Observation(r.means, r.observedAtMs, r.actor, acting.actor, r.finding), WindowOf(r), acting.atMs,
                 r.recipeMeans, r.finding == Absent)
  }

  /** A removal moves the case; a refusal is recorded without moving it; anything else is thrown. */
  function Concluded(before: Tables, t: Tables, call: Call, caseId: string, o: Outcome): (Tables, Answer)
    requires caseId in t.cases
  {
    if o.Moved? && o.from.Some? then Finish(before, t, call, caseId, o)
    else if o.Refusal? && call.storable then (Append(t, call, Note), Done(None))
    else (before, Crashed)
  }

  /** Independence is judged against the actor recorded with the submission, which is the service whoever asked
    * for it, and between two paths that are both the caller's word; `CaseActors` says what that can tell apart. */
  function RecordObservation(t: Tables, call: Call, known: set<string>, r: VerifyRequest): (Tables, Answer) {
    if r.caseId !in t.cases then (t, Denied(NotFound))
    else if t.cases[r.caseId].version != r.version then (t, Denied(PreconditionFailed))
    else if t.cases[r.caseId].state != Acknowledged then (t, Denied(IllegalTransition))
    else if r.evidence.Some? && r.evidence.value !in known then (t, Denied(EvidenceNotFound))
    else
      var k := SubmissionRow(t.audit, r.caseId);
      if k.None? || r.observationPath == r.actingPath || r.actor == t.audit[k.value].actor then
        (t, Denied(PathNotIndependent))
      else if r.means != r.recipeMeans then (t, Denied(MethodMismatch))
      else if r.requiredSeconds <= 0 then (t, Crashed)
      else
        var acting := t.audit[k.value];
        if r.finding == Absent && r.observedAtMs - acting.atMs < WindowOf(r) then (t, Denied(WindowNotMet))
        else if !r.wellFormed then (t, Crashed)
        else
          var seen := t.(observations := t.observations + [ObservationOf(r, acting.actor)]);
          Concluded(t, seen, call, r.caseId, Commands.RecordVerification(call.ctx, VerificationOf(r, acting)))
  }

  // ---------------------------------------------------------------- reappearance

  datatype ReappearRequest = ReappearRequest(exposure: string, versionMatches: bool, priorRow: nat, evidence: string)

  /** The newest case opened for an exposure. */
  function NewestCase(t: Tables, audit: seq<AuditRow>, exposure: string): Option<string> {
    if audit == [] then None
    else
      var last := audit[|audit| - 1].entry;
      if last.Creation? && last.caseId in t.cases && t.cases[last.caseId].exposure == exposure then Some(last.caseId)
      else NewestCase(t, audit[..|audit| - 1], exposure)
  }

  /** The named row established the removal or delisting that the exposure's state records. */
  predicate PriorEvent(t: Tables, row: AuditRow, exposure: string, state: State) {
    && row.entry.Transit?
    && row.entry.code == (if state == VerifiedRemoved then T14 else T21)
    && row.entry.to == state
    && ((row.entry.ofCase.Some? && row.entry.ofCase.value in t.cases
         && t.cases[row.entry.ofCase.value].exposure == exposure)
        || row.entry.onExposure == Some(exposure))
  }

  /** The exposure moves to REAPPEARED; the case that is named on the audit row does not move. */
  function RecordReappearance(t: Tables, call: Call, known: set<string>, r: ReappearRequest): (Tables, Answer) {
    if r.exposure !in t.exposures then (t, Denied(NotFound))
    else
      var e := t.exposures[r.exposure];
      if !r.versionMatches then (t, Denied(PreconditionFailed))
      else if e.state != VerifiedRemoved && e.state != SearchDelisted then (t, Denied(NoPriorRemoval))
      else if r.priorRow >= |t.audit| || !PriorEvent(t, t.audit[r.priorRow], r.exposure, e.state) then
        (t, Denied(PriorEventNotFound))
      else if r.evidence !in known then (t, Denied(EvidenceNotFound))
      else
        var seen := t.(reappearances := t.reappearances + [Reappearance(r.exposure, r.priorRow)]);
        match DetectReappearance(call.ctx, e.state, true)
        case Moved(from, to, id, _, _) =>
          if from.Some? && call.storable then
            (Append(seen.(exposures := seen.exposures[r.exposure := e.(state := to)]), call,
                    Transit(id, from.value, to, NewestCase(t, t.audit, r.exposure), Some(r.exposure))),
             Done(Some(id)))
          else (t, Crashed)
        case _ => (seen, Denied(IllegalTransition))
  }
}
