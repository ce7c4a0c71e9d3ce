/** When a guarded update succeeds and what it reports; what a dry run of an action promises. */
module CaseGuards {
  import opened Wrappers
  import opened TruthState
  import opened StateMachine
  import opened Channels
  import opened Entities
  import opened Commands
  import opened CaseTables

  // ---------------------------------------------------------------- guarded updates

  lemma OnlyOptionSelects(c: Channel, source: PermissionClass)
    ensures SelectChannel(OnlyOption(c, source))
            == if source == WritePermitted then Some(ChannelOption(c, None, None)) else None
  {
    var o := OnlyOption(c, source)[0];
    assert OnlyOption(c, source) == [o];
    if source == WritePermitted {
      assert AvailableOnly([o]) == [o];
      assert SortByPriority([o]) == [o];
    } else {
      assert AvailableOnly([o]) == [];
    }
  }

  /** The states from which a preparation can reach each routeable target. */
  function Sources(target: State): set<State> {
    match target
    case RequestReady => {MatchConfirmed, Reappeared}
    case NotRemovable => {MatchConfirmed, RequestReady, RequestSubmitted, Reappeared}
    case HumanRequired => {MatchConfirmed, RequestReady, RequestSubmitted, Acknowledged}
    case _ => {}
  }

  predicate Writable(l: Loaded) {
    l.decision.Some? && l.source == Some(WritePermitted) && l.decision.value.channel != NotRemovableOutcome
  }

  /** The decision's own policy version, in effect, with the decision's legal basis among its rules. */
  predicate InForce(p: JurisdictionPolicy, d: PolicyDecision, now: Instant) {
    && p.jurisdiction == d.jurisdiction && p.version == d.policyVersion && d.legalBasis in p.rules
    && p.effectiveFromMs <= now && (p.effectiveToMs.Some? ==> now < p.effectiveToMs.value)
  }

  /** Authority, recipe and policy, as stored, are usable at this instant. */
  predicate UsableNow(l: Loaded, now: Instant) {
    && l.authority.Some? && l.decision.Some? && l.recipe.Some? && l.source.Some? && l.policy.Some? && l.entitiesAccept
    && (l.authority.value.revokedAtMs.Some? ==> now < l.authority.value.revokedAtMs.value)
    && now < (if l.authority.value.expiresAtMs.Some? then l.authority.value.expiresAtMs.value else MAX_SAFE_INTEGER)
    && l.recipe.value.enabled && !Blank(l.recipe.value.signature) && now <= l.recipe.value.freshnessAtMs
    && InForce(l.policy.value, l.decision.value.decision, now)
  }

  lemma PreparedFromRows(ctx: Context, l: Loaded, from: State, gate: bool)
    requires InputFrom(l, from, gate).Some?
    ensures var i := InputFrom(l, from, gate).value;
            && (Preparable(ctx, i) <==> UsableNow(l, ctx.nowMs))
            && PreparedTarget(i) == (if gate then HumanRequired else if Writable(l) then RequestReady else NotRemovable)
            && i.from == from
  {
    OnlyOptionSelects(l.decision.value.channel, l.source.value);
  }

  /** The row that leads from there to the prepared target, and its guard. */
  lemma PreparedRow(i: PrepareInput) returns (id: Id)
    requires i.from in Sources(PreparedTarget(i))
    ensures Row(id) == Spec(Some(i.from), PreparedTarget(i)) && GuardHolds(id, PreparedFacts(i))
  {
    id := match PreparedTarget(i)
      case RequestReady => (if i.from == MatchConfirmed then T5 else T18)
      case NotRemovable =>
        (match i.from
         case MatchConfirmed => T6
         case RequestReady => T10
         case RequestSubmitted => T13
         case _ => T19)
      case _ =>
        match i.from
        case MatchConfirmed => T7
        case RequestReady => T9
        case RequestSubmitted => T12
        case _ => T16;
  }

  lemma PreparedReaches(ctx: Context, i: PrepareInput)
    requires Preparable(ctx, i) && ctx.recordable && i.from in Sources(PreparedTarget(i))
    ensures PrepareRequest(ctx, i).Moved?
  {
    var id := PreparedRow(i);
    PreparedApplies(ctx, i, id);
  }

  lemma PreparedCameFrom(ctx: Context, i: PrepareInput)
    requires PrepareRequest(ctx, i).Moved?
    ensures Preparable(ctx, i) && ctx.recordable && i.from in Sources(PreparedTarget(i))
  {
    PrepareMoves(ctx, i);
    PrepareStaysWithin(ctx, i);
  }

  /** A preparation moves exactly when its preconditions hold and the target can be reached from there. */
  lemma PreparesIff(ctx: Context, i: PrepareInput)
    ensures PrepareRequest(ctx, i).Moved? <==>
            Preparable(ctx, i) && ctx.recordable && i.from in Sources(PreparedTarget(i))
  {
    if PrepareRequest(ctx, i).Moved? {
      PreparedCameFrom(ctx, i);
    }
    if Preparable(ctx, i) && ctx.recordable && i.from in Sources(PreparedTarget(i)) {
      PreparedReaches(ctx, i);
    }
  }

  predicate AllEvidenceKnown(evidence: seq<string>, known: set<string>) {
    forall i :: 0 <= i < |evidence| ==> evidence[i] in known
  }

  /** Everything a guarded update asks before it builds the command's input. */
  predicate Admitted(t: Tables, l: Loaded, known: set<string>, r: UpdateRequest) {
    && r.caseId in t.cases && t.cases[r.caseId].version == r.version
    && r.requested in {RequestReady, NotRemovable, HumanRequired}
    && l.decision.Some? && l.authority.Some? && AllEvidenceKnown(r.evidence, known)
    && l.recipe.Some? && l.signatureVerifies
  }

  lemma OnlyAdmittedSucceed(t: Tables, call: Call, l: Loaded, known: set<string>, r: UpdateRequest)
    ensures GuardedUpdate(t, call, l, known, r).1.Done? ==>
              Admitted(t, l, known, r) && InputFrom(l, t.cases[r.caseId].state, r.requested == HumanRequired).Some?
  {
  }

  lemma AdmittedSucceedsIff(t: Tables, call: Call, l: Loaded, known: set<string>, r: UpdateRequest, input: PrepareInput)
    requires Admitted(t, l, known, r)
    requires InputFrom(l, t.cases[r.caseId].state, r.requested == HumanRequired) == Some(input)
    ensures GuardedUpdate(t, call, l, known, r).1.Done? <==>
            PrepareRequest(call.ctx, input).Moved? && PreparedTarget(input) == r.requested && call.storable
  {
    PrepareMoves(call.ctx, input);
  }

  /** A guarded update succeeds exactly on the current version, with known evidence, a verified recipe
    * signature, usable rows, the target the rows justify, and a state that target can be reached from. */
  lemma UpdateSucceedsIff(t: Tables, call: Call, l: Loaded, known: set<string>, r: UpdateRequest)
    ensures GuardedUpdate(t, call, l, known, r).1.Done? <==>
            && r.caseId in t.cases && t.cases[r.caseId].version == r.version
            && AllEvidenceKnown(r.evidence, known)
            && l.signatureVerifies && UsableNow(l, call.ctx.nowMs)
            && r.requested == (if r.requested == HumanRequired then HumanRequired
                               else if Writable(l) then RequestReady else NotRemovable)
            && t.cases[r.caseId].state in Sources(r.requested)
            && call.ctx.recordable && call.storable
  {
    OnlyAdmittedSucceed(t, call, l, known, r);
    if Admitted(t, l, known, r) {
      var from := t.cases[r.caseId].state;
      var input := InputFrom(l, from, r.requested == HumanRequired);
      if input.Some? {
        AdmittedSucceedsIff(t, call, l, known, r, input.value);
        PreparedFromRows(call.ctx, l, from, r.requested == HumanRequired);
        PreparesIff(call.ctx, input.value);
      }
    }
  }

  // ---------------------------------------------------------------- the guards a success reports

  datatype Report = Report(authorityValid: bool, recipeSigned: bool, recipeFresh: bool, channelPermitted: bool)

  function ReportOf(l: Loaded, now: Instant): Report {
    Report(l.authority.Some? && GrantUsable(l.authority.value, now),
           l.recipe.Some? && l.signatureVerifies,
           l.recipe.Some? && l.recipe.value.freshnessAtMs > now,
           l.source == Some(WritePermitted) && l.decision.Some? && l.decision.value.channel != NotRemovableOutcome)
  }

  /** The report beside a success is not what gated it: a ready case always has a verified signature and a
    * permitted channel, but its authority is reported valid only if it also has the write scope and no
    * recorded revocation, and its recipe is reported fresh only strictly before its limit. */
  lemma ReadyReports(t: Tables, call: Call, l: Loaded, known: set<string>, r: UpdateRequest)
    requires r.requested == RequestReady && GuardedUpdate(t, call, l, known, r).1.Done?
    ensures var g := ReportOf(l, call.ctx.nowMs);
            && g.recipeSigned && g.channelPermitted
            && (g.authorityValid <==> l.authority.value.selfServiceWrite && l.authority.value.revokedAtMs.None?)
            && (g.recipeFresh <==> call.ctx.nowMs != l.recipe.value.freshnessAtMs)
  {
    UpdateSucceedsIff(t, call, l, known, r);
  }

  // ---------------------------------------------------------------- executing an action

  /** What the action handler reads, in the order it asks. `offending`: some payload field is not allowed. */
  datatype ActionRequest = ActionRequest(
    caseId: string, version: nat, offending: bool, channel: Channel, templateGiven: bool,
    decided: Option<Channel>, grant: Option<StoredGrant>, writable: bool, recipe: Option<RemovalRecipe>,
    recipeVersionMatches: bool, signatureVerifies: bool, used: nat, limit: Option<nat>, dryRun: bool)

  datatype ActionAnswer =
    | WouldMoveTo(state: Option<State>)
    | ActionDenied(reason: ActionReason)

  datatype ActionReason =
    | NoSuchCase | VersionChanged | FieldNotAllowed | TemplateRequired | ChannelViolation | RecipeDisabled | RecipeStale
    | GateOpen | NotReady | AuthorityInvalid | PermissionUnclear | BudgetSpent | TransportMissing

  predicate AuthorityGuard(r: ActionRequest, now: Instant) { r.grant.Some? && GrantUsable(r.grant.value, now) }

  predicate BudgetGuard(r: ActionRequest) { r.limit.Some? ==> r.used < r.limit.value }

  /** No channel has a transport, so a real submission never gets past its last refusal. */
  function ExecuteActionRoute(cases: map<string, Case>, now: Instant, r: ActionRequest): ActionAnswer {
    if r.caseId !in cases then ActionDenied(NoSuchCase)
    else if cases[r.caseId].version != r.version then ActionDenied(VersionChanged)
    else if r.offending then ActionDenied(FieldNotAllowed)
    else if r.channel == CertifiedMail && !r.templateGiven then ActionDenied(TemplateRequired)
    else if r.decided != Some(r.channel) then ActionDenied(ChannelViolation)
    else if r.recipe.None? || !r.recipeVersionMatches || !r.recipe.value.enabled then ActionDenied(RecipeDisabled)
    else if r.recipe.value.freshnessAtMs <= now then ActionDenied(RecipeStale)
    else
      var state := cases[r.caseId].state;
      var gateOpen := state == HumanRequired;
      if r.dryRun then
        WouldMoveTo(if AuthorityGuard(r, now) && r.signatureVerifies && r.writable && BudgetGuard(r) && !gateOpen
                    then Some(RequestSubmitted) else None)
      else if gateOpen then ActionDenied(GateOpen)
      else if state != RequestReady then ActionDenied(NotReady)
      else if !AuthorityGuard(r, now) then ActionDenied(AuthorityInvalid)
      else if !r.writable then ActionDenied(PermissionUnclear)
      else if !r.signatureVerifies then ActionDenied(RecipeDisabled)
      else if !BudgetGuard(r) then ActionDenied(BudgetSpent)
      else ActionDenied(TransportMissing)
  }

  /** A dry run and the real request refuse the same malformed requests; and when the dry run answers, it
    * promises a submission exactly when the real request, made of a ready case, would lack nothing but a
    * transport.  The promise is also given for a case that is not ready, which the real request refuses. */
  lemma DryRunAgainstReal(cases: map<string, Case>, now: Instant, r: ActionRequest)
    ensures var dry := ExecuteActionRoute(cases, now, r.(dryRun := true));
            var actual := ExecuteActionRoute(cases, now, r.(dryRun := false));
            && actual.ActionDenied?
            && (dry.ActionDenied? ==> actual == dry)
            && (actual == ActionDenied(TransportMissing) <==>
                dry == WouldMoveTo(Some(RequestSubmitted)) && cases[r.caseId].state == RequestReady)
            && (dry == WouldMoveTo(Some(RequestSubmitted)) && cases[r.caseId].state != RequestReady ==>
                actual == ActionDenied(NotReady))
            && (dry == WouldMoveTo(None) ==>
                actual.reason in {GateOpen, NotReady, AuthorityInvalid, PermissionUnclear, RecipeDisabled, BudgetSpent})
  {
  }

  /** What any request to execute needs before its guards are evaluated. */
  predicate Entertained(cases: map<string, Case>, now: Instant, r: ActionRequest) {
    && r.caseId in cases && cases[r.caseId].version == r.version && !r.offending
    && (r.channel == CertifiedMail ==> r.templateGiven) && r.decided == Some(r.channel)
    && r.recipe.Some? && r.recipeVersionMatches && r.recipe.value.enabled && now < r.recipe.value.freshnessAtMs
  }

  /** The grant covers writing now: not revoked at all, not expired, with the scope. */
  predicate Authorised(r: ActionRequest, now: Instant) {
    && r.grant.Some? && r.grant.value.selfServiceWrite && r.grant.value.revokedAtMs.None?
    && (r.grant.value.expiresAtMs.Some? ==> now < r.grant.value.expiresAtMs.value)
  }

  predicate WithinBudget(r: ActionRequest) { r.limit.None? || r.used < r.limit.value }

  /** A dry run answers exactly an entertained request, and promises a submission exactly when the grant covers it, the
    * signature verifies, the source can be written, the budget lasts and no human gate is open. */
  lemma DryRunPromisesIff(cases: map<string, Case>, now: Instant, r: ActionRequest)
    requires r.dryRun
    ensures var answer := ExecuteActionRoute(cases, now, r);
            && (answer.WouldMoveTo? <==> Entertained(cases, now, r))
            && (answer == WouldMoveTo(Some(RequestSubmitted)) <==>
                && Entertained(cases, now, r) && Authorised(r, now) && r.signatureVerifies && r.writable && WithinBudget(r)
                && cases[r.caseId].state != HumanRequired)
            && (answer.WouldMoveTo? ==> answer == WouldMoveTo(Some(RequestSubmitted)) || answer == WouldMoveTo(None))
  {
  }

  /** A request is denied for a reason that holds of it; only one that lacks nothing else lacks a transport. */
  lemma ActionReasonHolds(cases: map<string, Case>, now: Instant, r: ActionRequest)
    requires ExecuteActionRoute(cases, now, r).ActionDenied?
    ensures match ExecuteActionRoute(cases, now, r).reason
            case NoSuchCase => r.caseId !in cases
            case VersionChanged => cases[r.caseId].version != r.version
            case FieldNotAllowed => r.offending
            case TemplateRequired => r.channel == CertifiedMail && !r.templateGiven
            case ChannelViolation => r.decided != Some(r.channel)
            case RecipeDisabled =>
              r.recipe.None? || !r.recipeVersionMatches || !r.recipe.value.enabled || (!r.dryRun && !r.signatureVerifies)
            case RecipeStale => r.recipe.Some? && r.recipe.value.freshnessAtMs <= now
            case GateOpen => cases[r.caseId].state == HumanRequired
            case NotReady => cases[r.caseId].state != RequestReady
            case AuthorityInvalid => !Authorised(r, now)
            case PermissionUnclear => !r.writable
            case BudgetSpent => !WithinBudget(r)
            case TransportMissing =>
              && Entertained(cases, now, r) && cases[r.caseId].state == RequestReady && Authorised(r, now) && r.writable
              && r.signatureVerifies && WithinBudget(r)
  {
  }
}
