/** The domain commands: each validates its preconditions and applies at most one table transition.
  *
  * A thrown error carries no further detail here: what matters is that nothing was applied.
  * Constructing the events and the audit record may itself throw (blank correlation id, a payload
  * value that looks like personal data); `Context.recordable` says whether it succeeds.
  */
module Commands {
  import opened Wrappers
  import opened TruthState
  import opened StateMachine
  import opened Channels
  import opened Entities

  datatype Context = Context(recordable: bool, nowMs: Instant)

  datatype EventName =
    | SubjectRegistered | AliasAttached | AliasQuarantined | SourceRecordSeen | MatchWasConfirmed | MatchDisproved
    | PolicyResolved | RequestIsReady | ActionWasSubmitted | ActionAmbiguous | AcknowledgedEvent | Refused
    | HumanIsRequired | VerifiedRemovedEvent | VerificationFailed | ReappearedEvent | NotRemovableEvent | BudgetExceeded

  datatype Outcome =
    | Moved(from: Option<State>, to: State, id: Id, facts: Facts, events: seq<EventName>)
    | Refusal(current: State, events: seq<EventName>)
    | Recorded(events: seq<EventName>)
    | Threw(error: CommandError)

  datatype CommandError =
    | Machine(error: Error) | AuthorityExpired | RecipeUnusable | PolicyNotInForce | SubjectMismatch
    | IdempotencyConflict | Unrecordable

  /** The shared tail of every state-moving command. */
  function Transition(ctx: Context, from: Option<State>, to: State, facts: Facts, events: seq<EventName>): Outcome {
    match Attempt(from, Move(to, facts))
    case Thrown(e) => Threw(Machine(e))
    case Applied(id) =>
      if ctx.recordable then Moved(Row(id).from, Row(id).to, id, facts, events) else Threw(Unrecordable)
  }

  function RefusalOf(ctx: Context, current: State, events: seq<EventName>): Outcome {
    if ctx.recordable then Refusal(current, events) else Threw(Unrecordable)
  }

  function RecordedOf(ctx: Context, events: seq<EventName>): Outcome {
    if ctx.recordable then Recorded(events) else Threw(Unrecordable)
  }

  function When(b: bool, f: Fact): Facts {
    if b then {f} else {}
  }

  // ---------------------------------------------------------------- the eleven commands

  function RegisterSubject(ctx: Context, grant: AuthorityGrant, grantNamesSubject: bool): Outcome {
    if !AuthorityUsableAt(grant, ctx.nowMs) then Threw(AuthorityExpired)
    else if !grantNamesSubject then Threw(SubjectMismatch)
    else RecordedOf(ctx, [SubjectRegistered])
  }

  function AttachAlias(ctx: Context, ambiguous: bool, quarantined: bool): Outcome {
    RecordedOf(ctx, if ambiguous || quarantined then [AliasQuarantined] else [AliasAttached])
  }

  function RecordSourceRecord(ctx: Context, permittedReadPath: bool): Outcome {
    Transition(ctx, None, DiscoveredCandidate, When(permittedReadPath, SourceRecordObserved), [SourceRecordSeen])
  }

  datatype Assessment = Assessment(
    from: State, matched: bool, confidenceAtThreshold: bool, confidenceBasisRecorded: bool, humanApproved: bool,
    disproofRecorded: bool)

  function AssessMatch(ctx: Context, a: Assessment): Outcome {
    if a.matched then
      Transition(ctx, Some(a.from), MatchConfirmed,
                 When(a.confidenceAtThreshold, ConfidenceAtThreshold)
                 + When(a.confidenceBasisRecorded, ConfidenceBasisRecorded)
                 + When(a.humanApproved, HumanApprovedMatch),
                 [MatchWasConfirmed])
    else
      Transition(ctx, Some(a.from), VerifiedNotPresent, When(a.disproofRecorded, SubjectMatchDisproved), [MatchDisproved])
  }

  function ResolvePolicy(ctx: Context, d: PolicyDecision, p: JurisdictionPolicy): Outcome {
    if PolicyInForce(p, d, ctx.nowMs) then RecordedOf(ctx, [PolicyResolved]) else Threw(PolicyNotInForce)
  }

  datatype PrepareInput = PrepareInput(
    from: State, authority: AuthorityGrant, decision: PolicyDecision, policy: JurisdictionPolicy, recipe: RemovalRecipe,
    source: PermissionClass, options: seq<ChannelOption>, humanGate: bool)

  predicate ChannelIsPermitted(input: PrepareInput) {
    match SelectChannel(input.options)
    case None => false
    case Some(o) => o.channel != NotRemovableOutcome && input.source == WritePermitted
  }

  /** Authority, recipe and policy are re-asserted now, not remembered. */
  predicate Preparable(ctx: Context, i: PrepareInput) {
    && AuthorityUsableAt(i.authority, ctx.nowMs)
    && RecipeUsableAt(i.recipe, ctx.nowMs)
    && PolicyInForce(i.policy, i.decision, ctx.nowMs)
  }

  /** A detected gate wins; otherwise the channel decides. */
  function PreparedTarget(i: PrepareInput): State {
    if i.humanGate then HumanRequired else if !ChannelIsPermitted(i) then NotRemovable else RequestReady
  }

  function PreparedFacts(i: PrepareInput): Facts {
    {AuthorityValid, PolicyDecisionComplete, RecipeSignedAndFresh}
    + When(ChannelIsPermitted(i), ChannelPermitted)
    + When(i.from == Reappeared, FreshAuthorityPolicyRecipe)
    + When(i.humanGate, HumanGateDetected)
    + When(!i.humanGate && !ChannelIsPermitted(i), ExemptionRecorded)
  }

  function PreparedEvent(target: State): EventName {
    match target
    case HumanRequired => HumanIsRequired
    case NotRemovable => NotRemovableEvent
    case _ => RequestIsReady
  }

  function PrepareRequest(ctx: Context, i: PrepareInput): Outcome {
    if !AuthorityUsableAt(i.authority, ctx.nowMs) then Threw(AuthorityExpired)
    else if !RecipeUsableAt(i.recipe, ctx.nowMs) then Threw(RecipeUnusable)
    else if !PolicyInForce(i.policy, i.decision, ctx.nowMs) then Threw(PolicyNotInForce)
    else Transition(ctx, Some(i.from), PreparedTarget(i), PreparedFacts(i), [PreparedEvent(PreparedTarget(i))])
  }

  datatype ActionOutcome = Accepted | RefusedByController | Ambiguous | HumanGate

  function ExecuteAction(ctx: Context, keyUsed: bool, budgetAvailable: bool, outcome: ActionOutcome): Outcome {
    if keyUsed then Threw(IdempotencyConflict)
    else if !budgetAvailable then RefusalOf(ctx, RequestReady, [BudgetExceeded])
    else
      var facts := {AuthorityValid, IdempotencyKeyAssigned, BudgetAvailable, RecipeSignedAndFresh, ChannelPermitted}
                   + When(outcome.HumanGate?, HumanGateDetected);
      if outcome.HumanGate? then Transition(ctx, Some(RequestReady), HumanRequired, facts, [HumanIsRequired])
      else
        Transition(ctx, Some(RequestReady), RequestSubmitted, facts,
                   if outcome.Ambiguous? then [ActionWasSubmitted, ActionAmbiguous] else [ActionWasSubmitted])
  }

  datatype ResponseOutcome = ResponseAcknowledged | ResponseHumanGate | ResponseRefused

  /** `from` is typed REQUEST_SUBMITTED, but the adapter passes whatever state the case is in. */
  function RecordControllerResponse(ctx: Context, from: State, outcome: ResponseOutcome, lawfulRefusalFinal: bool): Outcome {
    match outcome
    case ResponseHumanGate => Transition(ctx, Some(from), HumanRequired, {HumanGateDetected}, [HumanIsRequired])
    case ResponseRefused =>
      Transition(ctx, Some(from), NotRemovable, {ExemptionRecorded} + When(lawfulRefusalFinal, LawfulRefusalFinal),
                 [Refused, NotRemovableEvent])
    case ResponseAcknowledged => Transition(ctx, Some(from), Acknowledged, {ControllerResponded}, [AcknowledgedEvent])
  }

  datatype Verification = Verification(
    from: State, observation: Observation, windowMs: nat, actionAtMs: Instant, recipeMeans: string, recordAbsent: bool)

  function VerificationFacts(v: Verification): Facts {
    When(v.observation.actorIdentity != v.observation.actingIdentity, IndependentObservation)
    + When(v.observation.observedAtMs - v.actionAtMs >= v.windowMs, ObservationWindowMet)
    + When(v.observation.means == v.recipeMeans, VerificationMethodMatches)
    + When(v.recordAbsent && v.observation.finding == Absent, RecordAbsent)
  }

  function RecordVerification(ctx: Context, v: Verification): Outcome {
    var facts := VerificationFacts(v);
    if !({IndependentObservation, ObservationWindowMet, VerificationMethodMatches, RecordAbsent} <= facts) then
      RefusalOf(ctx, v.from, [VerificationFailed])
    else
      Transition(ctx, Some(v.from), VerifiedRemoved, facts, [VerifiedRemovedEvent])
  }

  function DetectReappearance(ctx: Context, from: State, recordPresentAgain: bool): Outcome {
    Transition(ctx, Some(from), Reappeared, When(recordPresentAgain, RecordPresentAgain), [ReappearedEvent])
  }

  function RequestHumanGate(ctx: Context, from: State): Outcome {
    if FindTransition(from, HumanRequired).None? then Threw(Machine(NoSuchTransition))
    else Transition(ctx, Some(from), HumanRequired, {HumanGateDetected}, [HumanIsRequired])
  }

  // ---------------------------------------------------------------- all commands at once

  datatype Command =
    | CRegisterSubject(grant: AuthorityGrant, grantNamesSubject: bool)
    | CAttachAlias(ambiguous: bool, quarantined: bool)
    | CRecordSourceRecord(permittedReadPath: bool)
    | CAssessMatch(assessment: Assessment)
    | CResolvePolicy(decision: PolicyDecision, policy: JurisdictionPolicy)
    | CPrepareRequest(prepare: PrepareInput)
    | CExecuteAction(keyUsed: bool, budgetAvailable: bool, actionOutcome: ActionOutcome)
    | CRecordControllerResponse(from: State, outcome: ResponseOutcome, lawfulRefusalFinal: bool)
    | CRecordVerification(verification: Verification)
    | CDetectReappearance(from: State, recordPresentAgain: bool)
    | CRequestHumanGate(from: State)

  function Run(ctx: Context, c: Command): Outcome {
    match c
    case CRegisterSubject(g, s) => RegisterSubject(ctx, g, s)
    case CAttachAlias(a, q) => AttachAlias(ctx, a, q)
    case CRecordSourceRecord(p) => RecordSourceRecord(ctx, p)
    case CAssessMatch(a) => AssessMatch(ctx, a)
    case CResolvePolicy(d, p) => ResolvePolicy(ctx, d, p)
    case CPrepareRequest(i) => PrepareRequest(ctx, i)
    case CExecuteAction(k, b, o) => ExecuteAction(ctx, k, b, o)
    case CRecordControllerResponse(f, o, l) => RecordControllerResponse(ctx, f, o, l)
    case CRecordVerification(v) => RecordVerification(ctx, v)
    case CDetectReappearance(f, p) => DetectReappearance(ctx, f, p)
    case CRequestHumanGate(f) => RequestHumanGate(ctx, f)
  }

  /** The events each command is documented to emit. */
  function ListedEvents(c: Command): set<EventName> {
    match c
    case CRegisterSubject(_, _) => {SubjectRegistered}
    case CAttachAlias(_, _) => {AliasAttached, AliasQuarantined}
    case CRecordSourceRecord(_) => {SourceRecordSeen}
    case CAssessMatch(_) => {MatchWasConfirmed, MatchDisproved}
    case CResolvePolicy(_, _) => {PolicyResolved}
    case CPrepareRequest(_) => {RequestIsReady, NotRemovableEvent, HumanIsRequired}
    case CExecuteAction(_, _, _) => {ActionWasSubmitted, ActionAmbiguous, BudgetExceeded, HumanIsRequired}
    case CRecordControllerResponse(_, _, _) => {AcknowledgedEvent, HumanIsRequired, Refused}
    case CRecordVerification(_) => {VerifiedRemovedEvent, VerificationFailed}
    case CDetectReappearance(_, _) => {ReappearedEvent}
    case CRequestHumanGate(_) => {HumanIsRequired}
  }

  function Emitted(o: Outcome): seq<EventName> {
    match o
    case Moved(_, _, _, _, es) => es
    case Refusal(_, es) => es
    case Recorded(es) => es
    case Threw(_) => []
  }

  /** The state a command is asked to move from. */
  function Origin(c: Command): Option<State> {
    match c
    case CAssessMatch(a) => Some(a.from)
    case CPrepareRequest(i) => Some(i.from)
    case CExecuteAction(_, _, _) => Some(RequestReady)
    case CRecordControllerResponse(f, _, _) => Some(f)
    case CRecordVerification(v) => Some(v.from)
    case CDetectReappearance(f, _) => Some(f)
    case CRequestHumanGate(f) => Some(f)
    case _ => None
  }

  /** One row of the table was applied, from the given state, with its guard satisfied. */
  predicate TableMove(o: Outcome, from: Option<State>) {
    o.Moved? && o.from == from && Row(o.id) == Spec(from, o.to) && GuardHolds(o.id, o.facts)
  }

  lemma TransitionIsOneRow(ctx: Context, from: Option<State>, to: State, facts: Facts, events: seq<EventName>)
    ensures var o := Transition(ctx, from, to, facts, events);
            o.Threw? || (TableMove(o, from) && o.to == to && o.facts == facts && o.events == events)
  {
    var r := Attempt(from, Move(to, facts));
    if r.Applied? {
      AttemptFits(from, Move(to, facts), r.id);
    }
  }

  lemma AssessMoves(ctx: Context, a: Assessment)
    ensures AssessMatch(ctx, a).Moved? ==>
              TableMove(AssessMatch(ctx, a), Some(a.from)) && AssessMatch(ctx, a).to in {MatchConfirmed, VerifiedNotPresent}
  {
    var o := AssessMatch(ctx, a);
    if o.Moved? {
      TransitionIsOneRow(ctx, Some(a.from), o.to, o.facts, o.events);
    }
  }

  lemma PrepareMoves(ctx: Context, i: PrepareInput)
    ensures PrepareRequest(ctx, i).Moved? ==>
              TableMove(PrepareRequest(ctx, i), Some(i.from)) && PrepareRequest(ctx, i).to == PreparedTarget(i)
  {
    TransitionIsOneRow(ctx, Some(i.from), PreparedTarget(i), PreparedFacts(i), [PreparedEvent(PreparedTarget(i))]);
  }

  lemma ExecuteMoves(ctx: Context, k: bool, b: bool, a: ActionOutcome)
    ensures ExecuteAction(ctx, k, b, a).Moved? ==>
              TableMove(ExecuteAction(ctx, k, b, a), Some(RequestReady))
              && ExecuteAction(ctx, k, b, a).to in {RequestSubmitted, HumanRequired}
  {
    var o := ExecuteAction(ctx, k, b, a);
    if o.Moved? {
      TransitionIsOneRow(ctx, Some(RequestReady), o.to, o.facts, o.events);
    }
  }

  lemma ResponseMoves(ctx: Context, from: State, r: ResponseOutcome, lawful: bool)
    ensures RecordControllerResponse(ctx, from, r, lawful).Moved?
            ==> TableMove(RecordControllerResponse(ctx, from, r, lawful), Some(from))
                && RecordControllerResponse(ctx, from, r, lawful).to in {Acknowledged, NotRemovable, HumanRequired}
                && (RecordControllerResponse(ctx, from, r, lawful).to == NotRemovable <==> r == ResponseRefused)
  {
    var o := RecordControllerResponse(ctx, from, r, lawful);
    if o.Moved? {
      TransitionIsOneRow(ctx, Some(from), o.to, o.facts, o.events);
    }
  }

  lemma VerificationMoves(ctx: Context, v: Verification)
    ensures RecordVerification(ctx, v).Moved? ==>
              TableMove(RecordVerification(ctx, v), Some(v.from)) && RecordVerification(ctx, v).id == T14
  {
    TransitionIsOneRow(ctx, Some(v.from), VerifiedRemoved, VerificationFacts(v), [VerifiedRemovedEvent]);
    if RecordVerification(ctx, v).Moved? {
      PathRows(RecordVerification(ctx, v).id);
    }
  }

  /** The states each command may move a case to. */
  function Targets(c: Command): set<State> {
    match c
    case CRecordSourceRecord(_) => {DiscoveredCandidate}
    case CAssessMatch(_) => {MatchConfirmed, VerifiedNotPresent}
    case CPrepareRequest(_) => {RequestReady, NotRemovable, HumanRequired}
    case CExecuteAction(_, _, _) => {RequestSubmitted, HumanRequired}
    case CRecordControllerResponse(_, _, _) => {Acknowledged, NotRemovable, HumanRequired}
    case CRecordVerification(_) => {VerifiedRemoved}
    case CDetectReappearance(_, _) => {Reappeared}
    case CRequestHumanGate(_) => {HumanRequired}
    case _ => {}
  }

  /** A command that moves applies exactly one row of the table, from the state it was given to one of
    * its targets, with that row's guard satisfied by the facts it established. */
  lemma MovesAreTableRows(ctx: Context, c: Command)
    requires Run(ctx, c).Moved?
    ensures TableMove(Run(ctx, c), Origin(c)) && Run(ctx, c).to in Targets(c)
  {
    match c
    case CAssessMatch(a) => AssessMoves(ctx, a);
    case CPrepareRequest(i) => PrepareMoves(ctx, i);
    case CExecuteAction(k, b, a) => ExecuteMoves(ctx, k, b, a);
    case CRecordControllerResponse(f, r, l) => ResponseMoves(ctx, f, r, l);
    case CRecordVerification(v) => VerificationMoves(ctx, v);
    case CRecordSourceRecord(p) =>
      TransitionIsOneRow(ctx, None, DiscoveredCandidate, When(p, SourceRecordObserved), [SourceRecordSeen]);
    case CDetectReappearance(f, p) =>
      TransitionIsOneRow(ctx, Some(f), Reappeared, When(p, RecordPresentAgain), [ReappearedEvent]);
    case CRequestHumanGate(f) =>
      TransitionIsOneRow(ctx, Some(f), HumanRequired, {HumanGateDetected}, [HumanIsRequired]);
    case _ =>
  }

  // ---------------------------------------------------------------- verification

  /** From ACKNOWLEDGED, verification moves exactly when all four conditions of T14 hold and refuses
    * exactly when one fails; the machine never makes it throw. */
  lemma VerificationDecides(ctx: Context, v: Verification)
    requires v.from == Acknowledged && ctx.recordable
    ensures var holds := && v.observation.actorIdentity != v.observation.actingIdentity
                         && v.observation.observedAtMs - v.actionAtMs >= v.windowMs
                         && v.observation.means == v.recipeMeans
                         && v.recordAbsent && v.observation.finding == Absent;
            RecordVerification(ctx, v) ==
            if holds then Moved(Some(Acknowledged), VerifiedRemoved, T14, VerificationFacts(v), [VerifiedRemovedEvent])
            else Refusal(Acknowledged, [VerificationFailed])
  {
    AppliesIff(Acknowledged, VerifiedRemoved, VerificationFacts(v), T14);
    assert IndependentObservation in VerificationFacts(v) <==> v.observation.actorIdentity != v.observation.actingIdentity;
  }

  /** No other command can produce VERIFIED_REMOVED, and this one only from an observation that is
    * independent, late enough, made by the recipe's method and negative. */
  lemma OnlyVerificationRemoves(ctx: Context, c: Command)
    requires Run(ctx, c).Moved? && Run(ctx, c).to == VerifiedRemoved
    ensures c.CRecordVerification?
    ensures var v := c.verification;
            && v.from == Acknowledged
            && v.observation.actorIdentity != v.observation.actingIdentity
            && v.observation.observedAtMs - v.actionAtMs >= v.windowMs
            && v.observation.means == v.recipeMeans
            && v.observation.finding == Absent
  {
    MovesAreTableRows(ctx, c);
    PathRows(Run(ctx, c).id);
    VerificationDecides(ctx, c.verification);
  }

  // ---------------------------------------------------------------- preparation

  /** When the preconditions hold, the row of the prepared pair is applied if its guard holds. */
  lemma PreparedApplies(ctx: Context, i: PrepareInput, id: Id)
    requires Preparable(ctx, i) && ctx.recordable
    requires Row(id) == Spec(Some(i.from), PreparedTarget(i)) && GuardHolds(id, PreparedFacts(i))
    ensures PrepareRequest(ctx, i).Moved? && PrepareRequest(ctx, i).id == id
  {
    AppliesIff(i.from, PreparedTarget(i), PreparedFacts(i), id);
  }

  /** A request becomes ready exactly when authority, recipe and policy are usable now, no human gate was
    * detected, a lawful writable channel was selected and the case was confirmed or has reappeared. */
  lemma ReadyIff(ctx: Context, i: PrepareInput)
    ensures (PrepareRequest(ctx, i).Moved? && PrepareRequest(ctx, i).to == RequestReady)
            <==> Preparable(ctx, i) && !i.humanGate && ChannelIsPermitted(i) && ctx.recordable
                 && (i.from == MatchConfirmed || i.from == Reappeared)
  {
    if Preparable(ctx, i) && !i.humanGate && ChannelIsPermitted(i) && ctx.recordable {
      if i.from == MatchConfirmed {
        PreparedApplies(ctx, i, T5);
      } else if i.from == Reappeared {
        PreparedApplies(ctx, i, T18);
      }
    }
    if PrepareRequest(ctx, i).Moved? {
      PrepareMoves(ctx, i);
      PathRows(PrepareRequest(ctx, i).id);
    }
  }

  /** Then every considered channel of strictly higher priority than the chosen one is recorded as
    * unavailable with a reason, and the source permits writes. */
  lemma ReadyChannelIsJustified(ctx: Context, i: PrepareInput)
    requires PrepareRequest(ctx, i).Moved? && PrepareRequest(ctx, i).to == RequestReady
    ensures i.source == WritePermitted
    ensures exists chosen :: SelectChannel(i.options) == Some(chosen)
              && chosen in i.options && chosen.unavailableKind.None? && chosen.channel != NotRemovableOutcome
              && forall o :: o in i.options && PriorityOf(o.channel) < PriorityOf(chosen.channel) ==>
                   o.unavailableKind.Some? && o.unavailableReason.Some? && !Blank(o.unavailableReason.value)
  {
    ReadyIff(ctx, i);
    SelectionIsJustified(i.options);
    var chosen := SelectChannel(i.options).value;
    forall o | o in i.options && PriorityOf(o.channel) < PriorityOf(chosen.channel)
      ensures o.unavailableKind.Some? && o.unavailableReason.Some? && !Blank(o.unavailableReason.value)
    {
      assert o in RejectedChannels(i.options, chosen);
    }
  }

  const GRANT := AuthorityGrant(None, 10)
  const RECIPE := RemovalRecipe(true, "s", 10)
  const DECISION := PolicyDecision("j", "b", 1)
  const POLICY := JurisdictionPolicy("j", 1, 0, None, ["b"])
  const NOW := Context(true, 5)

  /** A preparation that passes every precondition; `source` and `gate` choose its target. */
  function Sample(from: State, source: PermissionClass, gate: bool): PrepareInput {
    PrepareInput(from, GRANT, DECISION, POLICY, RECIPE, source, [ChannelOption(OfficialSelfService, None, None)], gate)
  }

  lemma SampleChannel()
    ensures SelectChannel([ChannelOption(OfficialSelfService, None, None)])
            == Some(ChannelOption(OfficialSelfService, None, None))
  {
    var o := ChannelOption(OfficialSelfService, None, None);
    assert AvailableOnly([o]) == [o];
    assert SortByPriority([o]) == [o];
  }

  lemma SampleIsPreparable(from: State, source: PermissionClass, gate: bool)
    ensures Preparable(NOW, Sample(from, source, gate))
    ensures ChannelIsPermitted(Sample(from, source, gate)) <==> source == WritePermitted
  {
    SampleChannel();
    assert RECIPE.signature[0] in RECIPE.signature;
    assert POLICY.rules[0] in POLICY.rules;
  }

  /** The transitions `PrepareRequest` can apply: T15 is not among them, although T12 and T18 are. */
  const PREPARED: set<Id> := {T5, T6, T7, T9, T10, T12, T13, T16, T18, T19}

  function SampleTo(from: State, to: State): PrepareInput {
    Sample(from, if to == NotRemovable then Prohibited else WritePermitted, to == HumanRequired)
  }

  lemma SampleReaches(from: State, to: State)
    requires to in {RequestReady, NotRemovable, HumanRequired}
    ensures Preparable(NOW, SampleTo(from, to)) && PreparedTarget(SampleTo(from, to)) == to
    ensures var f := PreparedFacts(SampleTo(from, to));
            && {AuthorityValid, PolicyDecisionComplete, RecipeSignedAndFresh} <= f
            && (to == RequestReady ==> ChannelPermitted in f)
            && (to == NotRemovable ==> ExemptionRecorded in f)
            && (to == HumanRequired ==> HumanGateDetected in f)
            && (from == Reappeared ==> FreshAuthorityPolicyRecipe in f)
  {
    var i := SampleTo(from, to);
    SampleIsPreparable(from, i.source, i.humanGate);
  }

  lemma PrepareReaches(id: Id) returns (i: PrepareInput)
    requires id in PREPARED
    ensures PrepareRequest(NOW, i).Moved? && PrepareRequest(NOW, i).id == id
  {
    i := SampleTo(Row(id).from.value, Row(id).to);
    SampleReaches(i.from, Row(id).to);
    PreparedApplies(NOW, i, id);
  }

  lemma RowsToPrepared(id: Id)
    requires Row(id).to in {RequestReady, NotRemovable, HumanRequired}
    ensures id in PREPARED || id == T15
  {
  }

  lemma PreparedTargetsOnly(o: Outcome, i: PrepareInput)
    requires TableMove(o, Some(i.from)) && o.to == PreparedTarget(i) && o.facts == PreparedFacts(i)
    ensures o.id in PREPARED
  {
    RowsToPrepared(o.id);
    assert LawfulRefusalFinal !in PreparedFacts(i);
  }

  lemma PrepareStaysWithin(ctx: Context, i: PrepareInput)
    requires PrepareRequest(ctx, i).Moved?
    ensures PrepareRequest(ctx, i).id in PREPARED
  {
    TransitionIsOneRow(ctx, Some(i.from), PreparedTarget(i), PreparedFacts(i), [PreparedEvent(PreparedTarget(i))]);
    PreparedTargetsOnly(PrepareRequest(ctx, i), i);
  }

  lemma PrepareAppliesExactly(id: Id)
    ensures (exists ctx, i :: PrepareRequest(ctx, i).Moved? && PrepareRequest(ctx, i).id == id) <==> id in PREPARED
  {
    if id in PREPARED {
      var i := PrepareReaches(id);
    }
    forall ctx, i | PrepareRequest(ctx, i).Moved? && PrepareRequest(ctx, i).id == id
      ensures id in PREPARED
    {
      PrepareStaysWithin(ctx, i);
    }
  }

  // ---------------------------------------------------------------- coverage and events

  lemma TargetsAreOwned(o: Outcome, c: Command)
    requires TableMove(o, Origin(c)) && o.to in Targets(c)
    ensures o.id != T2 && o.id != T21
  {
    assert Row(T2) == Spec(None, VerifiedNotPresent) && Row(T21).to == SearchDelisted;
  }

  lemma MovesAreOwned(ctx: Context, c: Command)
    requires Run(ctx, c).Moved?
    ensures Run(ctx, c).id != T2 && Run(ctx, c).id != T21
  {
    MovesAreTableRows(ctx, c);
    TargetsAreOwned(Run(ctx, c), c);
  }

  /** The two rows no command owns: the documented gap T21, and also T2. */
  lemma UnownedTransitions(id: Id)
    ensures (exists ctx, c :: Run(ctx, c).Moved? && Run(ctx, c).id == id) <==> id != T2 && id != T21
  {
    forall ctx, c | Run(ctx, c).Moved? && Run(ctx, c).id == id
      ensures id != T2 && id != T21
    {
      MovesAreOwned(ctx, c);
    }
    if id != T2 && id != T21 {
      var c := OwnerOf(id);
      assert Run(NOW, c).Moved? && Run(NOW, c).id == id;
    }
  }

  function SimpleOwner(id: Id): Command {
    match id
    case T1 => CRecordSourceRecord(true)
    case T3 => CAssessMatch(Assessment(DiscoveredCandidate, true, true, true, false, false))
    case T4 => CAssessMatch(Assessment(DiscoveredCandidate, false, false, false, false, true))
    case T8 => CExecuteAction(false, true, Accepted)
    case T11 => CRecordControllerResponse(RequestSubmitted, ResponseAcknowledged, false)
    case T15 => CRecordControllerResponse(Acknowledged, ResponseRefused, true)
    case T17 => CDetectReappearance(VerifiedRemoved, true)
    case _ => CDetectReappearance(SearchDelisted, true)
  }

  lemma SimpleOwnerMoves(id: Id)
    requires id in {T1, T3, T4, T8, T11, T15, T17, T20}
    ensures Run(NOW, SimpleOwner(id)).Moved? && Run(NOW, SimpleOwner(id)).id == id
  {
    match id
    case T1 => InitialAppliesIff(DiscoveredCandidate, When(true, SourceRecordObserved), T1);
    case _ =>
  }

  lemma VerificationOwner() returns (c: Command)
    ensures Run(NOW, c).Moved? && Run(NOW, c).id == T14
  {
    var v := Verification(Acknowledged, Observation("m", 10, "a", "b", Absent), 5, 0, "m", true);
    VerificationDecides(NOW, v);
    c := CRecordVerification(v);
  }

  lemma PreparationOwner(id: Id) returns (c: Command)
    requires id in PREPARED
    ensures Run(NOW, c).Moved? && Run(NOW, c).id == id
  {
    var i := PrepareReaches(id);
    c := CPrepareRequest(i);
    assert Run(NOW, c) == PrepareRequest(NOW, i);
  }

  lemma OwnerOf(id: Id) returns (c: Command)
    requires id != T2 && id != T21
    ensures Run(NOW, c).Moved? && Run(NOW, c).id == id
  {
    if id in PREPARED {
      c := PreparationOwner(id);
    } else if id == T14 {
      c := VerificationOwner();
    } else {
      SimpleOwnerMoves(id);
      c := SimpleOwner(id);
    }
  }

  /** Every command emits only its listed events, except that a refused controller response that moves
    * the case also emits NotRemovable. */
  lemma EventsAreListedIff(ctx: Context, c: Command)
    ensures (forall e :: e in Emitted(Run(ctx, c)) ==> e in ListedEvents(c))
            <==> !(c.CRecordControllerResponse? && Run(ctx, c).Moved? && Run(ctx, c).to == NotRemovable)
  {
    if c.CRecordControllerResponse? {
      ResponseMoves(ctx, c.from, c.outcome, c.lawfulRefusalFinal);
      if Run(ctx, c).Moved? && Run(ctx, c).to == NotRemovable {
        assert Emitted(Run(ctx, c))[1] == NotRemovableEvent && NotRemovableEvent in Emitted(Run(ctx, c));
      }
    }
  }
}
