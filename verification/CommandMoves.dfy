/** Exactly when each remaining command moves a case, where to, and when it refuses instead. */
module CommandMoves {
  import opened Wrappers
  import opened TruthState
  import opened Text
  import opened StateMachine
  import opened Entities
  import opened Commands

  predicate MovesTo(o: Outcome, from: Option<State>, to: State, id: Id) {
    o.Moved? && o.from == from && o.to == to && o.id == id
  }

  /** A transition is made exactly if it is the row of the pair, its guard holds and it can be recorded. */
  lemma TransitionIff(ctx: Context, from: State, id: Id, facts: Facts, events: seq<EventName>)
    requires Row(id).from == Some(from)
    ensures var o := Transition(ctx, Some(from), Row(id).to, facts, events);
            if GuardHolds(id, facts) && ctx.recordable then MovesTo(o, Some(from), Row(id).to, id) && o.events == events
            else o.Threw?
  {
    AppliesIff(from, Row(id).to, facts, id);
    var r := Attempt(Some(from), Move(Row(id).to, facts));
    if r.Applied? {
      AppliesIff(from, Row(id).to, facts, r.id);
      LookupIsTheTable(id, from, Row(id).to);
    }
  }

  lemma NoTransition(ctx: Context, from: State, to: State, facts: Facts, events: seq<EventName>)
    requires forall id :: Row(id) != Spec(Some(from), to)
    ensures Transition(ctx, Some(from), to, facts, events).Threw?
  {
    var r := Attempt(Some(from), Move(to, facts));
    if r.Applied? {
      AppliesIff(from, to, facts, r.id);
    }
  }

  /** A discovered candidate is confirmed on a recorded basis with a confidence at the threshold or a human's
    * approval, and dismissed on a recorded disproof; nothing else is decided, and nothing from another state. */
  lemma AssessIff(ctx: Context, a: Assessment)
    ensures var o := AssessMatch(ctx, a);
            if && ctx.recordable && a.from == DiscoveredCandidate
               && if a.matched then a.confidenceBasisRecorded && (a.confidenceAtThreshold || a.humanApproved)
                  else a.disproofRecorded
            then if a.matched then MovesTo(o, Some(a.from), MatchConfirmed, T3) && o.events == [MatchWasConfirmed]
                 else MovesTo(o, Some(a.from), VerifiedNotPresent, T4) && o.events == [MatchDisproved]
            else o.Threw?
  {
    if a.from == DiscoveredCandidate {
      var o := AssessMatch(ctx, a);
      if a.matched {
        TransitionIff(ctx, a.from, T3,
                      When(a.confidenceAtThreshold, ConfidenceAtThreshold)
                      + When(a.confidenceBasisRecorded, ConfidenceBasisRecorded) + When(a.humanApproved, HumanApprovedMatch),
                      [MatchWasConfirmed]);
      } else {
        TransitionIff(ctx, a.from, T4, When(a.disproofRecorded, SubjectMatchDisproved), [MatchDisproved]);
      }
    } else {
      AssessMoves(ctx, a);
    }
  }

  /** A used key throws, a spent budget is a recorded refusal that moves nothing, and otherwise the action submits the
    * case or, at a human gate, hands it over; an ambiguous result is submitted and says so. */
  lemma ExecuteIff(ctx: Context, keyUsed: bool, budgetAvailable: bool, outcome: ActionOutcome)
    ensures var o := ExecuteAction(ctx, keyUsed, budgetAvailable, outcome);
            if keyUsed then o == Threw(IdempotencyConflict)
            else if !ctx.recordable then o == Threw(Unrecordable)
            else if !budgetAvailable then o == Refusal(RequestReady, [BudgetExceeded])
            else if outcome.HumanGate? then
              MovesTo(o, Some(RequestReady), HumanRequired, T9) && o.events == [HumanIsRequired]
            else
              && MovesTo(o, Some(RequestReady), RequestSubmitted, T8)
              && o.events == if outcome.Ambiguous? then [ActionWasSubmitted, ActionAmbiguous] else [ActionWasSubmitted]
  {
    if !keyUsed && budgetAvailable {
      var facts := {AuthorityValid, IdempotencyKeyAssigned, BudgetAvailable, RecipeSignedAndFresh, ChannelPermitted}
                   + When(outcome.HumanGate?, HumanGateDetected);
      AppliesIff(RequestReady, RequestSubmitted, facts, T8);
      AppliesIff(RequestReady, HumanRequired, facts, T9);
    }
  }

  const GATED: set<State> := {MatchConfirmed, RequestReady, RequestSubmitted, Acknowledged}

  /** Where a response of each outcome takes a case from. */
  predicate ResponseApplies(from: State, outcome: ResponseOutcome, lawfulRefusalFinal: bool) {
    match outcome
    case ResponseAcknowledged => from == RequestSubmitted
    case ResponseHumanGate => from in GATED
    case ResponseRefused =>
      from in {MatchConfirmed, RequestReady, RequestSubmitted, Reappeared} || (from == Acknowledged && lawfulRefusalFinal)
  }

  function ResponseTarget(outcome: ResponseOutcome): State {
    match outcome
    case ResponseAcknowledged => Acknowledged
    case ResponseHumanGate => HumanRequired
    case ResponseRefused => NotRemovable
  }

  function ResponseEvents(outcome: ResponseOutcome): seq<EventName> {
    match outcome
    case ResponseAcknowledged => [AcknowledgedEvent]
    case ResponseHumanGate => [HumanIsRequired]
    case ResponseRefused => [Refused, NotRemovableEvent]
  }

  lemma GateIff(ctx: Context, from: State, facts: Facts, events: seq<EventName>)
    requires HumanGateDetected in facts
    ensures var o := Transition(ctx, Some(from), HumanRequired, facts, events);
            if ctx.recordable && from in GATED
            then o.Moved? && o.from == Some(from) && o.to == HumanRequired && o.events == events else o.Threw?
  {
    match from
    case MatchConfirmed => TransitionIff(ctx, from, T7, facts, events);
    case RequestReady => TransitionIff(ctx, from, T9, facts, events);
    case RequestSubmitted => TransitionIff(ctx, from, T12, facts, events);
    case Acknowledged => TransitionIff(ctx, from, T16, facts, events);
    case _ => NoTransition(ctx, from, HumanRequired, facts, events);
  }

  lemma RefusalIff(ctx: Context, from: State, lawful: bool, events: seq<EventName>)
    ensures var o := Transition(ctx, Some(from), NotRemovable, {ExemptionRecorded} + When(lawful, LawfulRefusalFinal), events);
            if ctx.recordable && ResponseApplies(from, ResponseRefused, lawful)
            then o.Moved? && o.from == Some(from) && o.to == NotRemovable && o.events == events else o.Threw?
  {
    var facts := {ExemptionRecorded} + When(lawful, LawfulRefusalFinal);
    match from
    case MatchConfirmed => TransitionIff(ctx, from, T6, facts, events);
    case RequestReady => TransitionIff(ctx, from, T10, facts, events);
    case RequestSubmitted => TransitionIff(ctx, from, T13, facts, events);
    case Acknowledged => TransitionIff(ctx, from, T15, facts, events);
    case Reappeared => TransitionIff(ctx, from, T19, facts, events);
    case _ => NoTransition(ctx, from, NotRemovable, facts, events);
  }

  lemma AcknowledgeIff(ctx: Context, from: State, events: seq<EventName>)
    ensures var o := Transition(ctx, Some(from), Acknowledged, {ControllerResponded}, events);
            if ctx.recordable && from == RequestSubmitted
            then o.Moved? && o.from == Some(from) && o.to == Acknowledged && o.events == events else o.Threw?
  {
    if from == RequestSubmitted {
      TransitionIff(ctx, from, T11, {ControllerResponded}, events);
    } else {
      NoTransition(ctx, from, Acknowledged, {ControllerResponded}, events);
    }
  }

  lemma ResponseIff(ctx: Context, from: State, outcome: ResponseOutcome, lawful: bool)
    ensures var o := RecordControllerResponse(ctx, from, outcome, lawful);
            if ctx.recordable && ResponseApplies(from, outcome, lawful)
            then o.Moved? && o.from == Some(from) && o.to == ResponseTarget(outcome) && o.events == ResponseEvents(outcome)
            else o.Threw?
  {
    match outcome
    case ResponseHumanGate => GateIff(ctx, from, {HumanGateDetected}, [HumanIsRequired]);
    case ResponseRefused => RefusalIff(ctx, from, lawful, [Refused, NotRemovableEvent]);
    case ResponseAcknowledged => AcknowledgeIff(ctx, from, [AcknowledgedEvent]);
  }

  /** A record seen again brings back an exposure that was removed or delisted, and no other. */
  lemma ReappearanceIff(ctx: Context, from: State, present: bool)
    ensures var o := DetectReappearance(ctx, from, present);
            if ctx.recordable && present && from in {VerifiedRemoved, SearchDelisted}
            then MovesTo(o, Some(from), Reappeared, if from == VerifiedRemoved then T17 else T20)
                 && o.events == [ReappearedEvent]
            else o.Threw?
  {
    var facts := When(present, RecordPresentAgain);
    match from
    case VerifiedRemoved => TransitionIff(ctx, from, T17, facts, [ReappearedEvent]);
    case SearchDelisted => TransitionIff(ctx, from, T20, facts, [ReappearedEvent]);
    case _ => NoTransition(ctx, from, Reappeared, facts, [ReappearedEvent]);
  }

  lemma HumanGateIff(ctx: Context, from: State)
    ensures var o := RequestHumanGate(ctx, from);
            if from !in GATED then o == Threw(Machine(NoSuchTransition))
            else if !ctx.recordable then o == Threw(Unrecordable)
            else o.Moved? && o.from == Some(from) && o.to == HumanRequired && o.events == [HumanIsRequired]
  {
    match from
    case MatchConfirmed => AppliesIff(from, HumanRequired, {HumanGateDetected}, T7);
    case RequestReady => AppliesIff(from, HumanRequired, {HumanGateDetected}, T9);
    case RequestSubmitted => AppliesIff(from, HumanRequired, {HumanGateDetected}, T12);
    case Acknowledged => AppliesIff(from, HumanRequired, {HumanGateDetected}, T16);
    case _ => NoRowIsDiagnosed(from, HumanRequired, {HumanGateDetected});
  }

  /** The commands that move nothing record their event, or throw, on exactly these conditions. */
  lemma RecordingIff(ctx: Context, g: AuthorityGrant, names: bool, d: PolicyDecision, p: JurisdictionPolicy)
    ensures RegisterSubject(ctx, g, names) == Recorded([SubjectRegistered]) <==>
            ctx.recordable && names && (g.revokedAtMs.Some? ==> ctx.nowMs < g.revokedAtMs.value) && ctx.nowMs < g.expiresAtMs
    ensures RegisterSubject(ctx, g, names) == Recorded([SubjectRegistered]) || RegisterSubject(ctx, g, names).Threw?
    ensures ResolvePolicy(ctx, d, p) == Recorded([PolicyResolved]) <==>
            && ctx.recordable && p.jurisdiction == d.jurisdiction && p.version == d.policyVersion && d.legalBasis in p.rules
            && p.effectiveFromMs <= ctx.nowMs && (p.effectiveToMs.Some? ==> ctx.nowMs < p.effectiveToMs.value)
    ensures ResolvePolicy(ctx, d, p) == Recorded([PolicyResolved]) || ResolvePolicy(ctx, d, p).Threw?
    ensures forall ambiguous, quarantined ::
              AttachAlias(ctx, ambiguous, quarantined) == Recorded([AliasAttached]) <==>
              ctx.recordable && !ambiguous && !quarantined
  {
  }

  predicate Expired(g: AuthorityGrant, now: Instant) {
    (g.revokedAtMs.Some? && g.revokedAtMs.value <= now) || g.expiresAtMs <= now
  }

  predicate Unusable(r: RemovalRecipe, now: Instant) { !r.enabled || AllSpace(r.signature) || r.freshnessAtMs < now }

  predicate OutOfForce(p: JurisdictionPolicy, d: PolicyDecision, now: Instant) {
    || p.jurisdiction != d.jurisdiction || p.version != d.policyVersion || d.legalBasis !in p.rules
    || now < p.effectiveFromMs || (p.effectiveToMs.Some? && p.effectiveToMs.value <= now)
  }

  /** What is asserted again at the moment of use is blamed in this order, and before the table is asked. */
  lemma ErrorsAreDiagnosed(
    ctx: Context, g: AuthorityGrant, names: bool, d: PolicyDecision, p: JurisdictionPolicy, i: PrepareInput)
    ensures RegisterSubject(ctx, g, names) == Threw(AuthorityExpired) <==> Expired(g, ctx.nowMs)
    ensures RegisterSubject(ctx, g, names) == Threw(SubjectMismatch) <==> !Expired(g, ctx.nowMs) && !names
    ensures RegisterSubject(ctx, g, names) == Threw(Unrecordable) <==> !Expired(g, ctx.nowMs) && names && !ctx.recordable
    ensures ResolvePolicy(ctx, d, p) == Threw(PolicyNotInForce) <==> OutOfForce(p, d, ctx.nowMs)
    ensures ResolvePolicy(ctx, d, p) == Threw(Unrecordable) <==> !OutOfForce(p, d, ctx.nowMs) && !ctx.recordable
    ensures PrepareRequest(ctx, i) == Threw(AuthorityExpired) <==> Expired(i.authority, ctx.nowMs)
    ensures PrepareRequest(ctx, i) == Threw(RecipeUnusable) <==>
            !Expired(i.authority, ctx.nowMs) && Unusable(i.recipe, ctx.nowMs)
    ensures PrepareRequest(ctx, i) == Threw(PolicyNotInForce) <==>
            && !Expired(i.authority, ctx.nowMs) && !Unusable(i.recipe, ctx.nowMs)
            && OutOfForce(i.policy, i.decision, ctx.nowMs)
  {
  }

  /** A source record starts a case only over a permitted read path. */
  lemma SourceRecordIff(ctx: Context, permitted: bool)
    ensures var o := RecordSourceRecord(ctx, permitted);
            if ctx.recordable && permitted then MovesTo(o, None, DiscoveredCandidate, T1) && o.events == [SourceRecordSeen]
            else o.Threw?
  {
    InitialAppliesIff(DiscoveredCandidate, When(permitted, SourceRecordObserved), T1);
    var r := Attempt(None, Move(DiscoveredCandidate, When(permitted, SourceRecordObserved)));
    if r.Applied? {
      InitialAppliesIff(DiscoveredCandidate, When(permitted, SourceRecordObserved), r.id);
    }
  }

  /** A preparation that moves announces the state it moved to. */
  lemma PreparationAnnounces(ctx: Context, i: PrepareInput)
    requires PrepareRequest(ctx, i).Moved?
    ensures var o := PrepareRequest(ctx, i);
            o.events == if o.to == HumanRequired then [HumanIsRequired] else if o.to == NotRemovable then [NotRemovableEvent]
                        else [RequestIsReady]
  {
    TransitionIsOneRow(ctx, Some(i.from), PreparedTarget(i), PreparedFacts(i), [PreparedEvent(PreparedTarget(i))]);
  }
}
