/** The eleven truth states, the facts a guard may read, and the closed transition table. */
module TruthState {
  import opened Wrappers

  datatype State =
    | DiscoveredCandidate | MatchConfirmed | RequestReady | RequestSubmitted | Acknowledged | VerifiedRemoved
    | SearchDelisted | VerifiedNotPresent | NotRemovable | HumanRequired | Reappeared

  datatype StateFacts = StateFacts(
    assertsVerifiedRemoval: bool,
    assertsSearchDelisting: bool,
    terminalForNow: bool,
    isLegitimateOutcome: bool,
    requiresIndependentObservation: bool,
    neverCountsAsProgress: bool)

  function FactsOf(s: State): StateFacts {
    match s
    case DiscoveredCandidate => StateFacts(false, false, false, false, false, false)
    case MatchConfirmed => StateFacts(false, false, false, false, false, false)
    case RequestReady => StateFacts(false, false, false, false, false, false)
    case RequestSubmitted => StateFacts(false, false, false, false, false, true)
    case Acknowledged => StateFacts(false, false, false, false, false, true)
    case VerifiedRemoved => StateFacts(true, false, true, true, true, false)
    case SearchDelisted => StateFacts(false, true, false, true, false, false)
    case VerifiedNotPresent => StateFacts(false, false, true, true, false, false)
    case NotRemovable => StateFacts(false, false, true, true, false, false)
    case HumanRequired => StateFacts(false, false, true, true, false, false)
    case Reappeared => StateFacts(false, false, false, false, false, false)
  }

  datatype Fact =
    | SourceRecordObserved | ScanCoverageSufficient | ConfidenceAtThreshold | ConfidenceBasisRecorded
    | HumanApprovedMatch | SubjectMatchDisproved
    | AuthorityValid | PolicyDecisionComplete | RecipeSignedAndFresh | ChannelPermitted | ExemptionRecorded
    | LawfulRefusalFinal | FreshAuthorityPolicyRecipe
    | HumanGateDetected
    | IdempotencyKeyAssigned | BudgetAvailable | ActionSubmitted
    | ControllerResponded
    | IndependentObservation | ObservationWindowMet | VerificationMethodMatches | RecordAbsent | RecordPresentAgain
    | SearchEngineSource | DelistingObserved

  /** The true fields of a fact record; `noFacts()` is the empty set. */
  type Facts = set<Fact>

  datatype Id =
    | T1 | T2 | T3 | T4 | T5 | T6 | T7 | T8 | T9 | T10 | T11 | T12 | T13 | T14 | T15 | T16 | T17 | T18 | T19 | T20 | T21

  /** `from` is None for a creation. */
  datatype Spec = Spec(from: Option<State>, to: State)

  /** The rows of the legal table. */
  function Row(id: Id): Spec {
    match id
    case T1 => Spec(None, DiscoveredCandidate)
    case T2 => Spec(None, VerifiedNotPresent)
    case T3 => Spec(Some(DiscoveredCandidate), MatchConfirmed)
    case T4 => Spec(Some(DiscoveredCandidate), VerifiedNotPresent)
    case T5 => Spec(Some(MatchConfirmed), RequestReady)
    case T6 => Spec(Some(MatchConfirmed), NotRemovable)
    case T7 => Spec(Some(MatchConfirmed), HumanRequired)
    case T8 => Spec(Some(RequestReady), RequestSubmitted)
    case T9 => Spec(Some(RequestReady), HumanRequired)
    case T10 => Spec(Some(RequestReady), NotRemovable)
    case T11 => Spec(Some(RequestSubmitted), Acknowledged)
    case T12 => Spec(Some(RequestSubmitted), HumanRequired)
    case T13 => Spec(Some(RequestSubmitted), NotRemovable)
    case T14 => Spec(Some(Acknowledged), VerifiedRemoved)
    case T15 => Spec(Some(Acknowledged), NotRemovable)
    case T16 => Spec(Some(Acknowledged), HumanRequired)
    case T17 => Spec(Some(VerifiedRemoved), Reappeared)
    case T18 => Spec(Some(Reappeared), RequestReady)
    case T19 => Spec(Some(Reappeared), NotRemovable)
    case T20 => Spec(Some(SearchDelisted), Reappeared)
    case T21 => Spec(Some(MatchConfirmed), SearchDelisted)
  }

  /** The guard column: which facts must have been observed. */
  predicate GuardHolds(id: Id, f: Facts) {
    match id
    case T1 => SourceRecordObserved in f
    case T2 => ScanCoverageSufficient in f
    case T3 => ConfidenceBasisRecorded in f && (ConfidenceAtThreshold in f || HumanApprovedMatch in f)
    case T4 => SubjectMatchDisproved in f
    case T5 => {AuthorityValid, PolicyDecisionComplete, RecipeSignedAndFresh, ChannelPermitted} <= f
    case T6 | T10 | T13 | T19 => ExemptionRecorded in f
    case T7 | T9 | T12 | T16 => HumanGateDetected in f
    case T8 => {AuthorityValid, IdempotencyKeyAssigned, BudgetAvailable, RecipeSignedAndFresh, ChannelPermitted} <= f
    case T11 => ControllerResponded in f
    case T14 => {IndependentObservation, ObservationWindowMet, VerificationMethodMatches, RecordAbsent} <= f
    case T15 => LawfulRefusalFinal in f
    case T17 | T20 => RecordPresentAgain in f
    case T18 => {FreshAuthorityPolicyRecipe, AuthorityValid, PolicyDecisionComplete, RecipeSignedAndFresh} <= f
    case T21 => {SearchEngineSource, DelistingObserved} <= f
  }

  datatype ForbiddenReason =
    | RemovalTheater | NoExternalAction | SkipsGate | SkipsIdentity | CollapsesDelisting | NothingRemoved

  function ForbiddenPair(from: State, to: State): Option<ForbiddenReason> {
    match (from, to)
    case (RequestSubmitted, VerifiedRemoved) => Some(RemovalTheater)
    case (RequestReady, VerifiedRemoved) => Some(NoExternalAction)
    case (MatchConfirmed, RequestSubmitted) => Some(SkipsGate)
    case (DiscoveredCandidate, RequestReady) => Some(SkipsIdentity)
    case (SearchDelisted, VerifiedRemoved) => Some(CollapsesDelisting)
    case (VerifiedNotPresent, VerifiedRemoved) => Some(NothingRemoved)
    case _ => None
  }

  /** The fact table is right about independence: exactly the states flagged as needing an independent
    * observation can be entered only with that fact. */
  lemma IndependenceFlagIsExact(s: State)
    ensures FactsOf(s).requiresIndependentObservation <==>
            forall id, f :: Row(id).to == s && GuardHolds(id, f) ==> IndependentObservation in f
  {
    if s != VerifiedRemoved {
      var f: Facts := {SourceRecordObserved, ConfidenceBasisRecorded, ConfidenceAtThreshold, AuthorityValid,
                       PolicyDecisionComplete, RecipeSignedAndFresh, ChannelPermitted, IdempotencyKeyAssigned,
                       BudgetAvailable, ControllerResponded, RecordPresentAgain, SearchEngineSource, DelistingObserved,
                       SubjectMatchDisproved, ExemptionRecorded, HumanGateDetected};
      var id := match s
        case DiscoveredCandidate => T1
        case MatchConfirmed => T3
        case RequestReady => T5
        case RequestSubmitted => T8
        case Acknowledged => T11
        case SearchDelisted => T21
        case VerifiedNotPresent => T4
        case NotRemovable => T6
        case HumanRequired => T7
        case _ => T17;
      assert Row(id).to == s && GuardHolds(id, f) && IndependentObservation !in f;
    }
  }
}
