/** Which states an exposure can be brought to when only some facts can ever be established. */
module Reachability {
  import opened Wrappers
  import opened TruthState
  import opened StateMachine

  predicate Within(moves: seq<Move>, f: Facts) { forall i :: 0 <= i < |moves| ==> moves[i].facts <= f }

  /** Some sequence of attempts, with no fact outside `f`, ends in `s`. */
  ghost predicate Reaches(s: State, f: Facts) {
    exists moves :: Within(moves, f) && Play(moves).current == Some(s)
  }

  // ---------------------------------------------------------------- what it takes

  predicate Matched(f: Facts) {
    {SourceRecordObserved, ConfidenceBasisRecorded} <= f && (ConfidenceAtThreshold in f || HumanApprovedMatch in f)
  }

  predicate Delisted(f: Facts) { Matched(f) && {SearchEngineSource, DelistingObserved} <= f }

  /** Ready by a permitted channel, or, without one, by a delisting that is undone. */
  predicate Readied(f: Facts) {
    && Matched(f) && {AuthorityValid, PolicyDecisionComplete, RecipeSignedAndFresh} <= f
    && (ChannelPermitted in f || (Delisted(f) && {RecordPresentAgain, FreshAuthorityPolicyRecipe} <= f))
  }

  predicate Sent(f: Facts) {
    && Matched(f)
    && {AuthorityValid, PolicyDecisionComplete, RecipeSignedAndFresh, ChannelPermitted, IdempotencyKeyAssigned,
        BudgetAvailable} <= f
  }

  predicate Answered(f: Facts) { Sent(f) && ControllerResponded in f }

  predicate Removed(f: Facts) {
    Answered(f) && {IndependentObservation, ObservationWindowMet, VerificationMethodMatches, RecordAbsent} <= f
  }

  predicate Enough(s: State, f: Facts) {
    match s
    case DiscoveredCandidate => SourceRecordObserved in f
    case MatchConfirmed => Matched(f)
    case RequestReady => Readied(f)
    case RequestSubmitted => Sent(f)
    case Acknowledged => Answered(f)
    case VerifiedRemoved => Removed(f)
    case SearchDelisted => Delisted(f)
    case VerifiedNotPresent => ScanCoverageSufficient in f || {SourceRecordObserved, SubjectMatchDisproved} <= f
    case NotRemovable => (Matched(f) && ExemptionRecorded in f) || (Answered(f) && LawfulRefusalFinal in f)
    case HumanRequired => Matched(f) && HumanGateDetected in f
    case Reappeared => (Removed(f) || Delisted(f)) && RecordPresentAgain in f
  }

  // ---------------------------------------------------------------- nothing less will do

  /** A fact once established never blocks a transition. */
  lemma GuardsAreMonotone(id: Id, f: Facts, g: Facts)
    requires f <= g && GuardHolds(id, f)
    ensures GuardHolds(id, g)
  {
  }

  lemma RowNeeds(id: Id, f: Facts)
    requires GuardHolds(id, f) && (Row(id).from.Some? ==> Enough(Row(id).from.value, f))
    ensures Enough(Row(id).to, f)
  {
  }

  lemma {:induction false} PlayNeeds(moves: seq<Move>, f: Facts)
    requires Within(moves, f)
    ensures Play(moves).current.Some? ==> Enough(Play(moves).current.value, f)
  {
    if moves != [] {
      var init, m := moves[..|moves| - 1], moves[|moves| - 1];
      PlayNeeds(init, f);
      var r := Attempt(Play(init).current, m);
      if r.Applied? {
        AttemptFits(Play(init).current, m, r.id);
        GuardsAreMonotone(r.id, m.facts, f);
        RowNeeds(r.id, f);
      }
    }
  }

  // ---------------------------------------------------------------- this much does

  lemma ReachFrom(moves: seq<Move>, id: Id, f: Facts)
    requires Within(moves, f) && Play(moves).current == Row(id).from && GuardHolds(id, f)
    ensures Reaches(Row(id).to, f)
  {
    var longer := moves + [Move(Row(id).to, f)];
    PlayNext(moves, Play(moves), id, f);
    assert Within(longer, f) && Play(longer).current == Some(Row(id).to);
  }

  lemma ReachNext(id: Id, f: Facts)
    requires GuardHolds(id, f) && (Row(id).from.Some? ==> Reaches(Row(id).from.value, f))
    ensures Reaches(Row(id).to, f)
  {
    if Row(id).from.Some? {
      var moves :| Within(moves, f) && Play(moves).current == Some(Row(id).from.value);
      ReachFrom(moves, id, f);
    } else {
      ReachFrom([], id, f);
    }
  }

  lemma ReachMatched(f: Facts)
    requires Matched(f)
    ensures Reaches(MatchConfirmed, f)
  {
    ReachNext(T1, f);
    ReachNext(T3, f);
  }

  lemma ReachDelisted(f: Facts)
    requires Delisted(f)
    ensures Reaches(SearchDelisted, f)
  {
    ReachMatched(f);
    ReachNext(T21, f);
  }

  lemma ReachReady(f: Facts)
    requires Readied(f)
    ensures Reaches(RequestReady, f)
  {
    if ChannelPermitted in f {
      ReachMatched(f);
      ReachNext(T5, f);
    } else {
      ReachDelisted(f);
      ReachNext(T20, f);
      ReachNext(T18, f);
    }
  }

  lemma ReachAnswered(f: Facts)
    requires Sent(f)
    ensures Reaches(RequestSubmitted, f) && (Answered(f) ==> Reaches(Acknowledged, f))
    ensures Removed(f) ==> Reaches(VerifiedRemoved, f)
  {
    ReachReady(f);
    ReachNext(T8, f);
    if Answered(f) {
      ReachNext(T11, f);
      if Removed(f) {
        ReachNext(T14, f);
      }
    }
  }

  lemma ReachEnd(s: State, f: Facts)
    requires s in {NotRemovable, HumanRequired, VerifiedNotPresent, Reappeared} && Enough(s, f)
    ensures Reaches(s, f)
  {
    match s
    case NotRemovable =>
      if Matched(f) && ExemptionRecorded in f {
        ReachMatched(f);
        ReachNext(T6, f);
      } else {
        ReachAnswered(f);
        ReachNext(T15, f);
      }
    case HumanRequired =>
      ReachMatched(f);
      ReachNext(T7, f);
    case VerifiedNotPresent =>
      if ScanCoverageSufficient in f {
        ReachNext(T2, f);
      } else {
        ReachNext(T1, f);
        ReachNext(T4, f);
      }
    case Reappeared =>
      if Removed(f) {
        ReachAnswered(f);
        ReachNext(T17, f);
      } else {
        ReachDelisted(f);
        ReachNext(T20, f);
      }
  }

  /** With the facts `f` and no others, exactly these states can be reached, whatever is attempted. */
  lemma ReachableIff(s: State, f: Facts)
    ensures Reaches(s, f) <==> Enough(s, f)
  {
    if Reaches(s, f) {
      var moves :| Within(moves, f) && Play(moves).current == Some(s);
      PlayNeeds(moves, f);
    }
    if Enough(s, f) {
      match s
      case DiscoveredCandidate => ReachNext(T1, f);
      case MatchConfirmed => ReachMatched(f);
      case RequestReady => ReachReady(f);
      case RequestSubmitted | Acknowledged | VerifiedRemoved => ReachAnswered(f);
      case SearchDelisted => ReachDelisted(f);
      case _ => ReachEnd(s, f);
    }
  }

  // ---------------------------------------------------------------- the happy path

  /** The facts the repository calls sufficient for a removal. */
  const HAPPY: Facts :=
    {SourceRecordObserved, ConfidenceAtThreshold, ConfidenceBasisRecorded, AuthorityValid, PolicyDecisionComplete,
     RecipeSignedAndFresh, ChannelPermitted, IdempotencyKeyAssigned, BudgetAvailable, ControllerResponded,
     IndependentObservation, ObservationWindowMet, VerificationMethodMatches, RecordAbsent}

  /** A removal needs all of them, or a human's approval in place of the confidence. */
  lemma RemovedIff(f: Facts)
    ensures Removed(f) <==> HAPPY - {ConfidenceAtThreshold} <= f && (ConfidenceAtThreshold in f || HumanApprovedMatch in f)
  {
  }

  lemma HappyPathLeads(s: State)
    ensures Enough(s, HAPPY) <==>
            s in {DiscoveredCandidate, MatchConfirmed, RequestReady, RequestSubmitted, Acknowledged, VerifiedRemoved}
  {
    match s
    case RequestReady => assert Matched(HAPPY);
    case RequestSubmitted | Acknowledged => assert Sent(HAPPY);
    case VerifiedRemoved => RemovedIff(HAPPY);
    case Reappeared => assert RecordPresentAgain !in HAPPY;
    case _ =>
  }

  /** They are sufficient, and none can be spared; and they lead nowhere but along that path. */
  lemma HappyPathIsMinimal(s: State, missing: Fact)
    ensures Reaches(s, HAPPY) <==>
            s in {DiscoveredCandidate, MatchConfirmed, RequestReady, RequestSubmitted, Acknowledged, VerifiedRemoved}
    ensures Reaches(VerifiedRemoved, HAPPY - {missing}) <==> missing !in HAPPY
  {
    ReachableIff(s, HAPPY);
    HappyPathLeads(s);
    var f := HAPPY - {missing};
    ReachableIff(VerifiedRemoved, f);
    assert Enough(VerifiedRemoved, f) <==> Removed(f);
    RemovedIff(f);
    SpareOne(missing);
  }

  lemma SpareOne(missing: Fact)
    ensures var f := HAPPY - {missing};
            HAPPY - {ConfidenceAtThreshold} <= f && (ConfidenceAtThreshold in f || HumanApprovedMatch in f) <==> missing !in HAPPY
  {
    var f := HAPPY - {missing};
    assert HumanApprovedMatch !in f;
    if missing in HAPPY && missing != ConfidenceAtThreshold {
      assert missing in HAPPY - {ConfidenceAtThreshold} && missing !in f;
    }
  }

  // ---------------------------------------------------------------- the flags of the states

  datatype Class = Outcome | Progress | InFlight

  function ClassifyTruthState(s: State): Class {
    var f := FactsOf(s);
    if f.assertsVerifiedRemoval || f.assertsSearchDelisting then Outcome
    else if f.isLegitimateOutcome then Outcome
    else if f.neverCountsAsProgress then InFlight
    else Progress
  }

  /** Nothing leads from the state but the record coming back. */
  ghost predicate EndsTheRequest(s: State) {
    forall id :: Row(id).from == Some(s) ==> Row(id).to == Reappeared
  }

  /** Every way there establishes the fact `x`. */
  ghost predicate Takes(s: State, x: Fact) { forall f :: Reaches(s, f) ==> x in f }

  /** Enough for every state that needs no external action, by way of a delisting. */
  const DELISTED: Facts :=
    {SourceRecordObserved, ConfidenceBasisRecorded, HumanApprovedMatch, SearchEngineSource, DelistingObserved,
     RecordPresentAgain, FreshAuthorityPolicyRecipe, AuthorityValid, PolicyDecisionComplete, RecipeSignedAndFresh,
     SubjectMatchDisproved, ExemptionRecorded, HumanGateDetected}

  /** Enough for every state but the delisting. */
  const DIRECT: Facts := HAPPY + {RecordPresentAgain, SubjectMatchDisproved, ExemptionRecorded, HumanGateDetected}

  lemma EndsIff(s: State)
    ensures EndsTheRequest(s) <==> s in {VerifiedRemoved, SearchDelisted, VerifiedNotPresent, NotRemovable, HumanRequired}
  {
    match s
    case DiscoveredCandidate => assert Row(T3).from == Some(s);
    case MatchConfirmed => assert Row(T5).from == Some(s);
    case RequestReady => assert Row(T8).from == Some(s);
    case RequestSubmitted => assert Row(T11).from == Some(s);
    case Acknowledged => assert Row(T14).from == Some(s);
    case Reappeared => assert Row(T18).from == Some(s);
    case _ =>
  }

  lemma DelistedReaches(s: State)
    requires s !in {RequestSubmitted, Acknowledged, VerifiedRemoved}
    ensures Reaches(s, DELISTED)
  {
    ReachableIff(s, DELISTED);
    assert Matched(DELISTED) && Delisted(DELISTED);
  }

  lemma DirectReaches(s: State)
    requires s != SearchDelisted
    ensures Reaches(s, DIRECT)
  {
    ReachableIff(s, DIRECT);
    RemovedIff(DIRECT);
  }

  lemma UnremovedReaches(s: State)
    requires s == RequestSubmitted || s == Acknowledged
    ensures Reaches(s, HAPPY - {RecordAbsent})
  {
    ReachableIff(s, HAPPY - {RecordAbsent});
  }

  /** Which states nobody reaches without an external action, without an absence, and without a delisting. */
  lemma TakesFacts(s: State)
    ensures Takes(s, IdempotencyKeyAssigned) <==> s in {RequestSubmitted, Acknowledged, VerifiedRemoved}
    ensures Takes(s, RecordAbsent) <==> s == VerifiedRemoved
    ensures Takes(s, DelistingObserved) <==> s == SearchDelisted
  {
    forall f
      ensures Reaches(s, f) <==> Enough(s, f)
    {
      ReachableIff(s, f);
    }
    assert IdempotencyKeyAssigned !in DELISTED && RecordAbsent !in DELISTED && DelistingObserved !in DIRECT;
    if s in {RequestSubmitted, Acknowledged, VerifiedRemoved} {
      if s != VerifiedRemoved {
        UnremovedReaches(s);
        assert RecordAbsent !in HAPPY - {RecordAbsent};
      }
    } else {
      DelistedReaches(s);
    }
    if s != SearchDelisted {
      DirectReaches(s);
    }
  }

  /** The flags are what the table makes of the states: a removal is asserted exactly where every way leads through an
    * observed absence and a delisting where every way leads through one; an outcome is a state that only the
    * record coming back can leave, and an outcome is terminal for now unless it is a delisting; and what never
    * counts as progress is what lies between an external action and its outcome. */
  lemma FlagsAreExact(s: State)
    ensures var flags := FactsOf(s);
            && (flags.assertsVerifiedRemoval <==> Takes(s, RecordAbsent))
            && (flags.assertsSearchDelisting <==> Takes(s, DelistingObserved))
            && (flags.isLegitimateOutcome <==> EndsTheRequest(s))
            && (flags.terminalForNow <==> EndsTheRequest(s) && !Takes(s, DelistingObserved))
            && (flags.neverCountsAsProgress <==> !EndsTheRequest(s) && Takes(s, IdempotencyKeyAssigned))
    ensures ClassifyTruthState(s)
         == if EndsTheRequest(s) then Outcome else if Takes(s, IdempotencyKeyAssigned) then InFlight else Progress
  {
    TakesFacts(s);
    EndsIff(s);
  }
}
