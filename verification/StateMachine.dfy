/** The removal state machine: evaluation of the table, and what holds of every run of it. */
module StateMachine {
  import opened Wrappers
  import opened TruthState

  datatype Error =
    | Forbidden(reason: ForbiddenReason)
    | NoSuchTransition
    | NotAnInitialState
    | GuardNotSatisfied(id: Id)
    | ObservationNotIndependent

  datatype Result = Applied(id: Id) | Thrown(error: Error)

  // ---------------------------------------------------------------- evaluation

  function LegalFrom(from: State): set<Id> {
    set id: Id | Row(id).from == Some(from)
  }

  /** The row of a pair of states. */
  function FindTransition(from: State, to: State): Option<Id> {
    match (from, to)
    case (DiscoveredCandidate, MatchConfirmed) => Some(T3)
    case (DiscoveredCandidate, VerifiedNotPresent) => Some(T4)
    case (MatchConfirmed, RequestReady) => Some(T5)
    case (MatchConfirmed, NotRemovable) => Some(T6)
    case (MatchConfirmed, HumanRequired) => Some(T7)
    case (MatchConfirmed, SearchDelisted) => Some(T21)
    case (RequestReady, RequestSubmitted) => Some(T8)
    case (RequestReady, HumanRequired) => Some(T9)
    case (RequestReady, NotRemovable) => Some(T10)
    case (RequestSubmitted, Acknowledged) => Some(T11)
    case (RequestSubmitted, HumanRequired) => Some(T12)
    case (RequestSubmitted, NotRemovable) => Some(T13)
    case (Acknowledged, VerifiedRemoved) => Some(T14)
    case (Acknowledged, NotRemovable) => Some(T15)
    case (Acknowledged, HumanRequired) => Some(T16)
    case (VerifiedRemoved, Reappeared) => Some(T17)
    case (Reappeared, RequestReady) => Some(T18)
    case (Reappeared, NotRemovable) => Some(T19)
    case (SearchDelisted, Reappeared) => Some(T20)
    case _ => None
  }

  /** The row of a creation. */
  function FindInitial(to: State): Option<Id> {
    match to
    case DiscoveredCandidate => Some(T1)
    case VerifiedNotPresent => Some(T2)
    case _ => None
  }

  /** Both lookups find exactly the rows of the table. */
  lemma LookupIsTheTable(id: Id, from: State, to: State)
    ensures FindTransition(from, to) == Some(id) <==> Row(id) == Spec(Some(from), to)
    ensures FindInitial(to) == Some(id) <==> Row(id) == Spec(None, to)
  {
    match id
    case _ =>
  }

  function ApplyTransition(from: State, to: State, f: Facts): Result {
    match ForbiddenPair(from, to)
    case Some(reason) => Thrown(Forbidden(reason))
    case None =>
      match FindTransition(from, to)
      case None => Thrown(NoSuchTransition)
      case Some(id) =>
        if GuardHolds(id, f) then Applied(id)
        else if to == VerifiedRemoved && IndependentObservation !in f then Thrown(ObservationNotIndependent)
        else Thrown(GuardNotSatisfied(id))
  }

  function ApplyInitialState(to: State, f: Facts): Result {
    match FindInitial(to)
    case None => Thrown(NotAnInitialState)
    case Some(id) => if GuardHolds(id, f) then Applied(id) else Thrown(GuardNotSatisfied(id))
  }

  function Available(from: State, f: Facts): set<Id> {
    set id: Id | id in LegalFrom(from) && GuardHolds(id, f)
  }

  /** A transition is applied exactly when its row exists and its guard holds: the forbidden list, which
    * is consulted first, never hides a legal row. */
  lemma AppliesIff(from: State, to: State, f: Facts, id: Id)
    ensures ApplyTransition(from, to, f) == Applied(id)
            <==> Row(id) == Spec(Some(from), to) && GuardHolds(id, f)
  {
    LookupIsTheTable(id, from, to);
  }

  lemma InitialAppliesIff(to: State, f: Facts, id: Id)
    ensures ApplyInitialState(to, f) == Applied(id) <==> Row(id) == Spec(None, to) && GuardHolds(id, f)
  {
    LookupIsTheTable(id, to, to);
  }

  /** The offered transitions are exactly those that would be applied now. */
  lemma AvailableIsExact(from: State, f: Facts, id: Id)
    ensures id in Available(from, f) <==> ApplyTransition(from, Row(id).to, f) == Applied(id)
  {
    AppliesIff(from, Row(id).to, f, id);
  }

  lemma TransitionsAreDiagnosed(from: State, to: State, f: Facts, id: Id)
    ensures var r := ApplyTransition(from, to, f);
            && (r == Thrown(GuardNotSatisfied(id)) <==>
                Row(id) == Spec(Some(from), to) && !GuardHolds(id, f) && (id == T14 ==> IndependentObservation in f))
            && (r == Thrown(ObservationNotIndependent) <==>
                Row(T14) == Spec(Some(from), to) && IndependentObservation !in f)
  {
    var needed := {IndependentObservation, ObservationWindowMet, VerificationMethodMatches, RecordAbsent};
    assert IndependentObservation in needed;
    LookupIsTheTable(id, from, to);
    LookupIsTheTable(T14, from, to);
  }

  lemma NoRowIsDiagnosed(from: State, to: State, f: Facts)
    ensures var r := ApplyTransition(from, to, f);
            r.Thrown? && (r.error == NoSuchTransition || r.error.Forbidden?) <==> forall i :: Row(i) != Spec(Some(from), to)
    ensures ApplyInitialState(to, f) == Thrown(NotAnInitialState) <==> forall i :: Row(i) != Spec(None, to)
  {
    forall i
      ensures FindTransition(from, to) == Some(i) <==> Row(i) == Spec(Some(from), to)
      ensures FindInitial(to) == Some(i) <==> Row(i) == Spec(None, to)
    {
      LookupIsTheTable(i, from, to);
    }
    match FindTransition(from, to) {
      case Some(i) => LookupIsTheTable(i, from, to);
      case None =>
    }
  }

  /** What every refused attempt is told, for all pairs and all facts: a row whose guard fails is named, except
    * that a missing independent observation is blamed first on the way to VERIFIED_REMOVED, whichever other
    * facts are missing too; a pair is refused as such exactly when the table has no row for it. */
  lemma EveryRefusalIsDiagnosed(from: State, to: State, f: Facts, id: Id)
    ensures var r := ApplyTransition(from, to, f);
            && (r == Thrown(GuardNotSatisfied(id)) <==>
                Row(id) == Spec(Some(from), to) && !GuardHolds(id, f) && (id == T14 ==> IndependentObservation in f))
            && (r == Thrown(ObservationNotIndependent) <==>
                Row(T14) == Spec(Some(from), to) && IndependentObservation !in f)
            && (r.Thrown? && (r.error == NoSuchTransition || r.error.Forbidden?) <==>
                forall i :: Row(i) != Spec(Some(from), to))
    ensures ApplyInitialState(to, f) == Thrown(GuardNotSatisfied(id)) <==> Row(id) == Spec(None, to) && !GuardHolds(id, f)
    ensures ApplyInitialState(to, f) == Thrown(NotAnInitialState) <==> forall i :: Row(i) != Spec(None, to)
  {
    TransitionsAreDiagnosed(from, to, f, id);
    NoRowIsDiagnosed(from, to, f);
    LookupIsTheTable(id, from, to);
  }

  /** The shortcut each reason is about. */
  function Shortcut(r: ForbiddenReason): (State, State) {
    match r
    case SkipsIdentity => (DiscoveredCandidate, RequestReady)
    case SkipsGate => (MatchConfirmed, RequestSubmitted)
    case NoExternalAction => (RequestReady, VerifiedRemoved)
    case RemovalTheater => (RequestSubmitted, VerifiedRemoved)
    case CollapsesDelisting => (SearchDelisted, VerifiedRemoved)
    case NothingRemoved => (VerifiedNotPresent, VerifiedRemoved)
  }

  /** Whatever the facts, each shortcut and nothing else is forbidden for its reason, and the table has no way around
    * it: what the shortcut leads to is entered from other states only. */
  lemma ForbiddenIff(from: State, to: State, f: Facts, r: ForbiddenReason)
    ensures ApplyTransition(from, to, f) == Thrown(Forbidden(r)) <==> (from, to) == Shortcut(r)
    ensures forall id :: Row(id) != Spec(Some(Shortcut(r).0), Shortcut(r).1)
    ensures ApplyTransition(from, to, f) == Thrown(NoSuchTransition) <==>
            (forall id :: Row(id) != Spec(Some(from), to)) && forall q :: (from, to) != Shortcut(q)
  {
    NoRowIsDiagnosed(from, to, f);
    ShortcutsAreForbidden(from, to);
    forall id
      ensures Row(id) != Spec(Some(Shortcut(r).0), Shortcut(r).1)
    {
      LookupIsTheTable(id, Shortcut(r).0, Shortcut(r).1);
    }
  }

  lemma ShortcutsAreForbidden(from: State, to: State)
    ensures forall r :: ForbiddenPair(from, to) == Some(r) <==> (from, to) == Shortcut(r)
    ensures ForbiddenPair(from, to) == None <==> forall r :: (from, to) != Shortcut(r)
  {
    if ForbiddenPair(from, to).Some? {
      assert (from, to) == Shortcut(ForbiddenPair(from, to).value);
    }
  }

  // ---------------------------------------------------------------- runs

  /** An attempt to move: a target state and the facts observed. */
  datatype Move = Move(to: State, facts: Facts)

  datatype Exposure = Exposure(current: Option<State>, history: seq<Id>)

  const Fresh := Exposure(None, [])

  function Attempt(current: Option<State>, m: Move): Result {
    match current
    case None => ApplyInitialState(m.to, m.facts)
    case Some(s) => ApplyTransition(s, m.to, m.facts)
  }

  /** A refused attempt changes nothing. */
  function Step(e: Exposure, m: Move): Exposure {
    match Attempt(e.current, m)
    case Applied(id) => Exposure(Some(Row(id).to), e.history + [id])
    case Thrown(_) => e
  }

  function Play(moves: seq<Move>): Exposure {
    if moves == [] then Fresh else Step(Play(moves[..|moves| - 1]), moves[|moves| - 1])
  }

  /** The state a sequence of transitions ends in. */
  function EndState(run: seq<Id>): Option<State> {
    if run == [] then None else Some(Row(run[|run| - 1]).to)
  }

  /** Each transition starts where the previous one ended; the first one is a creation. */
  ghost predicate Linked(run: seq<Id>) {
    forall i :: 0 <= i < |run| ==> Row(run[i]).from == EndState(run[..i])
  }

  lemma LinkedPrefix(run: seq<Id>, n: nat)
    requires Linked(run) && n <= |run|
    ensures Linked(run[..n])
  {
    forall i | 0 <= i < n
      ensures Row(run[..n][i]).from == EndState(run[..n][..i])
    {
      assert run[..n][..i] == run[..i];
    }
  }

  lemma AttemptFits(current: Option<State>, m: Move, id: Id)
    requires Attempt(current, m) == Applied(id)
    ensures Row(id).from == current && Row(id).to == m.to && GuardHolds(id, m.facts)
  {
    match current
    case None => InitialAppliesIff(m.to, m.facts, id);
    case Some(s) => AppliesIff(s, m.to, m.facts, id);
  }

  /** Whatever is attempted, the applied transitions are linked and the current state is their end. */
  lemma {:induction false} PlayIsLinked(moves: seq<Move>)
    ensures Linked(Play(moves).history) && Play(moves).current == EndState(Play(moves).history)
  {
    if moves != [] {
      var init, m := moves[..|moves| - 1], moves[|moves| - 1];
      PlayIsLinked(init);
      var e := Play(init);
      var h := Play(moves).history;
      match Attempt(e.current, m)
      case Thrown(_) =>
      case Applied(id) =>
        AttemptFits(e.current, m, id);
        forall i | 0 <= i < |h|
          ensures Row(h[i]).from == EndState(h[..i])
        {
          assert h[..i] == e.history[..i];
        }
    }
  }

  /** How many transitions of a run are in `ids`. */
  function Tally(run: seq<Id>, ids: set<Id>): nat {
    if run == [] then 0
    else Tally(run[..|run| - 1], ids) + if run[|run| - 1] in ids then 1 else 0
  }

  lemma {:induction false} TallySplit(run: seq<Id>, a: set<Id>, b: set<Id>)
    requires a !! b
    ensures Tally(run, a + b) == Tally(run, a) + Tally(run, b)
  {
    if run != [] {
      TallySplit(run[..|run| - 1], a, b);
    }
  }

  lemma {:induction false} TallyMonotone(run: seq<Id>, a: set<Id>, b: set<Id>)
    requires a <= b
    ensures Tally(run, a) <= Tally(run, b)
  {
    if run != [] {
      TallyMonotone(run[..|run| - 1], a, b);
    }
  }

  lemma TallyAppend(run: seq<Id>, id: Id, ids: set<Id>)
    ensures Tally(run + [id], ids) == Tally(run, ids) + if id in ids then 1 else 0
  {
    assert (run + [id])[..|run|] == run;
  }

  /** The transitions that enter a state. */
  ghost function Into(s: State): set<Id> {
    set id: Id | Row(id).to == s
  }

  /** The transitions that leave a state. */
  ghost function OutOf(s: State): set<Id> {
    set id: Id | Row(id).from == Some(s)
  }

  /** Flow conservation: a state is entered once more than it is left exactly while it is current. */
  lemma {:induction false} Conservation(run: seq<Id>, s: State)
    requires Linked(run)
    ensures Tally(run, Into(s)) == Tally(run, OutOf(s)) + if EndState(run) == Some(s) then 1 else 0
  {
    if run != [] {
      LinkedPrefix(run, |run| - 1);
      Conservation(run[..|run| - 1], s);
    }
  }

  /** So the transitions out of a state never outnumber the transitions into it. */
  lemma Throughput(run: seq<Id>, s: State, out: set<Id>)
    requires Linked(run) && out <= OutOf(s)
    ensures Tally(run, out) <= Tally(run, Into(s))
  {
    Conservation(run, s);
    TallyMonotone(run, out, OutOf(s));
  }

  /** A run is created once. */
  lemma {:induction false} CreatedOnce(run: seq<Id>)
    requires Linked(run)
    ensures Tally(run, {T1, T2}) == if run == [] then 0 else 1
  {
    if run != [] {
      LinkedPrefix(run, |run| - 1);
      CreatedOnce(run[..|run| - 1]);
      assert Row(run[|run| - 1]).from == EndState(run[..|run| - 1]);
    }
  }

  lemma VerifiedFlow(r: seq<Id>)
    requires Linked(r)
    ensures Tally(r, {T14}) - Tally(r, {T17}) == if EndState(r) == Some(VerifiedRemoved) then 1 else 0
  {
    assert Into(VerifiedRemoved) == {T14} && OutOf(VerifiedRemoved) == {T17};
    Conservation(r, VerifiedRemoved);
  }

  lemma AcknowledgementFlow(r: seq<Id>)
    requires Linked(r)
    ensures Tally(r, {T14}) <= Tally(r, {T11})
  {
    assert Into(Acknowledged) == {T11};
    Throughput(r, Acknowledged, {T14});
  }

  lemma SubmissionFlow(r: seq<Id>)
    requires Linked(r)
    ensures Tally(r, {T11}) <= Tally(r, {T8})
  {
    assert Into(RequestSubmitted) == {T8};
    Throughput(r, RequestSubmitted, {T11});
  }

  lemma ReadyFlow(r: seq<Id>)
    requires Linked(r)
    ensures Tally(r, {T8}) <= Tally(r, {T5}) + Tally(r, {T18})
  {
    assert Into(RequestReady) == {T5} + {T18};
    Throughput(r, RequestReady, {T8});
    TallySplit(r, {T5}, {T18});
  }

  lemma ReappearanceFlow(r: seq<Id>)
    requires Linked(r)
    ensures Tally(r, {T18}) <= Tally(r, {T17}) + Tally(r, {T20})
  {
    assert Into(Reappeared) == {T17} + {T20};
    Throughput(r, Reappeared, {T18});
    TallySplit(r, {T17}, {T20});
  }

  lemma MatchFlow(r: seq<Id>)
    requires Linked(r)
    ensures Tally(r, {T5}) + Tally(r, {T21}) <= Tally(r, {T3})
  {
    assert Into(MatchConfirmed) == {T3};
    Throughput(r, MatchConfirmed, {T5} + {T21});
    TallySplit(r, {T5}, {T21});
  }

  lemma DiscoveryFlow(r: seq<Id>)
    requires Linked(r)
    ensures Tally(r, {T3}) <= Tally(r, {T1}) <= 1
  {
    assert Into(DiscoveredCandidate) == {T1};
    Throughput(r, DiscoveredCandidate, {T3});
    CreatedOnce(r);
    TallyMonotone(r, {T1}, {T1, T2});
  }

  lemma DelistingFlow(r: seq<Id>)
    requires Linked(r)
    ensures Tally(r, {T20}) <= Tally(r, {T21})
  {
    assert Into(SearchDelisted) == {T21};
    Throughput(r, SearchDelisted, {T20});
  }

  /** In every run: no more verifications than acknowledgements than submissions than readinesses; no
    * more re-preparations than reappearances; at most one match, first preparation or delisting; and a
    * removal is current exactly while verifications outnumber their reappearances. */
  lemma FlowInequalities(moves: seq<Move>)
    ensures var r := Play(moves).history;
            && Tally(r, {T14}) <= Tally(r, {T11}) <= Tally(r, {T8}) <= Tally(r, {T5}) + Tally(r, {T18})
            && Tally(r, {T18}) <= Tally(r, {T17}) + Tally(r, {T20})
            && Tally(r, {T20}) <= Tally(r, {T21})
            && Tally(r, {T5}) + Tally(r, {T21}) <= Tally(r, {T3}) <= Tally(r, {T1}) <= 1
            && Tally(r, {T14}) - Tally(r, {T17}) == if Play(moves).current == Some(VerifiedRemoved) then 1 else 0
  {
    PlayIsLinked(moves);
    var r := Play(moves).history;
    VerifiedFlow(r);
    AcknowledgementFlow(r);
    SubmissionFlow(r);
    ReadyFlow(r);
    ReappearanceFlow(r);
    DelistingFlow(r);
    MatchFlow(r);
    DiscoveryFlow(r);
  }

  // ---------------------------------------------------------------- length and absorption

  const REAPPEARANCES: set<Id> := {T17, T20}

  /** The most transitions that can still happen before a reappearance. */
  function Rank(s: Option<State>): nat {
    match s
    case None => 6
    case Some(DiscoveredCandidate) => 5
    case Some(MatchConfirmed) => 4
    case Some(Reappeared) => 4
    case Some(RequestReady) => 3
    case Some(RequestSubmitted) => 2
    case Some(Acknowledged) => 1
    case Some(_) => 0
  }

  /** One transition spends one unit of rank; only a reappearance grants five. */
  lemma RankStep(id: Id)
    ensures 1 + Rank(Some(Row(id).to)) <= Rank(Row(id).from) + if id in REAPPEARANCES then 5 else 0
  {
  }

  lemma {:induction false} RankBudget(run: seq<Id>)
    requires Linked(run)
    ensures |run| + Rank(EndState(run)) <= 6 + 5 * Tally(run, REAPPEARANCES)
  {
    if run != [] {
      LinkedPrefix(run, |run| - 1);
      RankBudget(run[..|run| - 1]);
      RankStep(run[|run| - 1]);
      assert Row(run[|run| - 1]).from == EndState(run[..|run| - 1]);
    }
  }

  /** A run can only be long by reappearing: at most six transitions, and five more per reappearance. */
  lemma RunLength(moves: seq<Move>)
    ensures var r := Play(moves).history; |r| + Rank(EndState(r)) <= 6 + 5 * Tally(r, REAPPEARANCES)
  {
    PlayIsLinked(moves);
    RankBudget(Play(moves).history);
  }

  const ALL_FACTS: Facts :=
    {SourceRecordObserved, ConfidenceAtThreshold, ConfidenceBasisRecorded, AuthorityValid, PolicyDecisionComplete,
     RecipeSignedAndFresh, ChannelPermitted, FreshAuthorityPolicyRecipe, IdempotencyKeyAssigned, BudgetAvailable,
     ControllerResponded, IndependentObservation, ObservationWindowMet, VerificationMethodMatches, RecordAbsent,
     RecordPresentAgain}

  function MovesFor(run: seq<Id>, f: Facts): seq<Move> {
    if run == [] then [] else MovesFor(run[..|run| - 1], f) + [Move(Row(run[|run| - 1]).to, f)]
  }

  ghost predicate Playable(run: seq<Id>, f: Facts) {
    Linked(run) && forall i :: 0 <= i < |run| ==> GuardHolds(run[i], f)
  }

  lemma AttemptOfRow(current: Option<State>, id: Id, f: Facts)
    requires Row(id).from == current && GuardHolds(id, f)
    ensures Attempt(current, Move(Row(id).to, f)) == Applied(id)
  {
    match current
    case None => InitialAppliesIff(Row(id).to, f, id);
    case Some(s) => AppliesIff(s, Row(id).to, f, id);
  }

  lemma PlayNext(moves: seq<Move>, e: Exposure, id: Id, f: Facts)
    requires Play(moves) == e && Row(id).from == e.current && GuardHolds(id, f)
    ensures Play(moves + [Move(Row(id).to, f)]) == Exposure(Some(Row(id).to), e.history + [id])
  {
    var m := Move(Row(id).to, f);
    assert (moves + [m])[..|moves|] == moves;
    AttemptOfRow(e.current, id, f);
  }

  lemma PlayableInit(run: seq<Id>, f: Facts)
    requires Playable(run, f) && run != []
    ensures var init, id := run[..|run| - 1], run[|run| - 1];
            Playable(init, f) && GuardHolds(id, f) && Row(id).from == EndState(init) && run == init + [id]
  {
    LinkedPrefix(run, |run| - 1);
  }

  /** A linked sequence of transitions whose guards all hold is played as it stands. */
  lemma {:induction false} LinkedIsPlayable(run: seq<Id>, f: Facts)
    requires Playable(run, f)
    ensures Play(MovesFor(run, f)) == Exposure(EndState(run), run)
  {
    if run != [] {
      var init, id := run[..|run| - 1], run[|run| - 1];
      PlayableInit(run, f);
      LinkedIsPlayable(init, f);
      PlayNext(MovesFor(init, f), Exposure(EndState(init), init), id, f);
    }
  }

  lemma LinkedAppend(run: seq<Id>, id: Id)
    requires Linked(run) && Row(id).from == EndState(run)
    ensures Linked(run + [id])
  {
    var r := run + [id];
    forall i | 0 <= i < |r|
      ensures Row(r[i]).from == EndState(r[..i])
    {
      assert r[..i] == if i < |run| then run[..i] else run;
    }
  }

  /** `longer` extends `run` by one transition that can be played. */
  lemma Extend(run: seq<Id>, id: Id) returns (longer: seq<Id>)
    requires Playable(run, ALL_FACTS) && Row(id).from == EndState(run) && GuardHolds(id, ALL_FACTS)
    ensures |longer| == |run| + 1 && Playable(longer, ALL_FACTS) && EndState(longer) == Some(Row(id).to)
    ensures Tally(longer, REAPPEARANCES) == Tally(run, REAPPEARANCES) + if id in REAPPEARANCES then 1 else 0
  {
    longer := run + [id];
    LinkedAppend(run, id);
    TallyAppend(run, id, REAPPEARANCES);
  }

  lemma SubmitAndRemove(run: seq<Id>) returns (longer: seq<Id>)
    requires Playable(run, ALL_FACTS) && EndState(run) == Some(RequestReady)
    ensures Playable(longer, ALL_FACTS) && EndState(longer) == Some(VerifiedRemoved) && |longer| == |run| + 3
    ensures Tally(longer, REAPPEARANCES) == Tally(run, REAPPEARANCES)
  {
    longer := Extend(run, T8);
    longer := Extend(longer, T11);
    longer := Extend(longer, T14);
  }

  lemma {:induction false} LongRun(n: nat) returns (run: seq<Id>)
    ensures Playable(run, ALL_FACTS) && EndState(run) == Some(VerifiedRemoved)
    ensures |run| == 6 + 5 * n && Tally(run, REAPPEARANCES) == n
  {
    if n == 0 {
      run := Extend([], T1);
      run := Extend(run, T3);
      run := Extend(run, T5);
    } else {
      run := LongRun(n - 1);
      run := Extend(run, T17);
      run := Extend(run, T18);
    }
    run := SubmitAndRemove(run);
  }

  /** The bound is reached: for every n some run reappears n times and has 6 + 5n transitions. */
  lemma RunLengthIsTight(n: nat)
    ensures exists moves :: Tally(Play(moves).history, REAPPEARANCES) == n && |Play(moves).history| == 6 + 5 * n
  {
    var run := LongRun(n);
    LinkedIsPlayable(run, ALL_FACTS);
    var moves := MovesFor(run, ALL_FACTS);
    assert Tally(Play(moves).history, REAPPEARANCES) == n;
  }

  predicate Absorbing(s: State) { s in {NotRemovable, HumanRequired, VerifiedNotPresent} }

  /** Nothing ever leaves an absorbing state, and these are the only states nothing leaves. */
  lemma AbsorbingIff(s: State)
    ensures Absorbing(s) <==> forall m: Move :: ApplyTransition(s, m.to, m.facts).Thrown?
    ensures LegalFrom(s) == {} <==> Absorbing(s)
    ensures LegalFrom(s) == {} ==> FactsOf(s).terminalForNow
  {
    if Absorbing(s) {
      forall m: Move
        ensures ApplyTransition(s, m.to, m.facts).Thrown?
      {
        var r := ApplyTransition(s, m.to, m.facts);
        if r.Applied? {
          AppliesIff(s, m.to, m.facts, r.id);
        }
      }
    } else {
      var id := match s
        case DiscoveredCandidate => T4
        case MatchConfirmed => T6
        case RequestReady => T10
        case RequestSubmitted => T13
        case Acknowledged => T15
        case VerifiedRemoved => T17
        case SearchDelisted => T20
        case _ => T19;
      var m := Move(Row(id).to, {SubjectMatchDisproved, ExemptionRecorded, LawfulRefusalFinal, RecordPresentAgain});
      AppliesIff(s, m.to, m.facts, id);
      assert !ApplyTransition(s, m.to, m.facts).Thrown?;
      assert id in LegalFrom(s);
    }
  }

  lemma {:induction false} AbsorbedForever(e: Exposure, moves: seq<Move>, s: State)
    requires e.current == Some(s) && Absorbing(s)
    ensures PlayFrom(e, moves) == e
    decreases |moves|
  {
    if moves != [] {
      AbsorbingIff(s);
      AbsorbedForever(e, moves[1..], s);
    }
  }

  function PlayFrom(e: Exposure, moves: seq<Move>): Exposure
    decreases |moves|
  {
    if moves == [] then e else PlayFrom(Step(e, moves[0]), moves[1..])
  }

  // ---------------------------------------------------------------- what a verified removal took

  lemma PreviousTransition(run: seq<Id>, i: nat)
    requires Linked(run) && i < |run|
    ensures Row(run[i]).from.Some? ==> i > 0 && Row(run[i - 1]).to == Row(run[i]).from.value
  {
    if i > 0 {
      assert run[..i][|run[..i]| - 1] == run[i - 1];
    }
  }

  /** The states on the removal path have few ways in and, short of absorption, one way on. */
  lemma PathRows(id: Id)
    ensures Row(id).to == VerifiedRemoved <==> id == T14
    ensures Row(id).to == Acknowledged <==> id == T11
    ensures Row(id).to == RequestSubmitted <==> id == T8
    ensures Row(id).to == RequestReady <==> id == T5 || id == T18
    ensures Row(id).from == Some(VerifiedRemoved) <==> id == T17
    ensures Row(id).from == Some(Reappeared) && !Absorbing(Row(id).to) ==> id == T18
    ensures Row(id).from == Some(RequestReady) && !Absorbing(Row(id).to) ==> id == T8
    ensures Row(id).from == Some(RequestSubmitted) && !Absorbing(Row(id).to) ==> id == T11
    ensures Row(id).from == Some(Acknowledged) && !Absorbing(Row(id).to) ==> id == T14
    ensures Row(id).from.Some? ==> !Absorbing(Row(id).from.value)
  {
  }

  lemma BeforeSubmission(run: seq<Id>, i: nat)
    requires Linked(run) && i < |run| && run[i] == T8
    ensures i >= 1 && (run[i - 1] == T5 || run[i - 1] == T18)
  {
    PreviousTransition(run, i);
    PathRows(run[i - 1]);
  }

  lemma BeforeAcknowledgement(run: seq<Id>, i: nat)
    requires Linked(run) && i < |run| && run[i] == T11
    ensures i >= 1 && run[i - 1] == T8
  {
    PreviousTransition(run, i);
    PathRows(run[i - 1]);
  }

  lemma BeforeRemoval(run: seq<Id>, i: nat)
    requires Linked(run) && i < |run| && run[i] == T14
    ensures i >= 1 && run[i - 1] == T11
  {
    PreviousTransition(run, i);
    PathRows(run[i - 1]);
  }

  lemma StepsBack(run: seq<Id>, j: nat)
    requires Linked(run) && j < |run| && run[j] == T14
    ensures j >= 3 && run[j - 1] == T11 && run[j - 2] == T8 && (run[j - 3] == T5 || run[j - 3] == T18)
  {
    BeforeRemoval(run, j);
    BeforeAcknowledgement(run, j - 1);
    BeforeSubmission(run, j - 2);
  }

  /** Every verified removal directly follows its acknowledgement, its submission and its preparation. */
  lemma RemovalIsEarned(moves: seq<Move>, i: nat)
    requires i < |Play(moves).history| && Play(moves).history[i] == T14
    ensures var r := Play(moves).history;
            i >= 3 && r[i - 1] == T11 && r[i - 2] == T8 && (r[i - 3] == T5 || r[i - 3] == T18)
  {
    PlayIsLinked(moves);
    StepsBack(Play(moves).history, i);
  }

  /** The one way on from each point of the removal cycle. */
  function NextOnCycle(id: Id): Id {
    match id
    case T14 => T17
    case T17 => T18
    case T18 => T8
    case T8 => T11
    case _ => T14
  }

  /** A run that goes on after `i + 1` was not absorbed there, so it stays on the cycle. */
  lemma StaysOnCycle(run: seq<Id>, i: nat)
    requires Linked(run) && i + 2 < |run| && run[i] in {T14, T17, T18, T8, T11}
    ensures run[i + 1] == NextOnCycle(run[i])
  {
    assert run[..i + 1][|run[..i + 1]| - 1] == run[i];
    assert run[..i + 2][|run[..i + 2]| - 1] == run[i + 1];
    PathRows(run[i + 1]);
    PathRows(run[i + 2]);
  }

  /** A preparation never directly follows a removal. */
  lemma BeforePreparation(run: seq<Id>, k: nat)
    requires Linked(run) && 0 < k < |run| && (run[k] == T5 || run[k] == T18)
    ensures run[k - 1] != T14
  {
    PreviousTransition(run, k);
    PathRows(run[k - 1]);
  }

  lemma FiveApart(run: seq<Id>, i: nat, j: nat)
    requires i < j < |run| && run[i] == T14 && j >= 3 && run[j - 1] == T11 && run[j - 2] == T8
    requires (run[j - 3] == T5 || run[j - 3] == T18) && (j >= 4 ==> run[j - 4] != T14)
    ensures j >= i + 5
  {
  }

  lemma CycleLength(run: seq<Id>, i: nat, j: nat)
    requires Linked(run) && i < j < |run| && run[i] == T14 && run[j] == T14
    ensures j >= i + 5
  {
    StepsBack(run, j);
    if j >= 4 {
      BeforePreparation(run, j - 3);
    }
    FiveApart(run, i, j);
  }

  lemma CycleSteps(run: seq<Id>, i: nat)
    requires Linked(run) && i + 5 < |run| && run[i] == T14
    ensures run[i + 1] == T17 && run[i + 2] == T18 && run[i + 3] == T8 && run[i + 4] == T11
    ensures i + 6 < |run| ==> run[i + 5] == T14
  {
    StaysOnCycle(run, i);
    StaysOnCycle(run, i + 1);
    StaysOnCycle(run, i + 2);
    StaysOnCycle(run, i + 3);
    if i + 6 < |run| {
      StaysOnCycle(run, i + 4);
    }
  }

  /** From one verified removal to a later point of a run that is again a verified removal. */
  lemma OneCycle(run: seq<Id>, i: nat, j: nat)
    requires Linked(run) && i < j < |run| && run[i] == T14 && run[j] == T14
    ensures j >= i + 5 && run[i..i + 6] == [T14, T17, T18, T8, T11, T14]
  {
    NextRemoval(run, i, j);
    CycleSteps(run, i);
    var cycle := run[i..i + 6];
    assert cycle[0] == T14 && cycle[1] == T17 && cycle[2] == T18 && cycle[3] == T8 && cycle[4] == T11 && cycle[5] == T14;
  }

  lemma NextRemoval(run: seq<Id>, i: nat, j: nat)
    requires Linked(run) && i < j < |run| && run[i] == T14 && run[j] == T14
    ensures i + 5 <= j && run[i + 5] == T14
  {
    CycleLength(run, i, j);
    CycleSteps(run, i);
  }

  lemma {:induction false} CyclesAreFive(run: seq<Id>, i: nat, j: nat)
    requires Linked(run) && i < j < |run| && run[i] == T14 && run[j] == T14
    ensures (j - i) % 5 == 0
    decreases j - i
  {
    NextRemoval(run, i, j);
    if j != i + 5 {
      CyclesAreFive(run, i + 5, j);
    }
  }

  /** After a verified removal the next one, if any, is exactly five transitions later, through
    * reappearance, fresh preparation, submission and acknowledgement. */
  lemma BetweenRemovals(moves: seq<Move>, i: nat, j: nat)
    requires i < j < |Play(moves).history|
    requires Play(moves).history[i] == T14 && Play(moves).history[j] == T14
    ensures (j - i) % 5 == 0 && j >= i + 5
    ensures Play(moves).history[i..i + 6] == [T14, T17, T18, T8, T11, T14]
  {
    PlayIsLinked(moves);
    OneCycle(Play(moves).history, i, j);
    CyclesAreFive(Play(moves).history, i, j);
  }
}
