/** One whole run of the handlers: a case is opened, prepared, submitted, acknowledged and verified, and its
  * exposure then reappears. */
module CaseJourney {
  import opened Wrappers
  import opened TruthState
  import opened StateMachine
  import opened Channels
  import opened Entities
  import opened Commands
  import opened CaseTables
  import opened CaseHistory

  const CALL := Call(NOW, true)
  const OPEN_GRANT := StoredGrant(true, None, None)
  const LOADED := Loaded(Some(StoredDecision(DECISION, OfficialSelfService)), Some(OPEN_GRANT), Some(RECIPE),
                         Some(WritePermitted), Some(POLICY), true, true)

  /** The only case is "c", its creation is the first row of the log, and `n` rows were written so far. */
  ghost predicate At(t: Tables, state: State, version: nat, n: nat) {
    && t.cases == map["c" := Case(state, version, "s", "o", "x", "d")]
    && |t.audit| == n && n > 0 && t.audit[0].entry == Creation("c", MatchConfirmed)
    && "x" in t.exposures
  }

  lemma Then(events: seq<Event>, e: Event) returns (longer: seq<Event>)
    ensures After(EMPTY, longer) == Transact(After(EMPTY, events), e).0
  {
    longer := events + [e];
    assert longer[..|events|] == events;
  }

  lemma SubmissionAppend(audit: seq<AuditRow>, row: AuditRow)
    ensures SubmissionRow(audit + [row], "c") ==
            if !IsSubmissionOf(row, "c") then SubmissionRow(audit, "c")
            else if SubmissionRow(audit, "c").None? then Some(|audit|)
            else SubmissionRow(audit + [row], "c")
  {
    assert (audit + [row])[..|audit|] == audit;
  }

  const OPENING := ECreate(CALL, CreateRequest("s", "o", "x", "d", Some(OPEN_GRANT), Some((true, "o")), "c"))
  const PREPARING := EUpdate(CALL, LOADED, {}, UpdateRequest("c", 0, RequestReady, []))
  const CONFIRMING := EReconcile(CALL, {}, ReconcileRequest("a", EffectConfirmed, None, true))
  const ANSWERING := EResponse(CALL, {}, ResponseRequest("c", 2, Acknowledgement, None, None, true))
  const SEEN := VerifyRequest("c", 3, None, "p", "q", "observer", "m", 2000, 1, Absent, "m", true)
  const RESURFACING := EReappear(CALL, {"e"}, ReappearRequest("x", true, 4, "e"))

  lemma OpenStep(t: Tables)
    requires t.cases == map[] && t.audit == []
    requires t.exposures == map["x" := ExposureRow(MatchConfirmed, "s", "o")] && t.decisions == map["d" := None]
    ensures var u := Transact(t, OPENING).0;
            At(u, MatchConfirmed, 0, 1) && u.actions == t.actions && SubmissionRow(u.audit, "c") == None
  {
    var row := AuditRow(ACTOR, 5, Creation("c", MatchConfirmed));
    SubmissionAppend([], row);
    assert [] + [row] == [row];
  }

  lemma LoadedIsPreparable()
    ensures var i := InputFrom(LOADED, MatchConfirmed, false);
            && i.Some? && PrepareRequest(NOW, i.value).Moved? && PrepareRequest(NOW, i.value).id == T5
            && PrepareRequest(NOW, i.value).from == Some(MatchConfirmed) && PrepareRequest(NOW, i.value).to == RequestReady
  {
    SampleIsPreparable(MatchConfirmed, WritePermitted, false);
    var i := InputFrom(LOADED, MatchConfirmed, false).value;
    PreparedApplies(NOW, i, T5);
  }

  lemma PrepareIs(t: Tables)
    requires At(t, MatchConfirmed, 0, 1)
    ensures Transact(t, PREPARING).0 == Advance(t, CALL, "c", T5, MatchConfirmed, RequestReady)
  {
    LoadedIsPreparable();
  }

  lemma PrepareStep(t: Tables)
    requires At(t, MatchConfirmed, 0, 1) && SubmissionRow(t.audit, "c") == None
    ensures var u := Transact(t, PREPARING).0;
            At(u, RequestReady, 1, 2) && u.actions == t.actions && SubmissionRow(u.audit, "c") == None
  {
    PrepareIs(t);
    SubmissionAppend(t.audit, AuditRow(ACTOR, 5, Transit(T5, MatchConfirmed, RequestReady, Some("c"), None)));
  }

  lemma AcceptedSubmits()
    ensures var o := ExecuteAction(NOW, false, true, Accepted);
            o.Moved? && o.id == T8 && o.from == Some(RequestReady) && o.to == RequestSubmitted
  {
    SimpleOwnerMoves(T8);
    ExecuteMoves(NOW, false, true, Accepted);
  }

  lemma ConfirmStep(t: Tables)
    requires At(t, RequestReady, 1, 2) && SubmissionRow(t.audit, "c") == None
    requires t.actions == map["a" := ActionRow("c", Uncertain, true)]
    ensures var u := Transact(t, CONFIRMING).0;
            At(u, RequestSubmitted, 2, 3) && SubmissionRow(u.audit, "c") == Some(2)
            && u.audit[2].atMs == 5 && u.audit[2].actor == ACTOR
  {
    AcceptedSubmits();
    SubmissionAppend(t.audit, AuditRow(ACTOR, 5, Transit(T8, RequestReady, RequestSubmitted, Some("c"), None)));
  }

  lemma AcknowledgementMoves()
    ensures RecordControllerResponse(NOW, RequestSubmitted, ResponseAcknowledged, false)
            == Moved(Some(RequestSubmitted), Acknowledged, T11, {ControllerResponded}, [AcknowledgedEvent])
  {
  }

  lemma AnswerIs(t: Tables)
    requires At(t, RequestSubmitted, 2, 3)
    ensures Transact(t, ANSWERING).0 ==
            Advance(t.(responses := t.responses + [ResponseRow("c", ResponseAcknowledged)]), CALL, "c", T11, RequestSubmitted,
                    Acknowledged)
  {
    AcknowledgementMoves();
  }

  lemma AnswerStep(t: Tables)
    requires At(t, RequestSubmitted, 2, 3) && SubmissionRow(t.audit, "c") == Some(2)
    ensures var u := Transact(t, ANSWERING).0;
            At(u, Acknowledged, 3, 4) && SubmissionRow(u.audit, "c") == Some(2) && u.audit[2] == t.audit[2]
  {
    AnswerIs(t);
    SubmissionAppend(t.audit, AuditRow(ACTOR, 5, Transit(T11, RequestSubmitted, Acknowledged, Some("c"), None)));
  }

  lemma VerifyStep(t: Tables)
    requires At(t, Acknowledged, 3, 4) && SubmissionRow(t.audit, "c") == Some(2)
    requires t.audit[2].atMs == 5 && t.audit[2].actor == ACTOR
    ensures var u := Transact(t, EVerify(CALL, {}, SEEN)).0;
            At(u, VerifiedRemoved, 4, 5)
            && u.audit[4].entry == Transit(T14, Acknowledged, VerifiedRemoved, Some("c"), None)
  {
    VerificationDecides(NOW, VerificationOf(SEEN, t.audit[2]));
  }

  lemma OpenRun() returns (events: seq<Event>)
    ensures var t := After(EMPTY, events);
            At(t, MatchConfirmed, 0, 1) && t.actions == map[] && SubmissionRow(t.audit, "c") == None
  {
    events := Then([], ExposureWritten("x", ExposureRow(MatchConfirmed, "s", "o")));
    events := Then(events, DecisionRecorded("d"));
    OpenStep(After(EMPTY, events));
    events := Then(events, OPENING);
  }

  lemma PrepareRun() returns (events: seq<Event>)
    ensures var t := After(EMPTY, events);
            At(t, RequestReady, 1, 2) && t.actions == map[] && SubmissionRow(t.audit, "c") == None
  {
    events := OpenRun();
    PrepareStep(After(EMPTY, events));
    events := Then(events, PREPARING);
  }

  lemma ConfirmRun() returns (events: seq<Event>)
    ensures var t := After(EMPTY, events);
            At(t, RequestSubmitted, 2, 3) && SubmissionRow(t.audit, "c") == Some(2)
            && t.audit[2].atMs == 5 && t.audit[2].actor == ACTOR
  {
    events := PrepareRun();
    events := Then(events, ActionRecorded("a", ActionRow("c", Uncertain, true)));
    ConfirmStep(After(EMPTY, events));
    events := Then(events, CONFIRMING);
  }

  lemma AnswerRun() returns (events: seq<Event>)
    ensures var t := After(EMPTY, events);
            At(t, Acknowledged, 3, 4) && SubmissionRow(t.audit, "c") == Some(2)
            && t.audit[2].atMs == 5 && t.audit[2].actor == ACTOR
  {
    events := ConfirmRun();
    AnswerStep(After(EMPTY, events));
    events := Then(events, ANSWERING);
  }

  /** The handlers can carry a case from its creation to a verified removal. */
  lemma RemovalIsReachable() returns (events: seq<Event>)
    ensures var t := After(EMPTY, events);
            At(t, VerifiedRemoved, 4, 5)
            && t.audit[4].entry == Transit(T14, Acknowledged, VerifiedRemoved, Some("c"), None)
  {
    events := AnswerRun();
    VerifyStep(After(EMPTY, events));
    events := Then(events, EVerify(CALL, {}, SEEN));
  }

  lemma {:induction false} NewestIsTheOnly(t: Tables, audit: seq<AuditRow>)
    requires audit != [] && audit[0].entry == Creation("c", MatchConfirmed)
    requires t.cases.Keys == {"c"} && t.cases["c"].exposure == "x"
    ensures NewestCase(t, audit, "x") == Some("c")
  {
    var last := audit[|audit| - 1].entry;
    if |audit| > 1 && !(last.Creation? && last.caseId in t.cases) {
      NewestIsTheOnly(t, audit[..|audit| - 1]);
    }
  }

  lemma RemovedReappears()
    ensures DetectReappearance(NOW, VerifiedRemoved, true)
            == Moved(Some(VerifiedRemoved), Reappeared, T17, {RecordPresentAgain}, [ReappearedEvent])
  {
  }

  lemma ResurfaceStep(t: Tables)
    requires At(t, VerifiedRemoved, 4, 5) && t.exposures["x"] == ExposureRow(VerifiedRemoved, "s", "o")
    requires t.audit[4].entry == Transit(T14, Acknowledged, VerifiedRemoved, Some("c"), None)
    ensures var u := Transact(t, RESURFACING).0;
            && u.cases == t.cases
            && Latest(u.audit, "c") == Some(Transit(T17, VerifiedRemoved, Reappeared, Some("c"), Some("x")))
  {
    NewestIsTheOnly(t, t.audit);
    assert PriorEvent(t, t.audit[4], "x", VerifiedRemoved);
    RemovedReappears();
  }

  lemma ExposureStep(t: Tables)
    requires At(t, VerifiedRemoved, 4, 5)
    ensures var u := Transact(t, ExposureWritten("x", ExposureRow(VerifiedRemoved, "s", "o"))).0;
            At(u, VerifiedRemoved, 4, 5) && u.audit == t.audit && u.exposures["x"] == ExposureRow(VerifiedRemoved, "s", "o")
  {
  }

  lemma ExposureRun() returns (events: seq<Event>)
    ensures var t := After(EMPTY, events);
            At(t, VerifiedRemoved, 4, 5) && t.exposures["x"] == ExposureRow(VerifiedRemoved, "s", "o")
            && t.audit[4].entry == Transit(T14, Acknowledged, VerifiedRemoved, Some("c"), None)
  {
    events := RemovalIsReachable();
    ExposureStep(After(EMPTY, events));
    events := Then(events, ExposureWritten("x", ExposureRow(VerifiedRemoved, "s", "o")));
  }

  /** And when its exposure then reappears, the newest row that names the case says REAPPEARED while the
    * case itself still says VERIFIED_REMOVED. */
  lemma ReappearanceLeavesTheCaseBehind() returns (events: seq<Event>)
    ensures var t := After(EMPTY, events);
            && "c" in t.cases && t.cases["c"].state == VerifiedRemoved
            && Latest(t.audit, "c") == Some(Transit(T17, VerifiedRemoved, Reappeared, Some("c"), Some("x")))
  {
    events := ExposureRun();
    ResurfaceStep(After(EMPTY, events));
    events := Then(events, RESURFACING);
  }
}
