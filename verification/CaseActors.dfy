/** Who acted and who observed: what the independence test of a verification can tell apart, in every run. */
module CaseActors {
  import opened Wrappers
  import opened TruthState
  import opened StateMachine
  import opened Entities
  import opened Commands
  import opened CaseTables
  import opened CaseHistory

  /** Every row is written in the service's own name. */
  ghost predicate OneActor(audit: seq<AuditRow>) { forall i :: 0 <= i < |audit| ==> audit[i].actor == ACTOR }

  lemma OneActorAppend(audit: seq<AuditRow>, more: seq<AuditRow>)
    requires OneActor(audit) && OneActor(more)
    ensures OneActor(audit + more)
  {
  }

  /** No handler writes a row in another name: none is told one. */
  lemma ChangeHasOneActor(t: Tables, u: Tables, ch: Change)
    requires Changes(t, u, ch) && OneActor(t.audit)
    ensures OneActor(u.audit)
  {
    match ch
    case Quiet(notes) => OneActorAppend(t.audit, notes);
    case Opened(c, row, at) => OneActorAppend(t.audit, [AuditRow(ACTOR, at, Creation(c, row.state))]);
    case Advanced(c, code, to, at) =>
      OneActorAppend(t.audit, [AuditRow(ACTOR, at, Transit(code, t.cases[c].state, to, Some(c), None))]);
    case Resurfaced(row) => OneActorAppend(t.audit, [row]);
  }

  lemma {:induction false} RunHasOneActor(t: Tables, events: seq<Event>)
    requires OneActor(t.audit)
    ensures OneActor(After(t, events).audit)
  {
    if events != [] {
      var before := After(t, events[..|events| - 1]);
      RunHasOneActor(t, events[..|events| - 1]);
      var ch := Classify(before, events[|events| - 1]);
      ChangeHasOneActor(before, After(t, events), ch);
    }
  }

  /** What a verification must pass before its independence is judged. */
  predicate ReachesTheTest(t: Tables, known: set<string>, r: VerifyRequest) {
    && r.caseId in t.cases && t.cases[r.caseId].version == r.version && t.cases[r.caseId].state == Acknowledged
    && (r.evidence.Some? ==> r.evidence.value in known)
  }

  lemma ConcludedNeverDenies(before: Tables, t: Tables, call: Call, c: string, o: Outcome)
    requires c in t.cases
    ensures !Concluded(before, t, call, c, o).1.Denied?
  {
  }

  /** The submission a verification is judged against is in the service's name. */
  lemma ActingIsTheService(t: Tables, c: string)
    requires OneActor(t.audit) && SubmissionRow(t.audit, c).Some?
    ensures t.audit[SubmissionRow(t.audit, c).value].actor == ACTOR
  {
  }

  lemma TestIff(t: Tables, call: Call, known: set<string>, r: VerifyRequest)
    requires OneActor(t.audit) && ReachesTheTest(t, known, r)
    ensures RecordObservation(t, call, known, r).1 == Denied(PathNotIndependent) <==>
            SubmissionRow(t.audit, r.caseId).None? || r.observationPath == r.actingPath || r.actor == ACTOR
  {
    var k := SubmissionRow(t.audit, r.caseId);
    if k.Some? {
      ActingIsTheService(t, r.caseId);
      if r.requiredSeconds > 0 {
        var acting := t.audit[k.value];
        ConcludedNeverDenies(t, t.(observations := t.observations + [ObservationOf(r, acting.actor)]), call, r.caseId,
                             Commands.RecordVerification(call.ctx, VerificationOf(r, acting)));
      }
    }
  }

  /** In every run the identity test refuses one name, the service's, whoever asked for the submission; the path
    * test compares two values of the same request. */
  lemma IndependenceTestIff(events: seq<Event>, call: Call, known: set<string>, r: VerifyRequest)
    requires ReachesTheTest(After(EMPTY, events), known, r)
    ensures RecordObservation(After(EMPTY, events), call, known, r).1 == Denied(PathNotIndependent) <==>
            SubmissionRow(After(EMPTY, events).audit, r.caseId).None? || r.observationPath == r.actingPath || r.actor == ACTOR
  {
    RunHasOneActor(EMPTY, events);
    TestIff(After(EMPTY, events), call, known, r);
  }

  lemma SameVerdict(ctx: Context, v: Verification, w: Verification)
    requires v.from == w.from && VerificationFacts(v) == VerificationFacts(w)
    ensures Commands.RecordVerification(ctx, v) == Commands.RecordVerification(ctx, w)
  {
  }

  /** `q` is `r` under another name and with another acting path. */
  predicate Reworded(r: VerifyRequest, q: VerifyRequest) {
    && q == r.(actor := q.actor, actingPath := q.actingPath)
    && r.actor != ACTOR && q.actor != ACTOR && r.actingPath != r.observationPath && q.actingPath != r.observationPath
  }

  lemma SameFacts(r: VerifyRequest, q: VerifyRequest, acting: AuditRow)
    requires r.requiredSeconds > 0 && acting.actor == ACTOR && Reworded(r, q)
    ensures VerificationFacts(VerificationOf(r, acting)) == VerificationFacts(VerificationOf(q, acting))
  {
  }

  ghost predicate SameOutcome(one: (Tables, Answer), two: (Tables, Answer)) {
    one.1 == two.1 && one.0.cases == two.0.cases && one.0.audit == two.0.audit
  }

  lemma ConcludedAlike(before: Tables, t: Tables, u: Tables, call: Call, c: string, o: Outcome)
    requires c in t.cases && u == t.(observations := u.observations)
    ensures SameOutcome(Concluded(before, t, call, c, o), Concluded(before, u, call, c, o))
  {
  }

  lemma RewordedAlike(t: Tables, call: Call, known: set<string>, r: VerifyRequest, q: VerifyRequest)
    requires OneActor(t.audit) && Reworded(r, q)
    ensures SameOutcome(RecordObservation(t, call, known, r), RecordObservation(t, call, known, q))
  {
    if ReachesTheTest(t, known, r) && SubmissionRow(t.audit, r.caseId).Some? && r.requiredSeconds > 0 {
      var acting := t.audit[SubmissionRow(t.audit, r.caseId).value];
      ActingIsTheService(t, r.caseId);
      SameFacts(r, q, acting);
      SameVerdict(call.ctx, VerificationOf(r, acting), VerificationOf(q, acting));
      ConcludedAlike(t, t.(observations := t.observations + [ObservationOf(r, acting.actor)]),
                     t.(observations := t.observations + [ObservationOf(q, acting.actor)]), call, r.caseId,
                     Commands.RecordVerification(call.ctx, VerificationOf(r, acting)));
    }
  }

  /** So observers are interchangeable: under any other name but the service's, and with any other acting path but
    * the observation's own, a verification gets the same answer and leaves the same cases and the same log. */
  lemma ObserversAreInterchangeable(events: seq<Event>, call: Call, known: set<string>, r: VerifyRequest, q: VerifyRequest)
    requires Reworded(r, q)
    ensures SameOutcome(RecordObservation(After(EMPTY, events), call, known, r),
                        RecordObservation(After(EMPTY, events), call, known, q))
  {
    RunHasOneActor(EMPTY, events);
    RewordedAlike(After(EMPTY, events), call, known, r, q);
  }

  /** An observation of absence that was not reported in the service's name. */
  predicate ReportedByAnother(o: ObservationRow, c: string) {
    o.caseId == c && o.finding == Absent && o.acting == ACTOR && o.actor != ACTOR && o.actingPath != o.observationPath
  }

  /** What a verified removal therefore rests on, unless its case was opened with one. */
  lemma RemovalIsReportedByAnother(events: seq<Event>, c: string)
    requires var t := After(EMPTY, events);
             c in t.cases && t.cases[c].state == VerifiedRemoved && !BornVerified(t.audit, c)
    ensures var t := After(EMPTY, events);
            exists i :: 0 <= i < |t.observations| && ReportedByAnother(t.observations[i], c)
  {
    var t := After(EMPTY, events);
    EveryRunIsSafe(events);
    RunHasOneActor(EMPTY, events);
    var i, k :| 0 <= i < |t.observations| && 0 <= k < |t.audit| && Independent(t.observations[i], t.audit[k], c);
    assert ReportedByAnother(t.observations[i], c);
  }
}
