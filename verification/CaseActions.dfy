/** What any run leaves of an external action: the row first recorded, settled at most once by a reconciliation. */
module CaseActions {
  import opened Wrappers
  import opened TruthState
  import opened StateMachine
  import opened Entities
  import opened Commands
  import opened CaseTables
  import opened CaseHistory

  // ---------------------------------------------------------------- what is recorded

  predicate Records(e: Event, a: string) { e.ActionRecorded? && e.action == a }

  /** Event `k` is the first to record action `a`. */
  predicate FirstRecord(events: seq<Event>, a: string, k: nat) {
    k < |events| && Records(events[k], a) && forall j :: 0 <= j < k ==> !Records(events[j], a)
  }

  /** The findings written about `a`, oldest first. */
  function FindingsOf(rs: seq<Reconciliation>, a: string): seq<EffectFinding> {
    if rs == [] then []
    else
      var last := rs[|rs| - 1];
      FindingsOf(rs[..|rs| - 1], a) + if last.actionId == a then [last.finding] else []
  }

  predicate OpenFindings(fs: seq<EffectFinding>) { forall i :: 0 <= i < |fs| ==> fs[i] == Indeterminate }

  /** `row` is what the findings make of the row `first`: only an ambiguous action is ever reconciled; it stays as it
    * was while the findings are indeterminate; and the one finding that settles it is the last. */
  predicate Settles(first: ActionRow, fs: seq<EffectFinding>, row: ActionRow) {
    && row.caseId == first.caseId
    && (fs != [] ==> first.ambiguous && OpenFindings(fs[..|fs| - 1]))
    && (OpenFindings(fs) ==> row == first)
    && (!OpenFindings(fs) ==>
        && !row.ambiguous
        && (row.status == Submitted <==> fs[|fs| - 1] == EffectConfirmed)
        && (row.status == Failed <==> fs[|fs| - 1] == EffectAbsent))
  }

  ghost predicate ActionFits(events: seq<Event>, t: Tables, a: string) {
    if a in t.actions then
      exists k: nat :: FirstRecord(events, a, k)
        && Settles(events[k].actionRow, FindingsOf(t.reconciliations, a), t.actions[a])
    else FindingsOf(t.reconciliations, a) == [] && forall k :: 0 <= k < |events| ==> !Records(events[k], a)
  }

  // ---------------------------------------------------------------- what one transaction does to actions

  /** Action `a` was ambiguous and is now settled, or left alone by an indeterminate finding. */
  predicate Reconciled(t: Tables, u: Tables, a: string, f: EffectFinding) {
    && a in t.actions && t.actions[a].ambiguous && a in u.actions
    && u.reconciliations == t.reconciliations + [Reconciliation(a, f)]
    && u.actions == t.actions[a := u.actions[a]]
    && u.actions[a] == match f
                       case EffectConfirmed => ActionRow(t.actions[a].caseId, Submitted, false)
                       case EffectAbsent => ActionRow(t.actions[a].caseId, Failed, false)
                       case Indeterminate => t.actions[a]
  }

  predicate SameActions(t: Tables, u: Tables) { u.actions == t.actions && u.reconciliations == t.reconciliations }

  /** A reconciliation that commits does all of this, and one that does not, or any other handler, does nothing. */
  lemma ReconcileActions(t: Tables, call: Call, known: set<string>, r: ReconcileRequest)
    ensures var (u, answer) := Reconcile(t, call, known, r);
            if answer.Done? then Reconciled(t, u, r.actionId, r.finding) else u == t
  {
  }

  lemma FinishKeepsActions(t: Tables, w: Tables, call: Call, c: string, o: Outcome)
    requires o.Moved? && o.from.Some? && c in t.cases && SameActions(t, w) && w.cases == t.cases
    ensures SameActions(t, Finish(t, w, call, c, o).0)
  {
  }

  lemma UpdateKeepsActions(t: Tables, call: Call, l: Loaded, known: set<string>, r: UpdateRequest)
    ensures SameActions(t, GuardedUpdate(t, call, l, known, r).0)
  {
  }

  lemma GateKeepsActions(t: Tables, call: Call, l: Loaded, known: set<string>, r: GateRequest)
    ensures SameActions(t, RecordHumanGate(t, call, l, known, r).0)
  {
    var (u, answer) := RecordHumanGate(t, call, l, known, r);
    if answer.Done? {
      var o := PrepareRequest(call.ctx, InputFrom(l, t.cases[r.caseId].state, true).value);
      FinishKeepsActions(t, t.(gates := t.gates + [Gate(r.caseId, r.kind)]), call, r.caseId, o);
    } else {
      assert u == t || u == t.(gates := t.gates + [Gate(r.caseId, r.kind)]);
    }
  }

  lemma ResponseKeepsActions(t: Tables, call: Call, known: set<string>, r: ResponseRequest)
    ensures SameActions(t, RecordResponse(t, call, known, r).0)
  {
  }

  lemma VerifyKeepsActions(t: Tables, call: Call, known: set<string>, r: VerifyRequest)
    ensures SameActions(t, RecordObservation(t, call, known, r).0)
  {
  }

  lemma ReappearKeepsActions(t: Tables, call: Call, known: set<string>, r: ReappearRequest)
    ensures SameActions(t, RecordReappearance(t, call, known, r).0)
  {
  }

  lemma OthersKeepActions(t: Tables, e: Event)
    requires !e.EReconcile? && !e.ActionRecorded?
    ensures SameActions(t, Transact(t, e).0)
  {
    match e
    case EUpdate(call, l, k, r) => UpdateKeepsActions(t, call, l, k, r);
    case EGate(call, l, k, r) => GateKeepsActions(t, call, l, k, r);
    case EResponse(call, k, r) => ResponseKeepsActions(t, call, k, r);
    case EVerify(call, k, r) => VerifyKeepsActions(t, call, k, r);
    case EReappear(call, k, r) => ReappearKeepsActions(t, call, k, r);
    case _ =>
  }

  // ---------------------------------------------------------------- runs

  lemma {:induction false} FindingsNext(rs: seq<Reconciliation>, r: Reconciliation, a: string)
    ensures FindingsOf(rs + [r], a) == FindingsOf(rs, a) + if r.actionId == a then [r.finding] else []
  {
    assert (rs + [r])[..|rs|] == rs;
  }

  lemma SettlesNext(first: ActionRow, fs: seq<EffectFinding>, f: EffectFinding, row: ActionRow, next: ActionRow)
    requires Settles(first, fs, row) && row.ambiguous
    requires next == match f
                     case EffectConfirmed => ActionRow(row.caseId, Submitted, false)
                     case EffectAbsent => ActionRow(row.caseId, Failed, false)
                     case Indeterminate => row
    ensures Settles(first, fs + [f], next)
  {
    assert (fs + [f])[..|fs|] == fs && (fs + [f])[|fs|] == f;
    assert OpenFindings(fs);
    if f == Indeterminate {
      assert OpenFindings(fs + [f]);
    }
  }

  lemma KeptFits(events: seq<Event>, e: Event, t: Tables, u: Tables, a: string)
    requires ActionFits(events, t, a) && !Records(e, a)
    requires a in u.actions <==> a in t.actions
    requires a in t.actions ==> u.actions[a] == t.actions[a]
    requires FindingsOf(u.reconciliations, a) == FindingsOf(t.reconciliations, a)
    ensures ActionFits(events + [e], u, a)
  {
    if a in t.actions {
      var k: nat :| FirstRecord(events, a, k)
        && Settles(events[k].actionRow, FindingsOf(t.reconciliations, a), t.actions[a]);
      assert FirstRecord(events + [e], a, k) && (events + [e])[k] == events[k];
    }
  }

  lemma ReconciledFits(events: seq<Event>, e: Event, t: Tables, u: Tables, a: string, b: string, f: EffectFinding)
    requires ActionFits(events, t, b) && e.EReconcile? && Reconciled(t, u, a, f)
    ensures ActionFits(events + [e], u, b)
  {
    FindingsNext(t.reconciliations, Reconciliation(a, f), b);
    if b == a {
      var k: nat :| FirstRecord(events, a, k)
        && Settles(events[k].actionRow, FindingsOf(t.reconciliations, a), t.actions[a]);
      SettlesNext(events[k].actionRow, FindingsOf(t.reconciliations, a), f, t.actions[a], u.actions[a]);
      assert FirstRecord(events + [e], a, k) && (events + [e])[k] == events[k];
    } else {
      KeptFits(events, e, t, u, b);
    }
  }

  lemma RecordedFits(events: seq<Event>, e: Event, t: Tables, u: Tables, a: string)
    requires ActionFits(events, t, a) && Records(e, a) && u.reconciliations == t.reconciliations
    requires u.actions == if a in t.actions then t.actions else t.actions[a := e.actionRow]
    ensures ActionFits(events + [e], u, a)
  {
    if a in t.actions {
      var k: nat :| FirstRecord(events, a, k)
        && Settles(events[k].actionRow, FindingsOf(t.reconciliations, a), t.actions[a]);
      assert FirstRecord(events + [e], a, k) && (events + [e])[k] == events[k];
    } else {
      assert FirstRecord(events + [e], a, |events|) && (events + [e])[|events|] == e;
    }
  }

  /** In every run, an action is there exactly if it was recorded, and it is the row first recorded for it, settled by
    * the findings about it: never again once settled, and by nothing else. */
  lemma {:induction false} ActionsFollowFindings(events: seq<Event>, a: string)
    ensures ActionFits(events, After(EMPTY, events), a)
  {
    if events != [] {
      var init, e := events[..|events| - 1], events[|events| - 1];
      assert events == init + [e];
      ActionsFollowFindings(init, a);
      var t, u := After(EMPTY, init), After(EMPTY, events);
      if e.EReconcile? {
        ReconcileActions(t, e.call, e.known, e.reconcile);
        if Reconcile(t, e.call, e.known, e.reconcile).1.Done? {
          ReconciledFits(init, e, t, u, e.reconcile.actionId, a, e.reconcile.finding);
        } else {
          KeptFits(init, e, t, u, a);
        }
      } else if Records(e, a) {
        RecordedFits(init, e, t, u, a);
      } else {
        if !e.ActionRecorded? {
          OthersKeepActions(t, e);
        }
        KeptFits(init, e, t, u, a);
      }
    }
  }

  // ---------------------------------------------------------------- what a reconciliation answers

  /** A reconciliation is let in: a known action of a known case, still ambiguous, with known evidence. */
  predicate Reconcilable(t: Tables, known: set<string>, r: ReconcileRequest) {
    && r.actionId in t.actions && t.actions[r.actionId].caseId in t.cases && t.actions[r.actionId].ambiguous
    && (r.evidence.Some? ==> r.evidence.value in known)
  }

  /** A confirmed effect reaches a case that is still ready. */
  predicate ReachesReadyCase(t: Tables, r: ReconcileRequest)
    requires r.actionId in t.actions && t.actions[r.actionId].caseId in t.cases
  {
    r.finding == EffectConfirmed && t.cases[t.actions[r.actionId].caseId].state == RequestReady
  }

  lemma SubmissionMoves(ctx: Context)
    ensures var o := ExecuteAction(ctx, false, true, Accepted);
            if ctx.recordable
            then o.Moved? && o.from == Some(RequestReady) && o.to == RequestSubmitted && o.id == T8
            else !o.Moved?
  {
    var facts := {AuthorityValid, IdempotencyKeyAssigned, BudgetAvailable, RecipeSignedAndFresh, ChannelPermitted};
    assert facts + When(false, HumanGateDetected) == facts;
    AppliesIff(RequestReady, RequestSubmitted, facts, T8);
  }

  /** A reconciliation commits exactly when it is let in, its audit row can be written where it has one, and the
    * action loads where it reaches a ready case; it is then that case, and no other, that is submitted, by T8. */
  lemma ReconcileDoneIff(t: Tables, call: Call, known: set<string>, r: ReconcileRequest)
    ensures var (u, answer) := Reconcile(t, call, known, r);
            && (answer.Done? <==>
                && Reconcilable(t, known, r)
                && (r.finding != EffectConfirmed ==> call.ctx.recordable && call.storable)
                && (ReachesReadyCase(t, r) ==> r.actionLoads && (call.ctx.recordable ==> call.storable)))
            && (answer.Done? ==>
                if ReachesReadyCase(t, r) && call.ctx.recordable then
                  answer.code == Some(T8) && u.cases == SetState(t, t.actions[r.actionId].caseId, RequestSubmitted).cases
                else answer.code.None? && u.cases == t.cases)
  {
    SubmissionMoves(call.ctx);
  }

  lemma ReconcileReason(t: Tables, call: Call, known: set<string>, r: ReconcileRequest)
    requires Reconcile(t, call, known, r).1.Denied?
    ensures match Reconcile(t, call, known, r).1.reason
            case NotFound => r.actionId !in t.actions || t.actions[r.actionId].caseId !in t.cases
            case NotAmbiguous => !t.actions[r.actionId].ambiguous
            case EvidenceNotFound => r.evidence.Some? && r.evidence.value !in known
            case _ => false
  {
    SubmissionMoves(call.ctx);
  }
}
