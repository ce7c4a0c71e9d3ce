# Proofs about VanishGraph

VanishGraph removes people's records from data brokers and keeps an auditable account of what it did. This
project models the parts of it whose correctness is not visible in any single function, and proves properties
of whole runs, of whole inputs and across components.

Each file is one module.

| files | subject |
|---|---|
| `TruthState`, `StateMachine`, `Reachability` | the closed table of 21 guarded transitions over 11 truth states, its evaluation, every run of it, and what can be reached with which facts |
| `Channels`, `Entities`, `Commands`, `CommandMoves` | channel selection, use-time assertions, and the eleven domain commands |
| `CaseTables`, `CaseDatabase`, `CaseHistory`, `CaseActors`, `CaseJourney`, `CaseGuards`, `CaseVerdicts`, `CaseActions`, `AuditSink`, `AuditRows` | the persisted side: handlers that write case, gate, response, action, observation and audit rows inside one transaction |
| `Idempotency`, `ReplayLog` | two protocols over a shared store |
| `KeyProvider`, `KeyLifecycle` | wrap, rotate, shred, hmac and unwrap over the key maps |
| `GraphValidator`, `StageCheck`, `HashLedger` | the dependency-graph checks and the hash-chain walk |
| `CommentStrip`, `LineAnalysis`, `RouteTree`, `RouteForest` | text machines: comment strippers, brace depth, the route-tree parser |
| `Wilson` | the confidence interval of the effectiveness figure |
| `EgressGate`, `EgressVerdict`, `MetricsRegistry`, `MetricVerdicts`, `StructuredLogger`, `LogRecords` | gates with counters, indexes and logs |
| `Text`, `Wrappers` | string operations of the runtime, optional values |

How the source's forms are rendered: an object that updates its fields is a class whose methods are proved equal
to specification functions, and the lemmas are about those functions and about sequences of calls. A thrown error
rolls the transaction back; a returned refusal commits what was already written. Callers of the idempotency store
are interleaved step by step.

## Where the code and its documentation differ, or the code is right on a condition

The model follows the code. Each of these is a lemma.

- `recordControllerResponse` emits `NotRemovable` on a refusal, an event its list does not name
  (`Commands.EventsAreListedIff`).
- No command owns T2, besides the documented gap T21 (`Commands.UnownedTransitions`); `prepareRequest` can never
  apply T15 (`Commands.PrepareAppliesExactly`).
- OBSERVABILITY.md lists SEARCH_DELISTED with the states that never count as progress; its flag says otherwise, and is
  set exactly for what lies between an external action and its outcome (`Reachability.FlagsAreExact`).
- A reappearance appends a transition row that names the exposure's newest case, but moves only the exposure, so
  the newest row that names a case may end in another state than the case
  (`CaseHistory.NewestRowAgreesIff`, `CaseJourney.ReappearanceLeavesTheCaseBehind`).
- A case at HUMAN_REQUIRED is final and still counts as live, so its subject, source and exposure can never have
  a new case (`CaseHistory.HumanRequiredBlocksForever`).
- The guards reported beside a successful update are not the ones that gated it (`CaseGuards.ReadyReports`), and a
  dry run promises a submission for a case that is not ready (`CaseGuards.DryRunAgainstReal`).
- A verification is promised to be made by another identity than the one that acted, along another path. The
  identity recorded as acting is the service's own in every row, so the test refuses that one name and cannot tell
  any other observers apart, and both paths are the caller's (`CaseActors.IndependenceTestIff`,
  `CaseActors.ObserversAreInterchangeable`).
- The logger accepts NaN and the infinities as values; printed, they are `null`, so a record it accepted is reported
  by `scanLogStream` if a field it must carry holds one (`StructuredLogger.ValidateIsBlind`,
  `StructuredLogger.LoggedStreamScansClean`).
- A stored response is replayed as written only if its fields are free of the separator and of line breaks and it
  carries the fingerprint of the claim (`Idempotency.ReplayIsVerbatimIff`).
- `scanLogStream` promises a violation for a line that is no record, but throws on a line that is `null`
  (`StructuredLogger.ScanLogStream`).
- `encrypt` accepts an empty plaintext, and `unwrap` calls its ciphertext truncated under every key
  (`KeyProvider.OpensIff`, `KeyProvider.EmptyPlaintextIsLost`).
- `hmac` can put key material back under a shredded version 1 (`KeyProvider.HmacRevivesIff`,
  `KeyProvider.ShreddedVersionOneComesBack`).
- A replayed event is answered with the default although another response is stored and live exactly when its latest
  live record is a claim, and such a claim is stamped later than now (`ReplayLog.ReplayAnswersIff`, `ReplayLog.HidingClaimIsLate`,
  `ReplayLog.BackwardClockHidesTheCompletion`).
- A label value in which a comma is followed by what reads as a later label makes the registry confuse two series;
  this happens to no other label set (`MetricsRegistry.SharesKeyIff`, `MetricsRegistry.UnsafeIsMisread`).
- Rounding half a unit away from zero, both the ratio of a figure and that of its complement go up where they are
  halfway between two published values, and then do not add up to 1; only there (`Wilson.PublishedRatiosAddUpIff`,
  `Wilson.PublishedRatiosOfATie`, `Wilson.PublishedMirrorIff`).
- The tree parser accumulates paths right exactly for forests without a line that lacks methods above one that has
  them, and without a nested segment that starts with the API root (`RouteForest.ReadBackIff`,
  `RouteForest.BareParentMisfilesItsChild`); the printed form its comment shows has neither.

## Model

| member | source | states |
|---|---|---|
| `TruthState.IndependenceFlagIsExact` | vanishgraph/src/domain/truth-state.ts:61-153 | the states flagged as needing an independent observation are exactly those no transition can enter without one |
| `StateMachine.LookupIsTheTable` | vanishgraph/src/domain/state-machine.ts:42-58 | both lookups find exactly the rows of the legal table |
| `StateMachine.AppliesIff` | vanishgraph/src/domain/state-machine.ts:65-91 | a transition is applied exactly when its row exists and its guard holds; the forbidden list never hides a legal row |
| `StateMachine.InitialAppliesIff` | vanishgraph/src/domain/state-machine.ts:100-109 | a creation is applied exactly when it is an initial row whose guard holds |
| `StateMachine.AvailableIsExact` | vanishgraph/src/domain/state-machine.ts:112-117 | the offered transitions are exactly those that would be applied now |
| `StateMachine.EveryRefusalIsDiagnosed` | vanishgraph/src/domain/state-machine.ts:65-109 | for every pair and fact set which refusal is given: the row with the failed guard, a missing independent observation first on the way to VERIFIED_REMOVED, and no transition exactly when the table has no row |
| `StateMachine.ForbiddenIff` | vanishgraph/src/domain/truth-state.ts:314-356 | whatever the facts, each of the six shortcuts and no other pair is forbidden for its reason, the table has no such row, and every other missing pair is no transition |
| `StateMachine.PlayIsLinked` | vanishgraph/src/domain/state-machine.ts:65-109 | whatever is attempted, the applied transitions form one linked history that ends in the current state |
| `StateMachine.Conservation` | vanishgraph/src/domain/truth-state.ts:254-312 | in every linked run a state is entered once more than it is left exactly while it is current |
| `StateMachine.FlowInequalities` | vanishgraph/src/domain/truth-state.ts:254-312 | in every run #T14 <= #T11 <= #T8 <= #T5+#T18, #T18 <= #T17+#T20, #T20 <= #T21, at most one match, and #T14-#T17 is 1 exactly while VERIFIED_REMOVED is current |
| `StateMachine.RunLength` | vanishgraph/src/domain/truth-state.ts:254-312 | a run has at most 6 + 5 (#T17 + #T20) transitions, with what is left bounded by the rank of its state |
| `StateMachine.RunLengthIsTight` | vanishgraph/src/domain/truth-state.ts:254-312 | for every n some run reappears n times and has exactly 6 + 5n transitions |
| `StateMachine.AbsorbingIff` | vanishgraph/src/domain/invariants.ts:107-121 | NOT_REMOVABLE, HUMAN_REQUIRED and VERIFIED_NOT_PRESENT are exactly the states nothing leaves, and each is flagged terminal for now |
| `StateMachine.AbsorbedForever` | vanishgraph/src/domain/truth-state.ts:254-312 | no sequence of attempts moves an exposure out of an absorbing state |
| `StateMachine.RemovalIsEarned` | vanishgraph/src/domain/truth-state.ts:254-312 | every verified removal in a run directly follows its acknowledgement, its submission and its preparation |
| `StateMachine.BetweenRemovals` | vanishgraph/src/domain/truth-state.ts:254-312 | two verified removals lie a multiple of five transitions apart, with T17, T18, T8, T11 in between |
| `Reachability.ReachableIff` | vanishgraph/src/domain/truth-state.ts:197-312 | for every set of facts, exactly which states any sequence of attempts can reach when no other fact is ever established |
| `Reachability.HappyPathIsMinimal` | vanishgraph/src/domain/state-machine.ts:171-191 | the facts named for the happy path suffice for a verified removal, none of them can be spared, and they lead to no state off that path |
| `Reachability.FlagsAreExact` | vanishgraph/src/domain/truth-state.ts:61-153 | every other flag of a state is what the table makes of it: removal, delisting, outcome, terminal for now and never progress are each equivalent to what every way there establishes and what leaves it; so is the class the metrics use |
| `Channels.SelectionIsJustified` | vanishgraph/src/domain/values.ts:307-341 | a selected channel is available and none available has a higher priority; exactly the rejected ones carry a recorded reason; nothing is selected exactly when an option is malformed or none is available |
| `Commands.TransitionIsOneRow` | vanishgraph/src/domain/commands.ts:203-224 | the shared transition helper throws or applies exactly one table row with its guard satisfied |
| `Commands.MovesAreTableRows` | vanishgraph/src/domain/commands.ts:307-843 | every command that moves a case applies one table row from the given state to one of its own targets, with the guard satisfied |
| `Commands.VerificationDecides` | vanishgraph/src/domain/commands.ts:724-783 | from ACKNOWLEDGED, verification moves exactly when the four conditions of T14 hold and refuses otherwise; once its event can be recorded, the state machine never makes it throw |
| `Commands.OnlyVerificationRemoves` | vanishgraph/src/domain/commands.ts:724-783 | only recordVerification can produce VERIFIED_REMOVED, and only on an independent, timely, negative observation by the recipe's method |
| `Commands.ReadyIff` | vanishgraph/src/domain/commands.ts:482-559 | a request becomes ready exactly when authority, recipe and policy are usable now, no gate was detected, a writable channel was selected and the case was confirmed or has reappeared |
| `Commands.ReadyChannelIsJustified` | vanishgraph/src/domain/commands.ts:482-559 | then every considered channel of higher priority is recorded as unavailable with a non-blank reason |
| `Commands.PrepareAppliesExactly` | vanishgraph/src/domain/commands.ts:514-547 | prepareRequest can apply exactly ten of the transitions, T15 not among them |
| `Commands.UnownedTransitions` | vanishgraph/src/domain/commands.ts:258-843 | every transition can be applied by some command except T2 and T21 |
| `Commands.EventsAreListedIff` | vanishgraph/src/domain/commands.ts:87-100 | a command emits only its listed events unless it is a refused controller response that moved the case |
| `CommandMoves.SourceRecordIff` | vanishgraph/src/domain/commands.ts:307-340 | a source record starts an exposure exactly over a permitted read path |
| `CommandMoves.AssessIff` | vanishgraph/src/domain/commands.ts:356-389 | a candidate is confirmed exactly on a recorded basis with a confidence at the threshold or a human approval, dismissed exactly on a recorded disproof, and otherwise the command throws; and which event it emits |
| `CommandMoves.ExecuteIff` | vanishgraph/src/domain/commands.ts:581-657 | a used key throws, a spent budget is a refusal that moves nothing, a human gate hands the case over and anything else submits it; an ambiguous result is announced |
| `CommandMoves.ResponseIff` | vanishgraph/src/domain/commands.ts:660-709 | from which states a response of each outcome moves a case, where to and with which events; from every other it throws |
| `CommandMoves.ReappearanceIff` | vanishgraph/src/domain/commands.ts:785-812 | only a record present again brings back an exposure, and only a removed or delisted one |
| `CommandMoves.HumanGateIff` | vanishgraph/src/domain/commands.ts:814-843 | a gate stops exactly the four states that have a transition to HUMAN_REQUIRED |
| `CommandMoves.PreparationAnnounces` | vanishgraph/src/domain/commands.ts:482-559 | the event of a preparation is that of the state it moved to |
| `CommandMoves.RecordingIff` | vanishgraph/src/domain/commands.ts:258-453 | when registering a subject, attaching an alias and resolving a policy record their event |
| `CommandMoves.ErrorsAreDiagnosed` | vanishgraph/src/domain/commands.ts:258-512 | an expired authority, an unusable recipe and a policy not in force are blamed exactly when they are at fault, in that order and before the table is asked |
| `CaseDatabase.Database.MoveCase` | vanishgraph/src/adapters/persistence/cases.ts:860-876 | the state update and its single audit row are written together or everything is rolled back |
| `CaseDatabase.Database.CreateCase` | vanishgraph/src/adapters/persistence/cases.ts:650-780 | refuses in the documented order, else inserts the case at its exposure's state, binds the decision and appends a creation row |
| `CaseDatabase.Database.GuardedUpdate` | vanishgraph/src/adapters/persistence/cases.ts:782-884 | refuses in the documented order, else moves the case to the requested state |
| `CaseDatabase.Database.RecordHumanGate` | vanishgraph/src/adapters/persistence/cases.ts:886-980 | keeps the gate row when the machine refuses the transition, loses it when something throws |
| `CaseDatabase.Database.AllKnown` | vanishgraph/src/adapters/persistence/cases.ts:798-800 | an update is refused exactly when one of its cited artifacts does not exist |
| `CaseDatabase.Database.RecordResponse` | vanishgraph/src/adapters/persistence/controller-responses.ts:38-168 | keeps the response row when the transition is refused, else moves the case from whatever state it is in |
| `CaseDatabase.Database.Reconcile` | vanishgraph/src/adapters/persistence/actions.ts:611-813 | settles the action by its finding as the `CaseActions` rows say, and submits the case only if it is still ready |
| `CaseDatabase.Database.RecordObservation` | vanishgraph/src/adapters/persistence/observations.ts:321-490 | judges independence and the window against the recorded submission, stores the observation, and moves the case or records the failure |
| `CaseDatabase.Database.RecordReappearance` | vanishgraph/src/adapters/persistence/observations.ts:495-629 | moves the exposure and writes a row that names its newest case |
| `CaseHistory.Classify` | vanishgraph/src/adapters/persistence/cases.ts:650-980 | every transaction leaves the cases alone, opens one, advances one by a table row, or resurfaces an exposure, with at most one audit row |
| `CaseHistory.LogRebuildsCases` | vanishgraph/src/adapters/persistence/audit-sink.ts:223-331 | in every run the case table equals the replay of the audit log, and each row is a legal transition from where the log had left its case |
| `CaseHistory.OneRowPerChange` | vanishgraph/src/adapters/persistence/audit-sink.ts:123-140 | no case is created or changes state without exactly one audit row that says so, and no row speaks for an unchanged case |
| `CaseHistory.AnswersAreHonest` | vanishgraph/src/adapters/persistence/cases.ts:826-980 | a thrown request leaves no trace, a refused one at most the row of its report, and an answer naming a transition is backed by the newest audit row |
| `CaseHistory.EveryRunIsSafe` | vanishgraph/src/adapters/persistence/cases.ts:650-980 | from an empty database: no shared policy decision, one open case per subject, source and exposure, and no unearned verified removal |
| `CaseHistory.FinalForever` | vanishgraph/src/adapters/persistence/cases.ts:782-980 | a closed or human-required case is never changed again |
| `CaseHistory.HumanRequiredBlocksForever` | vanishgraph/src/adapters/persistence/cases.ts:692-707 | once a case is at HUMAN_REQUIRED every later creation for its subject, source and exposure is refused |
| `CaseHistory.StaleRequestsAreRefused` | vanishgraph/src/adapters/persistence/cases.ts:785-792 | once a case has changed, every request against its earlier version is refused and writes nothing, however much happens in between |
| `CaseHistory.NewestRowAgreesIff` | vanishgraph/src/adapters/persistence/observations.ts:596-611 | the newest row that names a case ends in the case's state exactly unless it is a reappearance of another state |
| `CaseActors.RunHasOneActor` | vanishgraph/src/domain/commands.ts:135-160 | in every run of the handlers each audit row is in the service's own name |
| `CaseActors.IndependenceTestIff` | vanishgraph/src/adapters/persistence/observations.ts:345-357 | in every run a verification that gets that far is refused as not independent exactly when there is no recorded submission, the request names one path twice, or it is made in the service's name |
| `CaseActors.ObserversAreInterchangeable` | vanishgraph/src/adapters/persistence/observations.ts:345-490 | with any other name and any other acting path a verification gets the same answer and leaves the same cases and log |
| `CaseActors.RemovalIsReportedByAnother` | vanishgraph/src/adapters/persistence/observations.ts:321-490 | a verified removal rests on an observation of absence under another name than the service's, unless its case was opened with one |
| `CaseJourney.RemovalIsReachable` | vanishgraph/src/adapters/persistence/observations.ts:321-490 | the handlers can carry a case from creation to a verified removal |
| `CaseJourney.ReappearanceLeavesTheCaseBehind` | vanishgraph/src/adapters/persistence/observations.ts:495-629 | a whole run after which the newest row of a case says REAPPEARED and the case VERIFIED_REMOVED |
| `CaseGuards.UpdateSucceedsIff` | vanishgraph/src/adapters/persistence/cases.ts:782-884 | a guarded update succeeds exactly on the current version, with known evidence, a verified signature, usable rows, the target the rows justify and a state that target can be reached from |
| `CaseVerdicts.CreateDoneIff` | vanishgraph/src/adapters/persistence/cases.ts:650-780 | a case is opened exactly for a confirmed exposure of the same subject and source, under a covering grant, with an unused decision and an enabled recipe of that source, while no case for them is open; the row it opens and the decision it takes |
| `CaseVerdicts.CreateReason` | vanishgraph/src/adapters/persistence/cases.ts:650-707 | the reason a creation is refused for holds of the request |
| `CaseVerdicts.UpdateReason` | vanishgraph/src/adapters/persistence/cases.ts:782-884 | so for an update; it is an illegal transition only if the table has no row to the target the stored rows justify |
| `CaseVerdicts.GateDoneIff` | vanishgraph/src/adapters/persistence/cases.ts:886-980 | a gate moves its case exactly when admitted, with rows usable now, from a state a gate can stop; the case then waits for a human |
| `CaseVerdicts.GateReason` | vanishgraph/src/adapters/persistence/cases.ts:886-980 | the reason a gate is refused for holds of it |
| `CaseVerdicts.ResponseDoneIff` | vanishgraph/src/adapters/persistence/controller-responses.ts:38-168 | a refusal or a timeout ends the removal, a demand hands the case to a human and anything else acknowledges it, exactly from the states that allow it; the response is kept whenever it is admitted and nothing is thrown |
| `CaseVerdicts.ResponseReason` | vanishgraph/src/adapters/persistence/controller-responses.ts:38-168 | the reason a response is refused for holds of it; a human step is required only for a demand no gate can answer |
| `CaseVerdicts.SubmissionRowIs` | vanishgraph/src/adapters/persistence/observations.ts:685-692 | the submission judged against is the latest T8 row of the case by time, then by row |
| `CaseVerdicts.VerifyDoneIff` | vanishgraph/src/adapters/persistence/observations.ts:321-490 | an observation is recorded exactly of an acknowledged case, by another name and path than the latest submission, by the recipe's method and, for an absence, after the whole window; an absence removes the case and nothing else moves it |
| `CaseVerdicts.VerifyReason` | vanishgraph/src/adapters/persistence/observations.ts:321-400 | the reason an observation is refused for holds of it |
| `CaseVerdicts.NewestCaseIs` | vanishgraph/src/adapters/persistence/observations.ts:504-506 | the case named beside a reappearance is the last one opened for the exposure |
| `CaseVerdicts.ReappearDoneIff` | vanishgraph/src/adapters/persistence/observations.ts:495-629 | a reappearance is recorded exactly for a removed or delisted exposure at its version, with the row that established this and known evidence; the exposure moves, its case does not, and what the row says |
| `CaseVerdicts.ReappearReason` | vanishgraph/src/adapters/persistence/observations.ts:495-629 | the reason a reappearance is refused for holds of it |
| `CaseGuards.ReadyReports` | vanishgraph/src/adapters/persistence/cases.ts:992-1061 | when exactly the guards reported with a ready case are true |
| `CaseGuards.DryRunAgainstReal` | vanishgraph/src/adapters/persistence/actions.ts:540-609 | a dry run promises a submission exactly when the same real request, of a ready case, lacks only a transport |
| `CaseGuards.DryRunPromisesIff` | vanishgraph/src/adapters/persistence/actions.ts:473-609 | when exactly a dry run answers, and when it promises a submission |
| `CaseGuards.ActionReasonHolds` | vanishgraph/src/adapters/persistence/actions.ts:473-609 | the reason a request to execute is denied for holds of it; only one that lacks nothing else lacks a transport |
| `CaseActions.ActionsFollowFindings` | vanishgraph/src/adapters/persistence/actions.ts:611-813 | in every run an action is the row first recorded for it, settled by the findings written about it: only an ambiguous one is reconciled, an indeterminate finding leaves it as it was, the one that settles it is the last, SUBMITTED for a confirmed effect and FAILED for an absent one, and nothing else changes it |
| `CaseActions.ReconcileDoneIff` | vanishgraph/src/adapters/persistence/actions.ts:611-813 | when exactly a reconciliation commits, and when it submits the case, by T8 |
| `CaseActions.ReconcileReason` | vanishgraph/src/adapters/persistence/actions.ts:611-642 | the reason a reconciliation is refused for holds of it |
| `AuditSink.CanonicalKeepsTheDigits` | vanishgraph/src/adapters/persistence/audit-sink.ts:68-93 | both spellings of an identifier canonicalise to a UUID with the same 128 bits; canonical forms are fixed |
| `AuditRows.CanonicalIsTheSameNumber` | vanishgraph/src/adapters/persistence/audit-sink.ts:68-93 | a correlation id is storable exactly in two shapes, given digit by digit; a dashed one is stored as it is and the other as the dashed lower-case identifier of the same number |
| `AuditSink.CodeShapeIsTheTable` | vanishgraph/src/adapters/persistence/audit-sink.ts:158-159 | the code pattern accepts exactly the codes of the 21 rows |
| `AuditSink.AcceptedRowsPassTheChecks` | vanishgraph/src/adapters/persistence/audit-sink.ts:206-290 | no row the sink accepts is one the table's checks would refuse |
| `AuditRows.BatchFitsIff` | vanishgraph/src/adapters/persistence/audit-sink.ts:192-290 | a batch is appended exactly when its ids have the shape of their columns, its payloads are scalars and a transition is the one row of a known code between known states |
| `AuditRows.StoredRowSays` | vanishgraph/src/adapters/persistence/audit-sink.ts:275-322 | the stored row says what the event, the request and the transition say, with the two defaults and no empty evidence list |
| `AuditSink.AuditLog.AppendAuditEvents` | vanishgraph/src/adapters/persistence/audit-sink.ts:206-331 | succeeds exactly on well-formed batches, appends one row per event in order with consecutive ids, and a refused transition appends nothing |
| `Idempotency.ReadRecognisesState` | vanishgraph/src/adapters/idempotency/postgres-store.ts:106-146 | reading a stored row never takes the corrupt-row branch |
| `Idempotency.ReplayIsVerbatimIff` | vanishgraph/src/adapters/idempotency/postgres-store.ts:106-146 | a completed response is replayed as written exactly when its fields are free of separators and line breaks and its fingerprint is the claim's |
| `Idempotency.Store.Begin` | vanishgraph/src/adapters/idempotency/postgres-store.ts:148-187 | begin is an insert-if-absent followed by a read, and answers by the decision of both |
| `Idempotency.Store.Complete` | vanishgraph/src/adapters/idempotency/postgres-store.ts:189-206 | completes the row of the scope, if there is one |
| `Idempotency.Store.Abandon` | vanishgraph/src/adapters/idempotency/postgres-store.ts:208-221 | removes the row of the scope only while it is in flight; what that frees is said by `Idempotency.RetryAfterAbandonIsNew` |
| `Idempotency.RunKeepsInv` | vanishgraph/src/adapters/idempotency/postgres-store.ts:148-221 | the protocol invariant holds under every interleaving of any number of callers |
| `Idempotency.AtMostOneHolder` | vanishgraph/src/adapters/idempotency/postgres-store.ts:148-187 | under every interleaving a scope has at most one caller that holds NEW or has completed |
| `Idempotency.OutcomeIsDecision` | vanishgraph/src/adapters/idempotency/postgres-store.ts:182-187 | the phase a caller of the stepped protocol ends in is the decision `begin` takes from the row it reads and from whether its insert claimed it |
| `Idempotency.ReadAnswersDecision` | vanishgraph/src/adapters/idempotency/postgres-store.ts:148-187 | in any state of the system, whoever stepped in since the insert, a caller is answered by that decision on the table at its read |
| `Idempotency.AnswersAreEarned` | vanishgraph/src/adapters/idempotency/postgres-store.ts:148-221 | every replayed response comes from the row one other caller finished, and every caller told IN_FLIGHT shares its scope with one that had the claim |
| `Idempotency.CompletedIsFinal` | vanishgraph/src/adapters/idempotency/postgres-store.ts:148-221 | once a scope is completed its row never changes, nobody is told NEW for it again, and every later answer is that row |
| `Idempotency.RowIffStander` | vanishgraph/src/adapters/idempotency/postgres-store.ts:148-221 | in every run a scope has a row exactly while some caller stands for it, as the holder of the claim or as the one that completed it |
| `Idempotency.ClaimIffFree` | vanishgraph/src/adapters/idempotency/postgres-store.ts:148-187 | an insert claims its scope exactly when nobody stands for it |
| `Idempotency.ClaimIsAnsweredNew` | vanishgraph/src/adapters/idempotency/postgres-store.ts:182-187 | a caller whose insert claimed the scope is told NEW, whoever steps in before its read |
| `Idempotency.AbandonFrees` | vanishgraph/src/adapters/idempotency/postgres-store.ts:208-221 | after the holder abandons, the scope has no row |
| `Idempotency.RetryAfterAbandonIsNew` | vanishgraph/src/adapters/idempotency/postgres-store.ts:208-221 | so the next insert for it claims it and its read is answered NEW |
| `KeyProvider.AssociatedDataIsInjective` | vanishgraph/src/adapters/crypto/local-key-provider.ts:36-38 | associated data identifies tenant and version |
| `KeyProvider.LocalFileKeyProvider.Wrap` | vanishgraph/src/adapters/crypto/local-key-provider.ts:86-125 | creates material when there is none and the version is not shredded, else re-wraps what is there |
| `KeyProvider.LocalFileKeyProvider.Rotate` | vanishgraph/src/adapters/crypto/local-key-provider.ts:211-221 | wraps the version after the active one and activates it |
| `KeyProvider.LocalFileKeyProvider.Shred` | vanishgraph/src/adapters/crypto/local-key-provider.ts:223-239 | removes the material of one version and remembers that it was shredded |
| `KeyProvider.LocalFileKeyProvider.Hmac` | vanishgraph/src/adapters/crypto/local-key-provider.ts:246-257 | uses the active version, or makes version 1 |
| `KeyProvider.RunKeepsInv` | vanishgraph/src/adapters/crypto/local-key-provider.ts:86-257 | the key invariant holds in every run with fresh keys |
| `KeyProvider.LocalFileKeyProvider.Unwrap` | vanishgraph/src/adapters/crypto/local-key-provider.ts:185-209 | answers the plaintext, or throws for a missing key, a ciphertext of at most 28 bytes, or a failed authentication, in that order |
| `KeyProvider.OpensIff` | vanishgraph/src/adapters/crypto/local-key-provider.ts:163-209 | after any run a kept ciphertext opens to its plaintext exactly under the tenant and version it was made for, while that version has not been shredded since, unless the plaintext is empty; an empty one is always called truncated while its key lives |
| `KeyProvider.EmptyPlaintextIsLost` | vanishgraph/src/adapters/crypto/local-key-provider.ts:192-194 | an empty plaintext is sealed under any active version and never opens, whatever happens later; any other opens at once |
| `KeyProvider.ActiveVersionsEncrypt` | vanishgraph/src/adapters/crypto/local-key-provider.ts:163-175 | after any run, encrypting under a tenant's active version succeeds |
| `KeyProvider.DigestsSeparateTenants` | vanishgraph/src/adapters/crypto/local-key-provider.ts:246-257 | after any run, digests made for different tenants differ, even of the same value |
| `KeyProvider.ShreddedStaysDead` | vanishgraph/src/adapters/crypto/local-key-provider.ts:223-239 | after any run a shredded version other than 1 has no material and is not active, and no next call changes that |
| `KeyProvider.HmacRevivesIff` | vanishgraph/src/adapters/crypto/local-key-provider.ts:246-257 | hmac draws material for a shredded version exactly when the tenant has no active version, version 1 is shredded and it holds nothing |
| `KeyProvider.ShreddedVersionOneComesBack` | vanishgraph/src/adapters/crypto/local-key-provider.ts:246-257 | a run in which shredded version 1 has material again |
| `KeyProvider.RotateIsFreshIff` | vanishgraph/src/adapters/crypto/local-key-provider.ts:211-221 | a rotation draws a fresh key exactly when the next version holds nothing and is not shredded; with no active version the next one is 1 again |
| `KeyLifecycle.ActiveIff` | vanishgraph/src/adapters/crypto/local-key-provider.ts:86-239 | after any calls a version is active exactly if some call made it so and no later call made another one active or shredded it |
| `KeyLifecycle.MaterialIff` | vanishgraph/src/adapters/crypto/local-key-provider.ts:86-257 | after any calls a version has material exactly if some call needed it and no later call shredded it |
| `KeyLifecycle.KeyStays` | vanishgraph/src/adapters/crypto/local-key-provider.ts:86-257 | while no call shreds it, a version keeps the key it has |
| `KeyLifecycle.ShreddedIff` | vanishgraph/src/adapters/crypto/local-key-provider.ts:223-239 | a version is on the shredded list exactly if a call shredded it |
| `KeyLifecycle.RotatedIs` | vanishgraph/src/adapters/crypto/local-key-provider.ts:211-221 | the rotated list holds the version each rotation found active, in order |
| `KeyLifecycle.RotateIsSuccessor` | vanishgraph/src/adapters/crypto/local-key-provider.ts:211-221 | a rotation activates the successor of the active version, or version 1, unless that one is shredded and empty, and then activates nothing |
| `KeyLifecycle.DigestIsKeyed` | vanishgraph/src/adapters/crypto/local-key-provider.ts:246-257 | a digest is made with the key of the active version, or of version 1 if none is active |
| `KeyLifecycle.ReadingFails` | vanishgraph/src/adapters/crypto/local-key-provider.ts:185-209 | after any calls there is no key to read with exactly if no call supplied the version since it was last shredded; bytes nobody sealed never open |
| `GraphValidator.Validator.Dfs` | vanishgraph/scripts/validate-generated-pack.py:87-93 | terminates, reports only nodes on a cycle, and without a report extends a topological order by the visited nodes |
| `GraphValidator.Validator.DetectCycles` | vanishgraph/scripts/validate-generated-pack.py:86-94 | reports cycles only where there are, and with no report leaves a topological order of the whole table |
| `GraphValidator.Validate` | vanishgraph/scripts/validate-generated-pack.py:73-94 | reports a cycle exactly when a directed cycle exists, and nothing exactly when the rows can be rearranged so that the forward scan accepts them |
| `GraphValidator.OnePass` | GRAPHLOCK_v3_1_FAILURE_PROOF/archive_original_v3/validate_graphlock_v3.py:168-173 | reports exactly the dependencies that no earlier row names |
| `GraphValidator.EarlierOnlyIsAcyclic` | GRAPHLOCK_v3_1_FAILURE_PROOF/archive_original_v3/validate_graphlock_v3.py:168-173 | rows with distinct ids that the forward scan accepts have no missing dependency and no cycle |
| `GraphValidator.TopologicalOrderPassesScan` | vanishgraph/scripts/validate-generated-pack.py:86-94 | the order in which a quiet search finishes nodes is a rearrangement the forward scan accepts |
| `GraphValidator.ScanImpliesValidIff` | GRAPHLOCK_v3_1_FAILURE_PROOF/archive_original_v3/validate_graphlock_v3.py:168-173 | the scan by itself leaves no missing dependency; its rows validate exactly when their ids are distinct, and only a repeated id leaves room for a cycle |
| `StageCheck.CheckStages` | GRAPHLOCK_v3_1_FAILURE_PROOF/archive_original_v3/validate_graphlock_v3.py:164-173 | the id check and the scan together: when both are quiet, the depth-first validation is quiet about the same rows too |
| `StageCheck.StagesAreSound` | GRAPHLOCK_v3_1_FAILURE_PROOF/archive_original_v3/validate_graphlock_v3.py:164-173 | stages V-000 to V-021 in order that the scan accepts have distinct ids, no missing dependency and no cycle |
| `StageCheck.RepeatedIdFoolsTheScan` | GRAPHLOCK_v3_1_FAILURE_PROOF/archive_original_v3/validate_graphlock_v3.py:164-173 | why the id check has to enclose the scan: rows the scan accepts and only the id check refuses, with a cycle |
| `HashLedger.Validate` | GRAPHLOCK_v3_1_FAILURE_PROOF/scripts/validate-hash-ledger.py:11-29 | accepts exactly the well-chained ledgers and otherwise names the first line that breaks the chain |
| `HashLedger.AcceptedIff` | GRAPHLOCK_v3_1_FAILURE_PROOF/scripts/validate-hash-ledger.py:13-28 | a ledger is accepted exactly when every entry has the eight keys, the digest of itself and the hash of the entry before it |
| `HashLedger.CheckBlames` | GRAPHLOCK_v3_1_FAILURE_PROOF/scripts/validate-hash-ledger.py:13-28 | the line blamed fails what it is blamed for and passes what is checked before |
| `HashLedger.LastHashDeterminesLedger` | GRAPHLOCK_v3_1_FAILURE_PROOF/scripts/validate-hash-ledger.py:20-28 | two accepted ledgers that end in the same hash are identical, entry by entry |
| `HashLedger.PrefixIsAccepted` | GRAPHLOCK_v3_1_FAILURE_PROOF/scripts/validate-hash-ledger.py:11-28 | every prefix of an accepted ledger is accepted |
| `HashLedger.TamperingIsRefused` | GRAPHLOCK_v3_1_FAILURE_PROOF/scripts/validate-hash-ledger.py:20-28 | an edit that keeps the last entry of an accepted ledger is refused |
| `ReplayLog.LivesAt` | vanishgraph/src/adapters/coordination/replay-store.ts:68-74 | the backward loop finds the newest live record under a key |
| `ReplayLog.FileReplayStore.Begin` | vanishgraph/src/adapters/coordination/replay-store.ts:53-103 | asks the nonce before the event and appends both claims exactly when it answers NEW |
| `ReplayLog.FileReplayStore.Complete` | vanishgraph/src/adapters/coordination/replay-store.ts:105-127 | appends the stored response under the event |
| `ReplayLog.KeysAreInjective` | vanishgraph/src/adapters/coordination/replay-store.ts:75-76 | with providers free of NUL, keys of one kind identify what they were made from, and a nonce key is an event key exactly when the nonce is `event`, NUL and the event id |
| `ReplayLog.DecisionsFollowHistory` | vanishgraph/src/adapters/coordination/replay-store.ts:53-103 | for any clock, each decision is determined by the live NEW deliveries and completions of the same provider, nonce and event |
| `ReplayLog.NeverNewTwice` | vanishgraph/src/adapters/coordination/replay-store.ts:92-96 | two deliveries told NEW that share a nonce or an event are at least the retention window apart |
| `ReplayLog.ScanIsLookup` | vanishgraph/src/adapters/coordination/replay-store.ts:68-74 | for any clock, the newest-first scan equals lookup in the map of latest live records |
| `ReplayLog.DecisionsAgree` | vanishgraph/src/adapters/coordination/replay-store.ts:53-127 | with a clock that never goes back, a store with one record per key makes the same decisions as the log |
| `ReplayLog.NewestIsLatestTouch` | vanishgraph/src/adapters/coordination/replay-store.ts:53-127 | for any clock, the newest live record of an event is the one written by the latest live completion or NEW delivery of it |
| `ReplayLog.ReplayAnswersIff` | vanishgraph/src/adapters/coordination/replay-store.ts:80-90 | for any clock, an event replay answers with the latest live completion, else the default, exactly when the latest live touch of the event is not a claim, or no completion is live, or it stored the default |
| `ReplayLog.HidingClaimIsLate` | vanishgraph/src/adapters/coordination/replay-store.ts:63-90 | a claim hides a live completion only if it is stamped a whole window after it, and so later than now |
| `ReplayLog.ReplayAnswers` | vanishgraph/src/adapters/coordination/replay-store.ts:80-90 | the answer is right whenever no delivery of the event was told NEW at a later time |
| `ReplayLog.ForwardClockHasNoLaterClaim` | vanishgraph/src/adapters/coordination/replay-store.ts:53-103 | a clock that never goes back is enough for that |
| `ReplayLog.BackwardClockHidesTheCompletion` | vanishgraph/src/adapters/coordination/replay-store.ts:63-90 | a run of a delivery, its completion and a redelivery after which a stepped-back clock is told the default although the stored answer is live |
| `Wilson.IntervalInvertsTheTest` | vanishgraph/src/adapters/persistence/coverage.ts:52-68 | the interval is exactly the set of proportions the score test accepts |
| `Wilson.BoundsAreOrdered` | vanishgraph/src/adapters/persistence/coverage.ts:52-68 | 0 <= low <= n/d <= high <= 1, with 0 reached at n = 0 and 1 at n = d; the clamps never change a bound |
| `Wilson.MirrorImage` | vanishgraph/src/adapters/persistence/coverage.ts:52-68 | the interval of the complement is the mirror image |
| `Wilson.MoreRemovalsRaiseTheLowerBound` | vanishgraph/src/adapters/persistence/coverage.ts:52-68 | more removals out of as many never lower the lower bound |
| `Wilson.MoreRemovalsRaiseTheUpperBound` | vanishgraph/src/adapters/persistence/coverage.ts:52-68 | nor the upper bound |
| `Wilson.RoundIsNear` | vanishgraph/src/adapters/persistence/coverage.ts:41-43 | rounding moves a number by at most half a unit of the fourth decimal and keeps 0 and 1 |
| `Wilson.PublishedInterval` | vanishgraph/src/adapters/persistence/coverage.ts:41-82 | the order survives rounding: the published interval, whose bounds the next rows place, encloses the published ratio within [0, 1] |
| `Wilson.ExactIsExtreme` | vanishgraph/src/adapters/persistence/coverage.ts:52-68 | the exact bounds are the least and the greatest proportion the score test accepts |
| `Wilson.PublishedIsNear` | vanishgraph/src/adapters/persistence/coverage.ts:41-82 | each published bound is within half a unit of the fourth decimal of that extreme, and the published ratio of n/d |
| `Wilson.PublishedIsMonotone` | vanishgraph/src/adapters/persistence/coverage.ts:41-82 | more removals out of as many lower neither published bound |
| `Wilson.PublishedRatiosAddUpIff` | vanishgraph/src/adapters/persistence/coverage.ts:41-43 | the published ratios of a figure and its complement add up to 1 exactly when n/d is not halfway between two published values |
| `Wilson.PublishedRatiosOfATie` | vanishgraph/src/adapters/persistence/coverage.ts:41-43 | 1 of 20000 and its complement, published as 0.0001 and 1 |
| `Wilson.PublishedMirrorIff` | vanishgraph/src/adapters/persistence/coverage.ts:41-82 | the published interval of the complement is the mirror image exactly when neither end is such a tie |
| `Wilson.FigureIsSound` | vanishgraph/src/adapters/observability/effectiveness-metric.ts:85-137 | an accepted figure has no data, ratio or interval at all, or a ratio inside an interval inside [0, 1] |
| `Wilson.FigureIff` | vanishgraph/src/adapters/observability/effectiveness-metric.ts:85-137 | which counts are accepted as a figure, and what exactly is published for them |
| `CommentStrip.StripComments` | vanishgraph/scripts/scan-truth-state-input.ts:48-117 | the loop with strings and escapes computes the stripping function |
| `CommentStrip.StripCommentsPlain` | vanishgraph/scripts/copy-lint-gate.ts:408-451 | the loop without strings computes it with no quotes |
| `CommentStrip.LinesAreKept` | vanishgraph/scripts/scan-truth-state-input.ts:47-117 | newlines stay exactly where they were and every other character is kept or blanked |
| `CommentStrip.BothAreIdempotent` | vanishgraph/scripts/copy-lint-gate.ts:407-451 | stripping again changes nothing, for both strippers |
| `CommentStrip.StrippersAgree` | vanishgraph/scripts/scan-truth-state-input.ts:82-111 | the two agree wherever the plain one leaves no quote standing, in particular with quotes only in comments |
| `CommentStrip.QuoteFreeSourcesAgree` | vanishgraph/scripts/copy-lint-gate.ts:408-451 | the two agree on every source without quotes or backticks |
| `CommentStrip.StripBlanksTheComments` | vanishgraph/scripts/scan-truth-state-input.ts:48-117 | for a source given by its tokens, exactly the comments are blanked and strings are left alone whatever they hold |
| `CommentStrip.StripIsBlanking` | vanishgraph/scripts/scan-truth-state-input.ts:48-117 | every source has such a token structure, so stripping is blanking its comments |
| `LineAnalysis.ScanLine` | vanishgraph/scripts/scan-truth-state-input.ts:161-177 | the loop computes the scan that the next two rows give a meaning to |
| `LineAnalysis.ScanIsBalance` | vanishgraph/scripts/scan-truth-state-input.ts:161-177 | for a line given by its tokens, also one that starts or ends inside a string, the scan adds the opening minus the closing braces outside strings and escapes, and leaves open the string the tokens leave open |
| `LineAnalysis.DepthIsBalance` | vanishgraph/scripts/scan-truth-state-input.ts:148-187 | all lines have such a token structure, and the depth before any of them is the balance of the braces before it |
| `LineAnalysis.StackStep` | vanishgraph/scripts/scan-truth-state-input.ts:181-184 | pushing and popping keeps a stack of exactly the starting depths of the blocks still open |
| `LineAnalysis.AnalyseLines` | vanishgraph/scripts/scan-truth-state-input.ts:148-187 | a line is reported inside an input schema exactly when a schema block and an input block opened earlier and every line since starts deeper |
| `RouteTree.Registered` | vanishgraph/scripts/route-coverage.ts:261-287 | the line loop with its stack collects the routes of the parsed entries: every trimmed method but HEAD with the normalised path of the next two rows |
| `RouteTree.BracesOfPieces` | vanishgraph/scripts/route-coverage.ts:283-283 | a path printed from literals and `:name` parameters is normalised to the same pieces with `{name}` |
| `RouteTree.NormalisedPieces` | vanishgraph/scripts/route-coverage.ts:283-283 | the normalised path that the routes below are stated with shows the pieces of any path: each `{name}` where the path has `:name`, all else as it is |
| `RouteForest.PrintedLineMatches` | vanishgraph/scripts/route-coverage.ts:269-274 | a printed line is read back with its depth, segment and methods |
| `RouteForest.ReadBackIff` | vanishgraph/scripts/route-coverage.ts:261-287 | a printed forest with one node per path is read back with every full path right exactly when no segment with handlers below a root starts with the API root and no node without handlers has one with handlers below it |
| `RouteForest.GroundedReadBackIff` | vanishgraph/scripts/route-coverage.ts:261-287 | the documented form, where every line has methods, is read back right exactly when no nested segment starts with the API root, with no assumption on the paths |
| `RouteForest.ApartMeansOneNode` | vanishgraph/scripts/route-coverage.ts:238-245 | a forest in which no sibling's segment is a prefix of another's has one node per path |
| `RouteForest.RegisteredIsTheForest` | vanishgraph/scripts/route-coverage.ts:261-287 | registering the printed text of a forest without the two exceptions gives exactly its non-HEAD methods with their full paths, each parameter in braces |
| `RouteForest.CollectionAndElement` | vanishgraph/scripts/route-coverage.ts:235-287 | the documented tree of a collection and its element registers the collection and the collection with `/{name}` |
| `RouteForest.BracesOfConcat` | vanishgraph/scripts/route-coverage.ts:283-283 | normalising a path is normalising its segments one by one |
| `RouteForest.BareParentMisfilesItsChild` | vanishgraph/scripts/route-coverage.ts:275-279 | the child of a root without handlers is filed under that root's elder sibling |
| `EgressGate.Gate.Scrub` | vanishgraph/src/adapters/observability/egress-gate.ts:308-417 | the scrub loop accepts, sends and refuses what the `EgressVerdict` rows say, and records its outcome, refusal and counters |
| `EgressGate.AcceptedIsClean` | vanishgraph/src/adapters/observability/egress-gate.ts:308-417 | for any patterns, an accepted payload has exactly the input's field names, all allowed and none prohibited, no compiled value rule matches anything in it, and it is unchanged exactly when nothing received matched |
| `EgressVerdict.AcceptedIff` | vanishgraph/src/adapters/observability/egress-gate.ts:308-417 | a record is accepted exactly when there is a policy, no rule fires on a resource value, and every field has an allowed name, a text that is no cut address, no encoded form a rule fires on, and nothing left to fire on once redacted |
| `EgressVerdict.AcceptedPayloadIs` | vanishgraph/src/adapters/observability/egress-gate.ts:394-417 | what is sent is each text rewritten by every rule that fires at its turn, with the number of rewrites, the class of the last one and the outcome they imply |
| `EgressVerdict.RefusalIsEarned` | vanishgraph/src/adapters/observability/egress-gate.ts:308-417 | a refusal names the first attribute or field at fault, in the gate's order of checks, with the rule class that fired |
| `EgressGate.PolicyAbsentIff` | vanishgraph/src/adapters/observability/egress-gate.ts:308-417 | whatever it is given, a gate blames the policy exactly when the policy has no rules |
| `EgressGate.NoRulesNoEgress` | vanishgraph/src/adapters/observability/egress-gate.ts:262-312 | over any calls the POLICY_ABSENT counter is every call for a gate without rules, which counts no acceptance, and zero for any other gate |
| `EgressGate.CountersBalance` | vanishgraph/src/adapters/observability/egress-gate.ts:262-305 | over any calls the outcome counters sum to the calls, the denial counters to the refusal log reason by reason, and the canary counters to its canaries |
| `MetricsRegistry.OrderIsIrrelevant` | vanishgraph/src/adapters/observability/metrics-registry.ts:327-332 | the order labels are written in never changes their key |
| `MetricsRegistry.KeyReadsBackIff` | vanishgraph/src/adapters/observability/metrics-registry.ts:327-332 | reading a key back, each piece that names a later label taken as one, gives the sorted label set exactly when no value holds `,n=` with `n` ordered after the value's own label (a safe set) |
| `MetricsRegistry.SharesKeyIff` | vanishgraph/src/adapters/observability/metrics-registry.ts:327-332 | a label set shares its key with a different safe one exactly when it is not safe itself |
| `MetricsRegistry.BeyondTheNextLabel` | vanishgraph/src/adapters/observability/metrics-registry.ts:327-332 | two sets of different size share a key although no value of either reads as a label between its own and the next |
| `MetricsRegistry.IndexKeyIdentifies` | vanishgraph/src/adapters/observability/metrics-registry.ts:327-332 | of safe label sets an index key identifies the metric name and the set |
| `MetricsRegistry.Registry.Record` | vanishgraph/src/adapters/observability/metrics-registry.ts:348-385 | a sample is refused for the first rule it breaks, as `MetricVerdicts` says, and a refused one changes neither log nor index |
| `MetricVerdicts.RefusalIsEarned` | vanishgraph/src/adapters/observability/metrics-registry.ts:348-385 | a sample is accepted exactly for a registered family with allowed labels within their bounds, a finite value and, for a cost, a whole one in a named currency; otherwise the code is that of the first rule it breaks |
| `MetricVerdicts.LogIsTheAccepted` | vanishgraph/src/adapters/observability/metrics-registry.ts:340-386 | after any calls the log is exactly the samples that kept every rule when recorded, in order, and the index holds nothing else |
| `MetricsRegistry.IndexIsLatest` | vanishgraph/src/adapters/observability/metrics-registry.ts:348-386 | after any calls with safe label sets the value of a series is that of its latest sample, whatever the order of labels |
| `MetricsRegistry.UnsafeIsMisread` | vanishgraph/src/adapters/observability/metrics-registry.ts:382-386 | for every unsafe label set there is a run of accepted calls, its other series safe, after which its value is that of the other series |
| `MetricsRegistry.EscapedValueReadsBack` | vanishgraph/src/adapters/observability/metrics-registry.ts:505-507 | an escaped label value has no newline and no bare quote and can be read back |
| `StructuredLogger.FindIsExact` | vanishgraph/src/adapters/observability/structured-logger.ts:232-245 | the search returns exactly the paths of the prohibited, unmarked names, at any depth |
| `LogRecords.ValidateIsExact` | vanishgraph/src/adapters/observability/structured-logger.ts:121-178 | validation reports exactly the rules a record breaks, each stated on the fields of the record |
| `LogRecords.LogDecides` | vanishgraph/src/adapters/observability/structured-logger.ts:181-213 | a call without a correlation id, or else a tenant, is refused for that; otherwise the completed record is emitted exactly when it breaks no rule, and refused with every rule it breaks |
| `LogRecords.EmittedCarries` | vanishgraph/src/adapters/observability/structured-logger.ts:189-210 | what an emitted record holds under every name: the identity of the activity and the service, the ids in scope, no marker and the caller's own values, which come first and in their order |
| `LogRecords.ScanIsExact` | vanishgraph/src/adapters/observability/structured-logger.ts:310-333 | of a line that is an object the scan reports exactly the rules it breaks, among those it looks at |
| `LogRecords.StreamReportIs` | vanishgraph/src/adapters/observability/structured-logger.ts:297-335 | a scan that does not throw reports exactly what each line breaks, or that it is no JSON, with the number of the line |
| `StructuredLogger.Logger.Log` | vanishgraph/src/adapters/observability/structured-logger.ts:179-213 | emits one line for one accepted record and nothing otherwise, as the `LogRecords` rows decide |
| `StructuredLogger.EmittedIsTruthful` | vanishgraph/src/adapters/observability/structured-logger.ts:253-291 | no emitted record reports success for a state that is not progress, nor a verified removal without the fields that link it to its observation |
| `StructuredLogger.ScanLogStream` | vanishgraph/src/adapters/observability/structured-logger.ts:297-335 | a capture is clean exactly when it is not empty and every line is; the scan throws, and reports nothing, exactly when some line is the JSON text null |
| `StructuredLogger.CleanLineIsARecord` | vanishgraph/src/adapters/observability/structured-logger.ts:310-333 | with a mandatory field in the contract, only the text of an object passes as a clean line |
| `StructuredLogger.LoggedStreamScansClean` | vanishgraph/src/adapters/observability/structured-logger.ts:297-335 | whatever is asked of the logger, the stream it leaves is reported clean exactly when it is not empty and no record has a number that is not finite in a field it must carry; the scan never throws on it |
| `StructuredLogger.ValidateIsBlind` | vanishgraph/src/adapters/observability/structured-logger.ts:121-178 | replacing any finite number in a record by NaN or an infinity never changes the logger's verdict |
| `StructuredLogger.ScanOfPrinted` | vanishgraph/src/adapters/observability/structured-logger.ts:297-335 | a record that passes the scanner's rules passes them as printed exactly when its required fields survive printing |

## Left out

- SQL text, row-level security, connection pools, HTTP routes and the user interface: plumbing.
- Isolation between transactions: handlers run one after another; the model does not interleave their statements.
- Rows a handler only reads (grants, recipes, sources, policies, evidence) are parameters of the call, arbitrary each time.
- The clock of `created_at` and `updated_at`: a new version per update and creation order stand for them.
- Real cryptography, JSON text, SHA-256 and regular-expression engines: arbitrary functions with the laws each property names.
- File locking, stale locks, torn log lines and the Valkey variant of the replay store.
- Floating-point error, and figures whose numerator exceeds their denominator: the interval is over the reals.
- The read projections, the exposition text around escaped labels and the histogram lines.
- StructuredLogger.Logger.Log: validation is one function of the record; the order in which its loops push violations is that of the function.
- EgressGate.Gate.Scrub: the detail text of a refusal and the digest of an accepted payload are not modelled.
- ReplayLog.FileReplayStore.Begin: an unreadable log file, which the original reports as unavailable, is not modelled.
- HashLedger.Validate: the exit of the process is its verdict; a missing file is not modelled.
- CaseDatabase.Database.CreateCase: the unique index is implied by the check before the insert, since transactions are serial.
- CaseGuards.DryRunAgainstReal: the payload allowlist and the personal-data test are one condition of the request.
- RouteForest.ReadBackIff: a node without handlers that repeats the full path of one with handlers is excluded; there a wrong parent can be right by coincidence.
- ReplayLog.DecisionsFollowHistory: a nonce that is `event`, NUL and more is excluded, as is a provider with NUL; the webhook verifier admits no such nonce.
- StructuredLogger.ScanLogStream: a line that is a JSON string or array is read as having none of the contract's fields, so fields named like an index or a length are not modelled.
- StageCheck.CheckStages: lines that do not match the stage pattern, which the original reports and skips, are not modelled.
- StructuredLogger.LoggedStreamScansClean: fields whose value is undefined, a function or a big integer are not modelled.
- CaseActors.RunHasOneActor: rows other parts of the system write under other service names name no case and are not modelled.
