# Rollover impact simulation: a verified model

CertRollover freezes trust anchors, certificate chains and a service dependency graph, simulates a
trust-anchor rollover over the frozen input, and keeps the outcome in a scenario that moves through a small
state machine under an append-only audit log. This project models that behaviour in Dafny 4.11 and proves
properties of it. `dafny verify dfyconfig.toml` checks everything.

## Modules

| file | what it models |
|---|---|
| `Ordering.dfy` | `sort.Slice` and sorted duplicate-free lists |
| `RolloverModel.dfy` | the records of a simulation, identifier lists, text joining |
| `Graphs.dfy`, `CycleCheck.dfy` | paths and cycles; the three-colour walk of `detectCycle` and `servicesContainCycle` |
| `DirectEvaluation.dfy` | `evaluateDirect`: the chain that serves one service at one instant |
| `Resolution.dfy`, `Reachability.dfy` | `resolveService`, and what its failure search decides |
| `CriticalTimes.dfy` | the sampled instants, compacted in place |
| `Simulator.dfy` | `ValidateSnapshot`, `Simulate`, `explain` |
| `SimulationTheorems.dfy`, `Conservation.dfy` | the meaning of the failure lists, the evidence and the explanation |
| `Comparisons.dfy`, `SamplingGap.dfy` | monotonicity, soundness of sampling, and a rollover that sampling misses |
| `PlainTerms.dfy` | what the simulation accepts and reports, in terms of the frozen records alone |
| `Canonical.dfy` | `NewSnapshot` as a canonical form |
| `FrozenInput.dfy`, `DependencyStore.dfy` | `buildSnapshot`, and the stored dependency graph under its requests |
| `ScenarioProtocol.dfy`, `ScenarioInvariants.dfy`, `ScenarioTheorems.dfy` | the scenario store as a protocol between concurrent clients |
| `ScenarioLifecycle.dfy` | the edges of the state machine and the effect of each request, in plain terms |
| `ScenarioService.dfy` | the service methods, proved to take exactly the steps of the protocol and to honour its promises |
| `ConcreteRun.dfy` | runs from the empty store in which the refuted promises really fail |
| `RateLimiting.dfy` | the fixed-window rate limiter |

## Conventions

- Identifiers are natural numbers and instants are integer nanoseconds counted from Go's zero time. A
  difference of instants saturates to 64 bits, as `time.Duration` does.
- A column that holds JSON is modelled by the value it encodes; encoding loses nothing. The input hash is an
  arbitrary function of the snapshot.
- Iteration over a Go map picks keys with `:|`, so every proof covers every order.
- Each scenario request is cut where its transaction opens. The reads before the cut, the probe of the
  idempotency key and the transaction are separate steps that other clients may interleave with. A read and a
  transaction are atomic; a transaction may be rolled back because the audit append fails.
- Where `sort.Slice`, `encoding/json` or the database is called, the model states what the call guarantees.

## Where the code and its promises differ

- The explanation "All active service trust paths remain reachable before, during, and after ..." rests on
  sampled instants. It is proved for every instant of the interval when no frozen chain starts or stops being
  valid in it (`NoFailuresMeansNeverUnreachable`). In general it is right exactly when nothing fails at the
  finitely many validity changes and at the first instant after overlap, which need not be sampled
  (`NoFailuresIsTrueExactlyWhen`). `SamplingMissesGap` gives a rollover for which the sentence is produced
  although a service is unreachable for twenty minutes.
- "Repeated requests with the same key return the stored result" holds exactly while the key is the one the
  scenario currently holds (`RetryIsRecognisedIffCurrent`). After a return to draft and a simulation under
  another key, the old key's retry is refused (`SupersededKeyIsForgotten`; a run that does this is
  `FirstKeyForgotten`).
- The unique index on the idempotency key covers the empty key, so a second scenario cannot be created while
  one has never been simulated (`OneUnsimulatedScenario`). `FinishCreate` reports that as an identical input,
  which is wrong exactly when the input is new while a scenario is waiting (`RefusalIsTruthfulExactlyWhen`; a
  run that does this is `NewInputRefusedAsIdentical`). Creation commits exactly when the input is new and none
  is waiting (`CreationSucceedsExactlyWhen`).
- The audit log's before and after snapshots come from the client's own copy of the row. Their states are
  always contiguous (`AuditTrailIsContiguous`), but their other columns can be stale
  (`StaleTransitionCommits`; a run that does this is `StaleEntryWritten`). An entry agrees with the stored row
  exactly when state, key and replay flag are still those that the client read (`EntryIsTrueExactlyWhen`,
  and over every run `AuditIsTrueExactlyWhen`).

## Model

| member | source | states |
|---|---|---|
| RolloverModel.SortedUnique | backend/internal/algorithm/simulator.go:348-359 | the result is strictly increasing and holds exactly the positive identifiers of the input |
| RolloverModel.SubIsNearest | backend/internal/algorithm/simulator.go:271 | the saturated difference of two instants is the 64-bit duration nearest to the true one |
| RolloverModel.DecimalReadsBack | backend/internal/algorithm/simulator.go:231 | a printed number reads back as the same number |
| Graphs.RankedImpliesAcyclic | backend/internal/algorithm/simulator.go:332-338 | a ranking under which finished nodes outrank their successors excludes every directed cycle |
| CycleCheck.Walk.Visit | backend/internal/algorithm/simulator.go:325-340 | keeps the in-progress nodes equal to the current stack path and finished nodes ranked above their successors; an error names a node on a real cycle, or a missing target |
| CycleCheck.Walk.VisitAll | backend/internal/algorithm/simulator.go:341-346 | no error exactly when the graph is acyclic (and, where required, closed), for every iteration order of the edge map |
| CycleCheck.DetectCycle | backend/internal/algorithm/simulator.go:318-347 | terminates and accepts exactly the acyclic graphs, dangling edges allowed; a reported node lies on a cycle |
| DirectEvaluation.DirectSelection | backend/internal/algorithm/simulator.go:206-235 | reachable exactly when some configured or candidate chain has the same leaf, is in service, in window, validated, anchored and trusted; the least such identifier is selected with its anchor |
| DirectEvaluation.DirectExplanation | backend/internal/algorithm/simulator.go:208-239 | an existing configured chain that cannot serve is explained by one reason per same-leaf chain, so the fallback sentence is never used |
| DirectEvaluation.EvaluateDirect | backend/internal/algorithm/simulator.go:201-240 | the loop computes the evidence that the lemmas on selection, explanation and reasons characterise |
| DirectEvaluation.SelectionPassesEveryTest | backend/internal/algorithm/simulator.go:201-240 | on the records alone: a selected chain has the configured leaf, is neither revoked nor deprecated, is in its half-open window, validated, and under an active and trusted anchor; when none is selected every same-leaf chain under consideration fails one of these tests |
| DirectEvaluation.FirstFailingTestDecides | backend/internal/algorithm/simulator.go:213-234 | a chain serves when none of five tests fails; otherwise its recorded reason is the sentence of the first test that fails |
| DirectEvaluation.AnchorIsActiveExactlyWhen | backend/internal/algorithm/simulator.go:281-292 | at every instant the old anchor is active up to the end of the overlap, the new one from its start on, and no other ever |
| Resolution.ResolveService | backend/internal/algorithm/simulator.go:242-268 | terminates on any graph, leaves `visiting` as it found it, returns the first failing path appended to the path so far, and a reason with one upstream prefix per hop of that path |
| Resolution.World.ReasonTellsHops | backend/internal/algorithm/simulator.go:259-264 | the reason of a failing path is one upstream prefix per hop in path order, followed by the reason why its last service fails by itself |
| Reachability.UsableIsLeast | backend/internal/algorithm/simulator.go:253-267 | the least predicate used below solves "healthy and every dependency usable" and lies inside every other solution |
| Reachability.ReachableIsLeastSolution | backend/internal/algorithm/simulator.go:242-268 | on every finite graph, cyclic or not, a service is reported reachable exactly when it is in the least solution |
| Reachability.FailureShape | backend/internal/algorithm/simulator.go:242-268 | on every graph a reported path follows dependency edges through healthy services and ends at an unhealthy one or at one already visited |
| Reachability.UnreachableHasFirstWitness | backend/internal/algorithm/simulator.go:242-268 | on acyclic graphs the reported path is a true witness without repetition, and no other witness precedes it in dependency-list order |
| Reachability.ReachableMeansHealthyClosure | backend/internal/algorithm/simulator.go:242-268 | on acyclic graphs reachable means that every service of the reflexive-transitive dependency closure is present, active and directly reachable |
| CriticalTimes.CompactInPlace | backend/internal/algorithm/simulator.go:273-279 | compacting a sorted array over its own front leaves each instant once, in increasing order |
| CriticalTimes.CriticalTimes | backend/internal/algorithm/simulator.go:270-280 | the result is strictly increasing and holds exactly the six source instants |
| CriticalTimes.MidpointInOverlap | backend/internal/algorithm/simulator.go:271 | the midpoint lies in [start, end) even when the duration saturates, and halves the overlap otherwise |
| CriticalTimes.TimesCoverPhases | backend/internal/algorithm/simulator.go:270-292 | four to six instants, among them one with only the old anchor, the overlap ends with both, and one with only the new anchor |
| CriticalTimes.SampledExactlyWhen | backend/internal/algorithm/simulator.go:270-280 | an instant is sampled exactly when it is an overlap end, sixty seconds outside of one, the midpoint, or the requested instant |
| Simulator.ValidateSnapshot | backend/internal/algorithm/simulator.go:119-150 | accepts exactly the simulable snapshots, and each error is that of the first failing test |
| Simulator.Explain | backend/internal/algorithm/simulator.go:293-314 | counting failures on each side of the overlap yields the sentences that Conservation.ExplanationIsTruthful characterises |
| Simulator.MapKeys | backend/internal/algorithm/simulator.go:368-375 | the keys of the map, each once, in increasing order, whatever order the map yields |
| Simulator.EvaluateServices | backend/internal/algorithm/simulator.go:167-176 | direct evidence for exactly the active services |
| Simulator.ResolveServices | backend/internal/algorithm/simulator.go:177-193 | one item per active service and, for each unreachable one, a failure entry and a broken path |
| Simulator.Simulate | backend/internal/algorithm/simulator.go:152-199 | succeeds exactly on simulable snapshots and returns the result that PlainTerms.ReportedExactlyWhen and the Conservation lemmas characterise |
| SimulationTheorems.HealthyMeaning | backend/internal/algorithm/simulator.go:170-176 | a service is healthy at an instant exactly when it is active and has an eligible chain |
| SimulationTheorems.AffectedMeaning | backend/internal/algorithm/simulator.go:166-193 | a (service, instant) pair is reported exactly when the instant is sampled, the service is active, and it is outside the least solution at that instant |
| SimulationTheorems.FailuresAreWitnessed | backend/internal/algorithm/simulator.go:181-191 | failures and broken paths correspond one to one; each pair has a first true witness path whose codes are reported, dropping only a last service that is absent from the snapshot |
| Conservation.EvidenceInOrder | backend/internal/algorithm/simulator.go:194 | in a canonical snapshot the evidence of an instant lists exactly the active services in identifier order |
| Conservation.ResultIsConserved | backend/internal/algorithm/simulator.go:165-198 | one evidence entry per critical time with one item per active service; the unreachable items are, in order, the failures and the broken paths, agreeing on time and reason |
| Conservation.ExplanationIsTruthful | backend/internal/algorithm/simulator.go:293-314 | the all-reachable sentence appears exactly when no sampled service fails, each side sentence exactly when one fails on that side |
| Conservation.TotalsCountEvidence | backend/internal/algorithm/simulator.go:306 | the totals in the explanation are the number of unreachable evidence items |
| Conservation.ExplanationReads | backend/internal/algorithm/simulator.go:293-314 | the text consists of the all-reachable sentence, or of the totals followed by one sentence for each side with a failure |
| Conservation.EvidenceNamesActiveAnchors | backend/internal/algorithm/simulator.go:166-169 | each evidence entry names, in order, exactly the anchors active at its instant |
| Conservation.FailuresCopyTheirService | backend/internal/algorithm/simulator.go:182 | each failure carries identifier, code and criticality of an active service of the snapshot |
| Conservation.EvidenceKeepsSelection | backend/internal/algorithm/simulator.go:242-268 | an evidence item is the direct evidence of its service with its selected chain and anchor; only a failing dependency changes its verdict and reason |
| PlainTerms.AcceptedExactlyWhen | backend/internal/algorithm/simulator.go:119-150 | in terms of the records alone: which snapshots are simulated, and no list of dependencies leads from a service back to itself |
| PlainTerms.ReportedExactlyWhen | backend/internal/algorithm/simulator.go:152-199 | in terms of the records alone: a service is reported at an instant exactly when the instant is sampled, the service is active, and a list of dependencies leads from it to a service that no chain serves |
| Comparisons.MoreTrustNeverAddsFailures | backend/internal/algorithm/simulator.go:201-268 | larger trust sets or candidate lists never add a (service, instant) pair to the failures of a simulation |
| Comparisons.WiderOverlapNeverHurts | backend/internal/algorithm/simulator.go:281-292 | at a fixed instant a wider overlap never makes a reachable service unreachable, dependencies included |
| Comparisons.SamplingIsSound | backend/internal/algorithm/simulator.go:270-292 | if no chain starts or stops being valid within a minute of the overlap, every instant there looks exactly like the sampled instant of its phase |
| Comparisons.NoFailuresMeansNeverUnreachable | backend/internal/algorithm/simulator.go:294-296 | under that condition an empty failure list means that no active service is unreachable at any instant of the interval |
| Comparisons.NoFailuresIsTrueExactlyWhen | backend/internal/algorithm/simulator.go:270-296 | without any condition: a simulation with no failure is right about every instant of the interval exactly when nothing fails at the missed instants, which are the first one after overlap and every validity change of a frozen chain in the interval |
| SamplingGap.SamplingMissesGap | backend/internal/algorithm/simulator.go:270-296 | without that condition the claim is false: a simulable rollover with no reported failure and a service unreachable for twenty minutes |
| Canonical.RewriteIdLists | backend/internal/algorithm/simulator.go:96-99 | every service keeps its place and gets its identifier lists sorted and duplicate-free, in place |
| Canonical.NewSnapshot | backend/internal/algorithm/simulator.go:91-101 | sorts the caller's slices in place; the snapshot and the rewritten slices hold the canonical form of the old contents, which keeps every column of the input |
| Canonical.CanonicalFormIsUnique | backend/internal/algorithm/simulator.go:91-101 | inputs that differ only in the order of records, or in order, repetition and zeros of identifier lists, give equal snapshots |
| Canonical.CanonicalFormKeepsInput | backend/internal/algorithm/simulator.go:91-101 | nothing is lost: the form holds the same records, and every column other than the identifier lists, which keep their positive members |
| Canonical.EqualFormsMeanSameInput | backend/internal/algorithm/simulator.go:91-101 | the converse of uniqueness: inputs with equal snapshots differ only in the order of records and in order, repetition and zeros of identifier lists |
| Canonical.CanonicalFormIsIdempotent | backend/internal/algorithm/simulator.go:91-101 | canonicalising a canonical snapshot changes nothing |
| Canonical.CanonicalKeepsReachability | backend/internal/algorithm/simulator.go:91-101 | canonicalisation changes no service's reachability at any instant |
| FrozenInput.ServicesContainCycle | backend/internal/service/common.go:59-95 | accepts exactly the closed acyclic graphs, in any map order; an error names a real cycle or a real missing target |
| FrozenInput.BuildSnapshot | backend/internal/service/common.go:111-141 | returns the canonical snapshot of the rows exactly when it is simulable |
| FrozenInput.SnapshotKeepsRows | backend/internal/service/common.go:111-141 | the snapshot holds the given configuration, anchors and chains, and one service per row with every column that the simulation reads |
| FrozenInput.FrozenGraphIsStoredGraph | backend/internal/service/common.go:124-136 | the dependency graph of the frozen snapshot is the graph that the store's check saw |
| FrozenInput.AcceptedRowsCanBeFrozen | backend/internal/service/common.go:137-140 | rows accepted by the store's check are never rejected for a cycle when they are frozen |
| DependencyStore.FreshNodeKeepsVerdict | backend/internal/service/dependent_service_service.go:84-89 | adding a node that nothing points to, under any unused identifier, leaves closedness and acyclicity as they were |
| DependencyStore.InsertKeepsGraph | backend/internal/service/dependent_service_service.go:81-95 | the inserted row keeps the stored graph closed and acyclic under the identifier the database assigns |
| DependencyStore.UpdateKeepsGraph | backend/internal/service/dependent_service_service.go:147-173 | an update whose edges are known and close no cycle keeps the stored graph closed and acyclic |
| DependencyStore.EditRows | backend/internal/service/dependent_service_service.go:148-154 | editing the local copy replaces exactly the rows with the given identifier |
| DependencyStore.OwnershipByRole | backend/internal/service/dependent_service_service.go:29-37 | which role may edit the services of which team |
| DependencyStore.StoredRequestsReadBack | backend/internal/service/dependent_service_service.go:81-83 | a stored request reads back from its row; an update keeps identifier, code and state |
| DependencyStore.DependentServices.All | backend/internal/repository/dependent_service_repository.go:87-93 | all rows, each once, in identifier order |
| DependencyStore.DependentServices.ValidateReferences | backend/internal/service/dependent_service_service.go:38-69 | accepts exactly the requests whose chain, anchors and dependencies exist and that do not name the service itself; the error is that of the first failing test |
| DependencyStore.DependentServices.CheckCreate | backend/internal/service/dependent_service_service.go:74-89 | refuses only for ownership or references: the cycle check under the placeholder identifier never rejects |
| DependencyStore.DependentServices.CheckUpdate | backend/internal/service/dependent_service_service.go:129-157 | accepts exactly the permitted requests whose edges close no cycle |
| DependencyStore.DependentServices.Commit | backend/internal/repository/trust_anchor_repository.go:21-23 | the row and its audit record are written together or not at all |
| DependencyStore.DependentServices.Create | backend/internal/service/dependent_service_service.go:70-103 | keeps the graph closed and acyclic and the service codes distinct, says exactly when it succeeds and what it stores, and which error it reports when |
| DependencyStore.DependentServices.Update | backend/internal/service/dependent_service_service.go:125-178 | keeps the graph closed and acyclic, says exactly when it succeeds and what it stores, and which error it reports when |
| DependencyStore.DependentServices.Deactivate | backend/internal/service/dependent_service_service.go:179-206 | keeps the graph closed and acyclic and changes only the state of one active service |
| DependencyStore.StoredGraphIsSimulable | backend/internal/algorithm/simulator.go:146-148 | whatever the store holds, the simulator's own cycle check accepts its frozen form |
| ScenarioInvariants.SimulationLoadIsGood | backend/internal/service/rollover_scenario_service.go:91-104 | a client that proceeds holds a row it may manage and a usable key |
| ScenarioInvariants.ProbeIsGood | backend/internal/service/rollover_scenario_service.go:105-128 | a client that proceeds holds a draft and the simulation of its frozen input; a stored draft can always be simulated |
| ScenarioInvariants.TransitionLoadIsGood | backend/internal/service/rollover_scenario_service.go:175-194 | a client that proceeds holds a legal transition that it is entitled to make |
| ScenarioInvariants.ReplayLoadIsGood | backend/internal/service/rollover_scenario_service.go:227-249 | a replay of a stored non-draft row passes |
| ScenarioInvariants.CommitIsLegalMove | backend/internal/service/rollover_scenario_service.go:131-147 | a commit acting on stale reads appends one legal move that starts at the stored state |
| ScenarioInvariants.CommitKeepsIndexes | backend/internal/model/rollover_scenario.go:15-28 | keys, the empty one included, and frozen inputs stay pairwise distinct, and rows stay good |
| ScenarioInvariants.CommitKeepsTrails | backend/internal/repository/rollover_scenario_repository.go:77-97 | every scenario's audit trail stays a contiguous legal path that ends at its stored state |
| ScenarioInvariants.CommitKeepsOthers | backend/internal/service/rollover_scenario_service.go:131-147 | what other clients have read, however stale, stays justified |
| ScenarioInvariants.StepKeepsInv | backend/internal/service/rollover_scenario_service.go:90-265 | every read, probe and commit of every client keeps the invariant |
| ScenarioInvariants.EveryRunIsGood | backend/internal/service/rollover_scenario_service.go:39-265 | the invariant holds after every interleaving of any length |
| ScenarioTheorems.EveryChangeIsAudited | backend/internal/service/rollover_scenario_service.go:76-81 | a step changes nothing, or one row together with exactly one new audit entry that tells from which state to which |
| ScenarioTheorems.RunPreserves | backend/internal/service/rollover_scenario_service.go:116-147 | whatever happens later, frozen input, obtained results, terminal states and passed replays survive |
| ScenarioTheorems.StoredResultsAreSimulations | backend/internal/service/rollover_scenario_service.go:116-147 | in every reachable state a non-draft scenario stores exactly the simulation of its frozen input |
| ScenarioTheorems.ReplayAlwaysPasses | backend/internal/service/rollover_scenario_service.go:235-257 | a permitted replay of a non-draft scenario always passes, and no replay is ever recorded as failed |
| ScenarioTheorems.VerifierIsIndependent | backend/internal/service/rollover_scenario_service.go:192-199 | a verifier is recorded exactly in the verified state and is never the creator |
| ScenarioTheorems.AuditTrailIsContiguous | backend/internal/service/rollover_scenario_service.go:204-221 | after any interleaving the create, simulate and transition entries of a scenario form a contiguous legal path ending at its stored state, each made by someone entitled to it |
| ScenarioTheorems.OneSimulationPerDraft | backend/internal/repository/rollover_scenario_repository.go:77-85 | between two simulations of a scenario lies a return to draft |
| ScenarioTheorems.SecondSimulationRollsBack | backend/internal/service/rollover_scenario_service.go:131-138 | when one of two simulations of a scenario has committed, then after any further steps the second commit changes nothing, unless the log records that the scenario was returned to draft in between |
| ScenarioTheorems.RetryReturnsStored | backend/internal/service/rollover_scenario_service.go:105-109 | a retry with the current key, in any state, returns the stored row and changes neither rows nor audit |
| ScenarioTheorems.RetryIsRecognisedIffCurrent | backend/internal/service/rollover_scenario_service.go:105-112 | a retry is answered from the store exactly when its key is the one the scenario holds now |
| ScenarioTheorems.SupersededKeyIsForgotten | backend/internal/service/rollover_scenario_service.go:105-115 | after a simulation under another key, a retry under the old key is refused |
| ScenarioTheorems.ForeignKeyNeverCommits | backend/internal/service/rollover_scenario_service.go:105-108 | a key held by another scenario is refused when probed and rolls back when it was taken meanwhile |
| ScenarioTheorems.OneUnsimulatedScenario | backend/internal/model/rollover_scenario.go:28 | at most one scenario has never been simulated, and while there is one no other can be created |
| ScenarioTheorems.CreationSucceedsExactlyWhen | backend/internal/model/rollover_scenario.go:15-28 | in every reachable state a creation commits exactly when its input is new and no scenario is waiting for its first simulation |
| ScenarioTheorems.RefusalIsTruthfulExactlyWhen | backend/internal/service/rollover_scenario_service.go:76-88 | a refused creation is rightly reported as identical exactly when the input is stored or no scenario is waiting for its first simulation |
| ScenarioTheorems.StaleTransitionCommits | backend/internal/service/rollover_scenario_service.go:203-221 | a transition read before a return to draft and a new simulation still commits, with an audit entry that carries the stale row |
| ScenarioTheorems.EntryIsTrueExactlyWhen | backend/internal/service/rollover_scenario_service.go:131-147 | for every simulation, transition and replay: the entry's earlier half equals the stored row exactly when state, key and replay flag are those read; its later half equals the written row under the part of that condition that the commit does not overwrite |
| ScenarioTheorems.AuditIsTrueExactlyWhen | backend/internal/service/rollover_scenario_service.go:203-221 | after every run, the entry that a commit appends agrees with the rows stored before and after it exactly when state, key and replay flag are those read |
| ScenarioLifecycle.EveryMoveIsPlain | backend/internal/constants/scenario_state.go:18-31 | over every run, without reference to the transition table: verified and rollback are entered only from executing, executing only from ready, ready only from simulated, draft only from simulated or ready; a verifier is not the creator, and every other change is made by the creator, an admin or a PKI operator |
| ScenarioLifecycle.FinishedScenariosRanTheirCourse | backend/internal/constants/scenario_state.go:18-31 | over every run, the last four changes of a verified or rolled back scenario are simulating, making ready, executing and finishing it |
| ScenarioLifecycle.EveryEdgeCanBeTaken | backend/internal/constants/scenario_state.go:18-31 | from every reachable state each of the six requestable edges can be taken by whoever is entitled to it |
| ScenarioLifecycle.TransitionProceedsExactlyWhen | backend/internal/service/rollover_scenario_service.go:175-194 | a transition passes its checks exactly along one of the six edges for an entitled actor, and each refusal names the first failing check |
| ScenarioLifecycle.TransitionTakesEffect | backend/internal/service/rollover_scenario_service.go:195-221 | a transition writes state, verifier and rollback record of one row, and an audit entry with the same changes to the row that was read |
| ScenarioLifecycle.CreationTakesEffect | backend/internal/service/rollover_scenario_service.go:76-81 | a creation stores its snapshot, hash and creator in a draft without key, result or verifier, exactly when no row holds the same input or the empty key |
| ScenarioLifecycle.SimulationProceedsExactlyWhen | backend/internal/service/rollover_scenario_service.go:91-104 | the first checks of a simulation accept keys of 1 to 128 characters and entitled actors, and each refusal names the first failing check |
| ScenarioLifecycle.ProbeProceedsExactlyWhen | backend/internal/service/rollover_scenario_service.go:105-128 | a simulation is computed exactly for an unused key and a draft that can be simulated |
| ScenarioLifecycle.SimulationTakesEffect | backend/internal/service/rollover_scenario_service.go:129-149 | a simulation writes state, result and key of a row that is in draft while no other row holds the key, and otherwise nothing |
| ScenarioLifecycle.ReplayProceedsExactlyWhen | backend/internal/service/rollover_scenario_service.go:227-251 | a replay of a non-draft passes exactly when the whole stored result equals the simulation of the frozen input |
| ScenarioLifecycle.ReplayTakesEffect | backend/internal/service/rollover_scenario_service.go:252-260 | a replay writes its outcome and one audit entry, and nothing else |
| ConcreteRun.NewInputRefusedAsIdentical | backend/internal/service/rollover_scenario_service.go:76-88 | in a state reached from the empty store a creation with a new input cannot commit |
| ConcreteRun.FirstKeyForgotten | backend/internal/service/rollover_scenario_service.go:105-115 | in a run from the empty store the key of the first simulation is refused after the second |
| ConcreteRun.StaleEntryWritten | backend/internal/service/rollover_scenario_service.go:203-221 | in a run from the empty store the log ends with an entry that shows a key the row no longer holds |
| ScenarioService.HonouredReadsStayGood | backend/internal/service/rollover_scenario_service.go:131-147 | whatever calls happen between a client's read and its transaction, what it read stays justified |
| ScenarioService.CommitHonours | backend/internal/repository/trust_anchor_repository.go:21-23 | a commit keeps the tables good, only extends the log, and keeps frozen input, results and terminal states of every row |
| ScenarioService.RolloverScenarioService.Insert | backend/internal/repository/rollover_scenario_repository.go:27-32 | stores the draft under the assigned identifier unless a unique index objects |
| ScenarioService.RolloverScenarioService.CompleteSimulation | backend/internal/repository/rollover_scenario_repository.go:77-85 | writes the results only into a row that is in draft and only under a free key |
| ScenarioService.RolloverScenarioService.TransitionRow | backend/internal/repository/rollover_scenario_repository.go:86-97 | writes the target state only into a row that is still in the expected state |
| ScenarioService.RolloverScenarioService.SetReplayVerified | backend/internal/repository/rollover_scenario_repository.go:98-107 | changes only the replay flag of an existing row |
| ScenarioService.RolloverScenarioService.Record | backend/internal/repository/trust_anchor_repository.go:57-62 | appends one entry to the audit log or leaves it unchanged |
| ScenarioService.RolloverScenarioService.BeginCreate | backend/internal/service/rollover_scenario_service.go:39-75 | prepares the draft of the canonical snapshot of whatever was read, exactly when that snapshot is simulable and all anchors and candidates were found |
| ScenarioService.RolloverScenarioService.FinishCreate | backend/internal/service/rollover_scenario_service.go:76-88 | takes exactly the protocol's commit step for a creation, rolling back when the audit append fails; reports an identical input exactly when the input is stored or some scenario is unsimulated |
| ScenarioService.RolloverScenarioService.BeginSimulate | backend/internal/service/rollover_scenario_service.go:91-104 | takes exactly the protocol's first read of a simulation |
| ScenarioService.RolloverScenarioService.ProbeIdempotencyKey | backend/internal/service/rollover_scenario_service.go:105-128 | takes exactly the protocol's key probe and computes the simulation |
| ScenarioService.RolloverScenarioService.FinishSimulate | backend/internal/service/rollover_scenario_service.go:129-153 | takes exactly the protocol's commit step for a simulation, says exactly which error is reported when, and keeps what every row must keep |
| ScenarioService.RolloverScenarioService.BeginTransition | backend/internal/service/rollover_scenario_service.go:175-194 | takes exactly the protocol's read for a transition, which proceeds along the six edges of ScenarioLifecycle.TransitionProceedsExactlyWhen only |
| ScenarioService.RolloverScenarioService.FinishTransition | backend/internal/service/rollover_scenario_service.go:195-226 | takes exactly the protocol's commit step for a transition, says exactly when a concurrent change is reported, and keeps what every row must keep |
| ScenarioService.RolloverScenarioService.BeginReplay | backend/internal/service/rollover_scenario_service.go:227-251 | takes exactly the protocol's read and comparison for a replay |
| ScenarioService.RolloverScenarioService.FinishReplay | backend/internal/service/rollover_scenario_service.go:252-265 | takes exactly the protocol's commit step for a replay; a replay that was read from the tables never reports a difference |
| RateLimiting.RateLimiter.Request | backend/internal/middleware/auth.go:107-128 | the decision is that of a fixed window over the instants of the requests with the same key, and no other key's history changes |
| RateLimiting.LifetimeCount | backend/internal/middleware/auth.go:115-122 | a bucket lifetime of n requests admits exactly min(limit, n) of them |
| RateLimiting.LifetimeIsOneMinute | backend/internal/middleware/auth.go:115-122 | the window is fixed: a bucket keeps the instant of its first request, and all its requests come within sixty seconds of it |
| RateLimiting.RefusalMeansFull | backend/internal/middleware/auth.go:122-126 | a refusal means that `limit` requests of the key were admitted in the current bucket |
| RateLimiting.RefusalInRealTime | backend/internal/middleware/auth.go:115-126 | a refused request comes less than sixty seconds after `limit` admitted requests of its key |
| RateLimiting.AdmittedAgain | backend/internal/middleware/auth.go:115-122 | nobody is shut out: between any request and the first one at least sixty seconds later, some request is admitted |
| RateLimiting.AtMostTwiceTheLimit | backend/internal/middleware/auth.go:115-122 | over any run of a clock that does not go back, sixty seconds including both ends admit at most twice the limit per key |
| RateLimiting.TwiceTheLimitIsReached | backend/internal/middleware/auth.go:115-122 | that bound is attained for every positive limit |

## Left out

- X.509 and PEM parsing, signature verification and demo keys: a chain carries only the outcome of its validation.
- JWT, login, permission tables, request routing and handler-level permission checks: library calls or table lookups.
- Field validation of requests other than the key length, the target state and the references; trimming of keys, names and comments; the key length counts characters, not bytes.
- SQL, migrations, paging and searching: tables are maps with unique indexes. A creation freezes only the first 200 chains; the model takes any list of chains, so that list is included.
- Database failures other than a unique-index violation and a failed audit append.
- The seeded demonstration scenario is inserted in the simulated state without an audit entry, so runs start from empty tables.
- Dependency requests that overlap in time: their check and write are not atomic, so the graph invariant is stated for requests that run one after another.
- JSON and SHA-256: rows hold the decoded values; redaction and compaction of audit texts.
- Names, codes of anchors, `duration_ms` and `created_at`/`updated_at` columns of scenarios, and comments other than the rollback record.
- `sort.Slice` on records with equal identifiers, whose order Go leaves open; the model keeps such records in their given order.
- Capacity sharing between the path slices of `resolveService`: paths are values here.
- Overflow of `time.Time` itself: instants are unbounded, only durations saturate.
- `Compare`, certificate and anchor lifecycles, role permissions: one-branch facts.
- The frontend, configuration and deployment.
