/**
 The scenario store as a protocol between concurrent clients. A request first reads a row, later probes
 the idempotency key, and finally commits a conditional update with one audit record; any other client may
 act between these steps, so what was read may be stale when it is acted upon.
 */
module ScenarioProtocol {
  import opened RolloverModel
  import Simulator

  datatype ScenarioState = Draft | Simulated | Ready | Executing | Verified | Rollback

  function AllowedFrom(from: ScenarioState): seq<ScenarioState> {
    match from
    case Draft => [Simulated]
    case Simulated => [Ready, Draft]
    case Ready => [Executing, Draft]
    case Executing => [Verified, Rollback]
    case _ => []
  }

  predicate CanTransition(from: ScenarioState, to: ScenarioState) {
    to in AllowedFrom(from)
  }

  /** A stored scenario; `result` stands for the four result columns. */
  datatype Scenario = Scenario(
    id: Id, snapshot: Snapshot, inputHash: string, result: Result, state: ScenarioState,
    createdBy: Id, verifiedBy: Option<Id>, idempotencyKey: string, replayVerified: bool, rollbackRecord: string)

  const READY_TO_SIMULATE := Result([], [], [], "Frozen input is ready for offline simulation.")

  function NewDraft(snapshot: Snapshot, inputHash: string, actor: Actor): Scenario {
    Scenario(0, snapshot, inputHash, READY_TO_SIMULATE, Draft, actor.userId, None, "", false, "")
  }

  datatype Action = CreateFrozenDraft | Simulate | Transition | Replay

  datatype AuditEntry = AuditEntry(actor: Actor, entityId: Id, action: Action, before: Option<Scenario>, after: Scenario)

  datatype Tables = Tables(rows: map<Id, Scenario>, audit: seq<AuditEntry>)

  /** `requireScenarioOwnership`. */
  predicate Manages(actor: Actor, scenario: Scenario) {
    actor.role.Admin? || actor.role.PkiOperator? || scenario.createdBy == actor.userId
  }

  /** What a client holds between its reads and its commit. */
  datatype Pending =
    | PendingCreate(actor: Actor, draft: Scenario)
    | LoadedSimulation(actor: Actor, key: string, seen: Scenario)
    | PendingSimulation(actor: Actor, key: string, seen: Scenario, result: Result)
    | PendingTransition(actor: Actor, to: ScenarioState, comment: string, seen: Scenario)
    | PendingReplay(actor: Actor, seen: Scenario, passed: bool)

  datatype ScenarioError =
    | InvalidRequest | NotFound | Forbidden | KeyBoundElsewhere | NotDraft | IllegalTransition
    | ReviewerConflict | NothingToReplay | SimulationFailed | ChangedConcurrently | DuplicateInput
    | DuplicateKey | AuditFailed | ReplayDiffers

  datatype Response = Proceed(pending: Pending) | Stored(scenario: Scenario) | Refused(error: ScenarioError)

  // ---------------------------------------------------------------- reads

  predicate KeyTaken(t: Tables, key: string, except: Id) {
    exists id :: id in t.rows && id != except && t.rows[id].idempotencyKey == key
  }

  predicate InputTaken(t: Tables, draft: Scenario) {
    exists id :: id in t.rows && t.rows[id].inputHash == draft.inputHash
              && t.rows[id].snapshot.config.simulationTime == draft.snapshot.config.simulationTime
  }

  function LoadForSimulation(t: Tables, id: Id, key: string, actor: Actor): Response {
    if key == "" || |key| > 128 then Refused(InvalidRequest)
    else if id !in t.rows then Refused(NotFound)
    else if !Manages(actor, t.rows[id]) then Refused(Forbidden)
    else Proceed(LoadedSimulation(actor, key, t.rows[id]))
  }

  ghost function FindByKey(t: Tables, key: string): Option<Scenario> {
    if exists id :: id in t.rows && t.rows[id].idempotencyKey == key
    then
      var id :| id in t.rows && t.rows[id].idempotencyKey == key;
      Some(t.rows[id])
    else None
  }

  /** The second read of a simulation request, and the computation that follows it. */
  ghost function ProbeKey(t: Tables, p: Pending): Response
    requires p.LoadedSimulation?
  {
    match FindByKey(t, p.key)
    case Some(prior) => if prior.id != p.seen.id then Refused(KeyBoundElsewhere) else Stored(prior)
    case None =>
      if p.seen.state != Draft then Refused(NotDraft)
      else if !Simulator.Simulable(p.seen.snapshot) then Refused(SimulationFailed)
      else Proceed(PendingSimulation(p.actor, p.key, p.seen, Simulator.SimulationResult(p.seen.snapshot)))
  }

  function LoadForTransition(t: Tables, id: Id, to: ScenarioState, comment: string, actor: Actor): Response {
    if to == Simulated then Refused(InvalidRequest)
    else if id !in t.rows then Refused(NotFound)
    else if to != Verified && !Manages(actor, t.rows[id]) then Refused(Forbidden)
    else if !CanTransition(t.rows[id].state, to) then Refused(IllegalTransition)
    else if to == Verified && t.rows[id].createdBy == actor.userId then Refused(ReviewerConflict)
    else Proceed(PendingTransition(actor, to, comment, t.rows[id]))
  }

  ghost function LoadForReplay(t: Tables, id: Id, actor: Actor): Response {
    if id !in t.rows then Refused(NotFound)
    else if !Manages(actor, t.rows[id]) then Refused(Forbidden)
    else if t.rows[id].state == Draft then Refused(NothingToReplay)
    else if !Simulator.Simulable(t.rows[id].snapshot) then Refused(SimulationFailed)
    else
      var passed := Simulator.SimulationResult(t.rows[id].snapshot) == t.rows[id].result;
      Proceed(PendingReplay(actor, t.rows[id], passed))
  }

  // ---------------------------------------------------------------- commits

  function Apply(row: Scenario, p: Pending): Scenario
    requires p.PendingSimulation? || p.PendingTransition? || p.PendingReplay?
  {
    match p
    case PendingSimulation(_, key, _, result) => row.(state := Simulated, result := result, idempotencyKey := key)
    case PendingTransition(actor, to, comment, _) =>
      row.(state := to,
           verifiedBy := if to == Verified then Some(actor.userId) else row.verifiedBy,
           rollbackRecord := if to == Rollback then comment else row.rollbackRecord)
    case PendingReplay(_, _, passed) => row.(replayVerified := passed)
  }

  function ActionOf(p: Pending): Action {
    match p
    case PendingCreate(_, _) => CreateFrozenDraft
    case PendingTransition(_, _, _, _) => Transition
    case PendingReplay(_, _, _) => Replay
    case _ => Simulate
  }

  /** The conditional write finds its row, and no unique index objects. */
  predicate WriteSucceeds(t: Tables, p: Pending, freshId: Id) {
    match p
    case PendingCreate(_, draft) => !InputTaken(t, draft) && !KeyTaken(t, "", 0) && freshId > 0 && freshId !in t.rows
    case LoadedSimulation(_, _, _) => false
    case PendingSimulation(_, key, seen, _) =>
      seen.id in t.rows && t.rows[seen.id].state == Draft && !KeyTaken(t, key, seen.id)
    case PendingTransition(_, _, _, seen) => seen.id in t.rows && t.rows[seen.id].state == seen.state
    case PendingReplay(_, seen, _) => seen.id in t.rows
  }

  /** The audit record is written from the client's own copy of the row. */
  function EntryFor(p: Pending, freshId: Id): AuditEntry
    requires !p.LoadedSimulation?
  {
    if p.PendingCreate? then
      AuditEntry(p.actor, freshId, CreateFrozenDraft, None, p.draft.(id := freshId))
    else AuditEntry(p.actor, p.seen.id, ActionOf(p), Some(p.seen), Apply(p.seen, p))
  }

  /** One transaction: the write and its audit record, or nothing. */
  function Commit(t: Tables, p: Pending, freshId: Id, auditSucceeds: bool): Tables {
    if !WriteSucceeds(t, p, freshId) || !auditSucceeds then t
    else
      var row := if p.PendingCreate? then p.draft.(id := freshId) else Apply(t.rows[p.seen.id], p);
      Tables(t.rows[row.id := row], t.audit + [EntryFor(p, freshId)])
  }

  // ---------------------------------------------------------------- interleavings

  datatype System = System(tables: Tables, clients: map<nat, Pending>)

  datatype Step =
    | StartCreate(client: nat, snapshot: Snapshot, inputHash: string, actor: Actor)
    | StartSimulate(client: nat, id: Id, key: string, actor: Actor)
    | Probe(client: nat)
    | StartTransition(client: nat, id: Id, to: ScenarioState, comment: string, actor: Actor)
    | StartReplay(client: nat, id: Id, actor: Actor)
    | Finish(client: nat, freshId: Id, auditSucceeds: bool)

  /** The client continues with what it was given, or its request is over. */
  ghost function Receive(s: System, client: nat, response: Response): System {
    s.(clients := if response.Proceed? then s.clients[client := response.pending] else s.clients - {client})
  }

  ghost function Do(s: System, step: Step): System {
    match step
    case StartCreate(client, snapshot, inputHash, actor) =>
      Receive(s, client, if Simulator.Simulable(snapshot) then Proceed(PendingCreate(actor, NewDraft(snapshot, inputHash, actor)))
                         else Refused(SimulationFailed))
    case StartSimulate(client, id, key, actor) => Receive(s, client, LoadForSimulation(s.tables, id, key, actor))
    case Probe(client) =>
      if client in s.clients && s.clients[client].LoadedSimulation?
      then Receive(s, client, ProbeKey(s.tables, s.clients[client])) else s
    case StartTransition(client, id, to, comment, actor) =>
      Receive(s, client, LoadForTransition(s.tables, id, to, comment, actor))
    case StartReplay(client, id, actor) => Receive(s, client, LoadForReplay(s.tables, id, actor))
    case Finish(client, freshId, auditSucceeds) =>
      if client in s.clients && !s.clients[client].LoadedSimulation?
      then System(Commit(s.tables, s.clients[client], freshId, auditSucceeds), s.clients - {client}) else s
  }

  ghost function RunFrom(s: System, steps: seq<Step>): System {
    if steps == [] then s else Do(RunFrom(s, steps[..|steps|-1]), steps[|steps|-1])
  }

  const INITIAL := System(Tables(map[], []), map[])
}
