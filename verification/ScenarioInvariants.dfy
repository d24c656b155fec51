/** What holds in every state that any interleaving of scenario requests can reach. */
module ScenarioInvariants {
  import opened RolloverModel
  import opened ScenarioProtocol
  import Simulator

  // ---------------------------------------------------------------- the audit trail of one scenario

  /** The audit entries of one scenario that record a change of state, in order. */
  function Moves(audit: seq<AuditEntry>, id: Id): seq<AuditEntry> {
    if audit == [] then []
    else
      var last := audit[|audit|-1];
      var before := Moves(audit[..|audit|-1], id);
      if last.entityId == id && last.action != Replay then before + [last] else before
  }

  /** One legal step of the state machine, made by someone who is allowed to make it. */
  ghost predicate LegalMove(e: AuditEntry) {
    match e.before
    case None => e.action == CreateFrozenDraft && e.after.state == Draft && e.after.createdBy == e.actor.userId
    case Some(b) =>
      && CanTransition(b.state, e.after.state)
      && e.action == (if e.after.state == Simulated then Simulate else Transition)
      && (if e.after.state == Verified then e.actor.userId != e.after.createdBy && e.after.verifiedBy == Some(e.actor.userId)
          else Manages(e.actor, e.after))
  }

  /** The moves form a contiguous path of legal steps from creation to the state `end`. */
  ghost predicate Trail(moves: seq<AuditEntry>, end: Option<ScenarioState>) {
    if moves == [] then end == None
    else
      var last := moves[|moves|-1];
      && LegalMove(last) && end == Some(last.after.state)
      && Trail(moves[..|moves|-1], if last.before.Some? then Some(last.before.value.state) else None)
  }

  // ---------------------------------------------------------------- the invariant

  /** The columns that no request ever changes. */
  ghost predicate SameFrozen(a: Scenario, b: Scenario) {
    a.id == b.id && a.snapshot == b.snapshot && a.inputHash == b.inputHash && a.createdBy == b.createdBy
  }

  predicate Terminal(state: ScenarioState) {
    state == Verified || state == Rollback
  }

  /** Frozen columns, terminal states with what they record, and obtained results survive. */
  ghost predicate Survives(before: Scenario, after: Scenario) {
    && SameFrozen(before, after)
    && (Terminal(before.state) ==>
          after.state == before.state && after.verifiedBy == before.verifiedBy
          && after.rollbackRecord == before.rollbackRecord)
    && (before.idempotencyKey != "" ==> after.idempotencyKey != "" && after.result == before.result)
    && (before.replayVerified ==> after.replayVerified)
  }

  /** A stored or once stored scenario: simulable, with results that are those of its frozen input. */
  ghost predicate GoodScenario(s: Scenario) {
    && Simulator.Simulable(s.snapshot)
    && (s.state != Draft ==> s.idempotencyKey != "")
    && s.result == (if s.idempotencyKey != "" then Simulator.SimulationResult(s.snapshot) else READY_TO_SIMULATE)
    && (s.verifiedBy.Some? <==> s.state == Verified)
    && s.verifiedBy != Some(s.createdBy)
    && (s.rollbackRecord != "" ==> s.state == Rollback)
  }

  ghost predicate GoodRows(t: Tables) {
    forall id :: id in t.rows ==> id > 0 && t.rows[id].id == id && GoodScenario(t.rows[id])
  }

  /** The unique index on the idempotency key, which covers the empty key as well. */
  ghost predicate KeysDistinct(t: Tables) {
    forall a, b :: a in t.rows && b in t.rows && t.rows[a].idempotencyKey == t.rows[b].idempotencyKey ==> a == b
  }

  ghost predicate SameInput(a: Scenario, b: Scenario) {
    a.inputHash == b.inputHash && a.snapshot.config.simulationTime == b.snapshot.config.simulationTime
  }

  /** Neither unique index objects to storing both rows. */
  ghost predicate ApartFrom(a: Scenario, b: Scenario) {
    a.idempotencyKey != b.idempotencyKey && !SameInput(a, b)
  }

  /** The unique index on the frozen input. */
  ghost predicate InputsDistinct(t: Tables) {
    forall a, b :: a in t.rows && b in t.rows && SameInput(t.rows[a], t.rows[b]) ==> a == b
  }

  function StateIn(t: Tables, id: Id): Option<ScenarioState> {
    if id in t.rows then Some(t.rows[id].state) else None
  }

  ghost predicate TrailsEndAtRows(t: Tables) {
    forall id :: Trail(Moves(t.audit, id), StateIn(t, id))
  }

  ghost predicate GoodAudit(t: Tables) {
    forall e :: e in t.audit ==>
      && e.entityId in t.rows && SameFrozen(e.after, t.rows[e.entityId])
      && (e.action == Replay ==> e.after.replayVerified)
  }

  /** A scenario as some client once read it. */
  ghost predicate OnceRead(t: Tables, seen: Scenario) {
    seen.id in t.rows && Survives(seen, t.rows[seen.id]) && GoodScenario(seen)
  }

  ghost predicate GoodPending(t: Tables, p: Pending) {
    match p
    case PendingCreate(actor, draft) =>
      draft == NewDraft(draft.snapshot, draft.inputHash, actor) && Simulator.Simulable(draft.snapshot)
    case LoadedSimulation(actor, key, seen) => OnceRead(t, seen) && key != "" && Manages(actor, seen)
    case PendingSimulation(actor, key, seen, result) =>
      && OnceRead(t, seen) && key != "" && Manages(actor, seen) && seen.state == Draft
      && result == Simulator.SimulationResult(seen.snapshot)
    case PendingTransition(actor, to, _, seen) =>
      && OnceRead(t, seen) && to != Simulated && CanTransition(seen.state, to)
      && (if to == Verified then seen.createdBy != actor.userId else Manages(actor, seen))
    case PendingReplay(actor, seen, passed) =>
      OnceRead(t, seen) && seen.state != Draft && Manages(actor, seen) && passed
  }

  ghost predicate GoodTables(t: Tables) {
    GoodRows(t) && KeysDistinct(t) && InputsDistinct(t) && TrailsEndAtRows(t) && GoodAudit(t)
  }

  ghost predicate Inv(s: System) {
    GoodTables(s.tables) && forall c :: c in s.clients ==> GoodPending(s.tables, s.clients[c])
  }

  // ---------------------------------------------------------------- reads keep the invariant

  /** Whatever a read lets a client proceed with is justified by the tables. */
  lemma SimulationLoadIsGood(t: Tables, id: Id, key: string, actor: Actor)
    requires GoodRows(t)
    ensures var r := LoadForSimulation(t, id, key, actor); r.Proceed? ==> GoodPending(t, r.pending)
  {
    hide Simulator.Simulable;
    hide Simulator.SimulationResult;
  }

  lemma TransitionLoadIsGood(t: Tables, id: Id, to: ScenarioState, comment: string, actor: Actor)
    requires GoodRows(t)
    ensures var r := LoadForTransition(t, id, to, comment, actor); r.Proceed? ==> GoodPending(t, r.pending)
  {
    hide Simulator.Simulable;
    hide Simulator.SimulationResult;
  }

  /** A replay that starts from a good row always passes. */
  lemma ReplayLoadIsGood(t: Tables, id: Id, actor: Actor)
    requires GoodRows(t)
    ensures var r := LoadForReplay(t, id, actor); r.Proceed? ==> GoodPending(t, r.pending)
    ensures LoadForReplay(t, id, actor) != Refused(SimulationFailed)
  {
    hide Simulator.Simulable;
    hide Simulator.SimulationResult;
  }

  lemma ProbeIsGood(t: Tables, p: Pending)
    requires GoodRows(t) && p.LoadedSimulation? && GoodPending(t, p)
    ensures ProbeKey(t, p).Proceed? ==> GoodPending(t, ProbeKey(t, p).pending)
    ensures ProbeKey(t, p) != Refused(SimulationFailed)
  {
    hide Simulator.Simulable;
    hide Simulator.SimulationResult;
  }

  // ---------------------------------------------------------------- commits keep the invariant

  /** The row that a successful commit writes. */
  ghost function Written(t: Tables, p: Pending, freshId: Id): Scenario
    requires WriteSucceeds(t, p, freshId)
  {
    if p.PendingCreate? then p.draft.(id := freshId) else Apply(t.rows[p.seen.id], p)
  }

  lemma WrittenRowIsGood(t: Tables, p: Pending, freshId: Id)
    requires GoodTables(t) && GoodPending(t, p) && WriteSucceeds(t, p, freshId)
    ensures var row := Written(t, p, freshId);
            && row.id > 0 && GoodScenario(row)
            && (row.id in t.rows ==> Survives(t.rows[row.id], row))
            && SameFrozen(EntryFor(p, freshId).after, row)
            && EntryFor(p, freshId).entityId == row.id
            && EntryFor(p, freshId).after.state == (if p.PendingReplay? then p.seen.state else row.state)
  {
    hide Simulator.Simulable;
    hide Simulator.SimulationResult;
  }

  /** The unique indexes let the written row in only when it clashes with no other row. */
  lemma WrittenRowIsUnique(t: Tables, p: Pending, freshId: Id, other: Id)
    requires GoodTables(t) && GoodPending(t, p) && WriteSucceeds(t, p, freshId)
    requires other in t.rows && other != Written(t, p, freshId).id
    ensures ApartFrom(t.rows[other], Written(t, p, freshId))
  {
    hide Simulator.Simulable;
    hide Simulator.SimulationResult;
    if !p.PendingCreate? {
      var seen := t.rows[p.seen.id];
      assert seen.id == p.seen.id;
      assert !SameInput(t.rows[other], seen);
    }
  }

  lemma CommitKeepsIndexes(t: Tables, p: Pending, freshId: Id)
    requires GoodTables(t) && GoodPending(t, p) && WriteSucceeds(t, p, freshId)
    ensures var after := Commit(t, p, freshId, true);
            GoodRows(after) && KeysDistinct(after) && InputsDistinct(after)
  {
    hide Simulator.Simulable;
    hide Simulator.SimulationResult;
    WrittenRowIsGood(t, p, freshId);
    var row := Written(t, p, freshId);
    forall other | other in t.rows && other != row.id ensures ApartFrom(t.rows[other], row) {
      WrittenRowIsUnique(t, p, freshId, other);
    }
    assert Commit(t, p, freshId, true) == Tables(t.rows[row.id := row], t.audit + [EntryFor(p, freshId)]);
    UniqueRowKeepsIndexes(t, row, t.audit + [EntryFor(p, freshId)]);
  }

  lemma UniqueRowKeepsIndexes(t: Tables, row: Scenario, audit: seq<AuditEntry>)
    requires GoodRows(t) && KeysDistinct(t) && InputsDistinct(t) && row.id > 0 && GoodScenario(row)
    requires forall other :: other in t.rows && other != row.id ==> ApartFrom(t.rows[other], row)
    ensures var after := Tables(t.rows[row.id := row], audit);
            GoodRows(after) && KeysDistinct(after) && InputsDistinct(after)
  {
    hide GoodScenario;
  }

  /** A commit that is not a replay appends one legal move that starts at the stored state. */
  lemma CommitIsLegalMove(t: Tables, p: Pending, freshId: Id)
    requires GoodTables(t) && GoodPending(t, p) && WriteSucceeds(t, p, freshId) && !p.PendingReplay?
    ensures var e := EntryFor(p, freshId);
            && LegalMove(e) && e.action != Replay
            && (if e.entityId in t.rows then e.before.Some? && e.before.value.state == t.rows[e.entityId].state
                else e.before.None?)
  {
  }

  lemma CommitKeepsTrails(t: Tables, p: Pending, freshId: Id)
    requires GoodTables(t) && GoodPending(t, p) && WriteSucceeds(t, p, freshId)
    ensures TrailsEndAtRows(Commit(t, p, freshId, true))
  {
    hide Simulator.Simulable;
    hide Simulator.SimulationResult;
    hide LegalMove;
    hide GoodScenario;
    var e, row := EntryFor(p, freshId), Written(t, p, freshId);
    var after := Commit(t, p, freshId, true);
    WrittenRowIsGood(t, p, freshId);
    assert after.audit[..|after.audit|-1] == t.audit;
    if !p.PendingReplay? {
      CommitIsLegalMove(t, p, freshId);
    }
    forall id ensures Trail(Moves(after.audit, id), StateIn(after, id)) {
      assert Trail(Moves(t.audit, id), StateIn(t, id));
      if id == row.id && !p.PendingReplay? {
        TrailExtends(Moves(t.audit, id), StateIn(t, id), e);
      }
    }
  }

  lemma TrailExtends(moves: seq<AuditEntry>, end: Option<ScenarioState>, e: AuditEntry)
    requires Trail(moves, end) && LegalMove(e)
    requires end == (if e.before.Some? then Some(e.before.value.state) else None)
    ensures Trail(moves + [e], Some(e.after.state))
  {
    hide LegalMove;
    assert (moves + [e])[..|moves|] == moves;
  }

  lemma CommitKeepsAudit(t: Tables, p: Pending, freshId: Id)
    requires GoodTables(t) && GoodPending(t, p) && WriteSucceeds(t, p, freshId)
    ensures GoodAudit(Commit(t, p, freshId, true))
  {
    hide Simulator.Simulable;
    hide Simulator.SimulationResult;
    WrittenRowIsGood(t, p, freshId);
    var e, row := EntryFor(p, freshId), Written(t, p, freshId);
    var after := Commit(t, p, freshId, true);
    forall x | x in after.audit
      ensures x.entityId in after.rows && SameFrozen(x.after, after.rows[x.entityId])
      ensures x.action == Replay ==> x.after.replayVerified
    {
      if x != e { assert x in t.audit; }
    }
  }

  lemma CommitKeepsTables(t: Tables, p: Pending, freshId: Id, auditSucceeds: bool)
    requires GoodTables(t) && GoodPending(t, p) && !p.LoadedSimulation?
    ensures GoodTables(Commit(t, p, freshId, auditSucceeds))
  {
    if WriteSucceeds(t, p, freshId) && auditSucceeds {
      CommitKeepsIndexes(t, p, freshId);
      CommitKeepsTrails(t, p, freshId);
      CommitKeepsAudit(t, p, freshId);
    }
  }

  /** A commit may change other columns, but frozen input, results and terminal states survive it. */
  lemma CommitPreserves(t: Tables, p: Pending, freshId: Id, auditSucceeds: bool, id: Id)
    requires GoodTables(t) && GoodPending(t, p) && !p.LoadedSimulation? && id in t.rows
    ensures var after := Commit(t, p, freshId, auditSucceeds);
            id in after.rows && Survives(t.rows[id], after.rows[id])
  {
    hide GoodTables;
    hide GoodPending;
    hide GoodScenario;
    hide Survives;
    hide WriteSucceeds;
    SurvivesUnchanged(t.rows[id]);
    if WriteSucceeds(t, p, freshId) && auditSucceeds {
      WrittenRowIsGood(t, p, freshId);
      CommitWritesRow(t, p, freshId);
    }
  }

  lemma CommitWritesRow(t: Tables, p: Pending, freshId: Id)
    requires WriteSucceeds(t, p, freshId)
    ensures var row := Written(t, p, freshId);
            Commit(t, p, freshId, true) == Tables(t.rows[row.id := row], t.audit + [EntryFor(p, freshId)])
  {
  }

  lemma SurvivesUnchanged(row: Scenario)
    ensures Survives(row, row)
  {
  }

  /** Other clients' stale reads stay justified, because what they rely on survives. */
  lemma CommitKeepsOthers(t: Tables, p: Pending, freshId: Id, auditSucceeds: bool, other: Pending)
    requires GoodTables(t) && GoodPending(t, p) && !p.LoadedSimulation? && GoodPending(t, other)
    ensures GoodPending(Commit(t, p, freshId, auditSucceeds), other)
  {
    hide Simulator.Simulable;
    hide Simulator.SimulationResult;
    hide GoodScenario;
    hide Commit;
    if !other.PendingCreate? {
      CommitPreserves(t, p, freshId, auditSucceeds, other.seen.id);
    }
  }

  lemma StepKeepsInv(s: System, step: Step)
    requires Inv(s)
    ensures Inv(Do(s, step))
  {
    hide Simulator.Simulable;
    hide Simulator.SimulationResult;
    match step
    case StartCreate(client, snapshot, inputHash, actor) =>
    case StartSimulate(client, id, key, actor) => SimulationLoadIsGood(s.tables, id, key, actor);
    case Probe(client) =>
      if client in s.clients && s.clients[client].LoadedSimulation? {
        ProbeIsGood(s.tables, s.clients[client]);
      }
    case StartTransition(client, id, to, comment, actor) => TransitionLoadIsGood(s.tables, id, to, comment, actor);
    case StartReplay(client, id, actor) => ReplayLoadIsGood(s.tables, id, actor);
    case Finish(client, freshId, auditSucceeds) =>
      if client in s.clients && !s.clients[client].LoadedSimulation? {
        var p := s.clients[client];
        CommitKeepsTables(s.tables, p, freshId, auditSucceeds);
        forall c | c in s.clients ensures GoodPending(Do(s, step).tables, s.clients[c]) {
          CommitKeepsOthers(s.tables, p, freshId, auditSucceeds, s.clients[c]);
        }
      }
  }

  /** Every interleaving, of any length, keeps the invariant. */
  lemma {:induction false} RunKeepsInv(s: System, steps: seq<Step>)
    requires Inv(s)
    ensures Inv(RunFrom(s, steps))
  {
    if steps == [] {
    } else {
      RunKeepsInv(s, steps[..|steps|-1]);
      StepKeepsInv(RunFrom(s, steps[..|steps|-1]), steps[|steps|-1]);
    }
  }

  lemma EveryRunIsGood(steps: seq<Step>)
    ensures Inv(RunFrom(INITIAL, steps))
  {
    RunKeepsInv(INITIAL, steps);
  }
}
