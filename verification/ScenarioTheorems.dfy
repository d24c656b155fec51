/** The promises of the scenario store over all interleavings, read off the invariant. */
module ScenarioTheorems {
  import opened RolloverModel
  import opened ScenarioProtocol
  import opened ScenarioInvariants
  import Simulator

  // ---------------------------------------------------------------- one audit entry per change

  /** The effect of appending entry `e`: one row changes, and the entry tells from which state to which. */
  ghost predicate ChangedBy(before: Tables, after: Tables, e: AuditEntry) {
    && after.audit == before.audit + [e]
    && e.entityId in after.rows && after.rows == before.rows[e.entityId := after.rows[e.entityId]]
    && (e.action == CreateFrozenDraft <==> e.entityId !in before.rows)
    && (e.action == Simulate ==> e.after.state == Simulated)
    && (e.action == Replay ==>
          after.rows[e.entityId] == before.rows[e.entityId].(replayVerified := true))
    && (e.action != Replay ==>
          && after.rows[e.entityId].state == e.after.state
          && e.before.Some? == (e.entityId in before.rows)
          && (e.before.Some? ==> e.before.value.state == before.rows[e.entityId].state))
  }

  lemma CommitIsAudited(t: Tables, p: Pending, freshId: Id)
    requires GoodTables(t) && GoodPending(t, p) && WriteSucceeds(t, p, freshId)
    ensures ChangedBy(t, Commit(t, p, freshId, true), EntryFor(p, freshId))
  {
    hide Simulator.Simulable;
    hide Simulator.SimulationResult;
    WrittenRowIsGood(t, p, freshId);
    if !p.PendingReplay? {
      CommitIsLegalMove(t, p, freshId);
    }
  }

  /** A step changes nothing, or one row together with exactly one new audit entry. */
  lemma EveryChangeIsAudited(s: System, step: Step)
    requires Inv(s)
    ensures Do(s, step).tables == s.tables || exists e :: ChangedBy(s.tables, Do(s, step).tables, e)
  {
    hide Simulator.Simulable;
    hide Simulator.SimulationResult;
    if step.Finish? && step.client in s.clients && !s.clients[step.client].LoadedSimulation? {
      var p := s.clients[step.client];
      if WriteSucceeds(s.tables, p, step.freshId) && step.auditSucceeds {
        CommitIsAudited(s.tables, p, step.freshId);
      }
    }
  }

  // ---------------------------------------------------------------- what later steps preserve

  lemma StepPreserves(s: System, step: Step, id: Id)
    requires Inv(s) && id in s.tables.rows
    ensures id in Do(s, step).tables.rows && Survives(s.tables.rows[id], Do(s, step).tables.rows[id])
  {
    hide Simulator.Simulable;
    hide Simulator.SimulationResult;
    hide Survives;
    if step.Finish? && step.client in s.clients && !s.clients[step.client].LoadedSimulation? {
      CommitPreserves(s.tables, s.clients[step.client], step.freshId, step.auditSucceeds, id);
    } else {
      SurvivesUnchanged(s.tables.rows[id]);
    }
  }

  /** Whatever happens later, a scenario keeps its frozen input, its results and its terminal state. */
  lemma {:induction false} RunPreserves(s: System, steps: seq<Step>, id: Id)
    requires Inv(s) && id in s.tables.rows
    ensures id in RunFrom(s, steps).tables.rows
    ensures Survives(s.tables.rows[id], RunFrom(s, steps).tables.rows[id])
  {
    hide Simulator.Simulable;
    hide Simulator.SimulationResult;
    if steps == [] {
    } else {
      var init := steps[..|steps|-1];
      RunPreserves(s, init, id);
      RunKeepsInv(s, init);
      StepPreserves(RunFrom(s, init), steps[|steps|-1], id);
    }
  }

  /** A replay of anything but a draft is never refused and always passes, whatever happened before. */
  lemma ReplayAlwaysPasses(steps: seq<Step>, id: Id, actor: Actor)
    ensures var t := RunFrom(INITIAL, steps).tables;
            && (id in t.rows && Manages(actor, t.rows[id]) && t.rows[id].state != Draft ==>
                  LoadForReplay(t, id, actor) == Proceed(PendingReplay(actor, t.rows[id], true)))
            && forall e :: e in t.audit && e.action == Replay ==> e.after.replayVerified
  {
    hide Simulator.Simulable;
    hide Simulator.SimulationResult;
    EveryRunIsGood(steps);
    ReplayLoadIsGood(RunFrom(INITIAL, steps).tables, id, actor);
  }

  /** A stored non-draft scenario carries exactly the simulation result of its frozen input. */
  lemma StoredResultsAreSimulations(steps: seq<Step>, id: Id)
    ensures var t := RunFrom(INITIAL, steps).tables;
            id in t.rows && t.rows[id].state != Draft ==>
              t.rows[id].result == Simulator.SimulationResult(t.rows[id].snapshot)
  {
    hide Simulator.Simulable;
    hide Simulator.SimulationResult;
    EveryRunIsGood(steps);
  }

  /** A verifier is recorded exactly in `verified`, and is never the scenario's creator. */
  lemma VerifierIsIndependent(steps: seq<Step>, id: Id)
    ensures var t := RunFrom(INITIAL, steps).tables;
            id in t.rows ==>
              && (t.rows[id].verifiedBy.Some? <==> t.rows[id].state == Verified)
              && t.rows[id].verifiedBy != Some(t.rows[id].createdBy)
              && (t.rows[id].rollbackRecord != "" ==> t.rows[id].state == Rollback)
  {
    hide Simulator.Simulable;
    hide Simulator.SimulationResult;
    EveryRunIsGood(steps);
  }

  // ---------------------------------------------------------------- the audit trail

  /** The move starts in the state in which the one before it ended; the first one starts from nothing. */
  ghost predicate Continues(moves: seq<AuditEntry>, i: nat)
    requires i < |moves|
  {
    if i == 0 then moves[i].before.None?
    else moves[i].before.Some? && moves[i].before.value.state == moves[i-1].after.state
  }

  lemma {:induction false} TrailStep(moves: seq<AuditEntry>, end: Option<ScenarioState>, i: nat)
    requires Trail(moves, end) && i < |moves|
    ensures LegalMove(moves[i]) && Continues(moves, i)
  {
    var last := moves[|moves|-1];
    var init := moves[..|moves|-1];
    if i == |init| {
    } else {
      TrailStep(init, if last.before.Some? then Some(last.before.value.state) else None, i);
    }
  }

  /** Legal moves, each starting in the state in which the one before it ended. */
  ghost predicate Contiguous(moves: seq<AuditEntry>) {
    forall i :: 0 <= i < |moves| ==> LegalMove(moves[i]) && Continues(moves, i)
  }

  lemma TrailIsContiguous(moves: seq<AuditEntry>, end: Option<ScenarioState>)
    requires Trail(moves, end)
    ensures Contiguous(moves)
  {
    hide Trail;
    hide LegalMove;
    hide Continues;
    forall i | 0 <= i < |moves| ensures LegalMove(moves[i]) && Continues(moves, i) {
      TrailStep(moves, end, i);
    }
  }

  /** The state changes of a scenario form a contiguous legal path that ends at its stored state. */
  lemma AuditTrailIsContiguous(steps: seq<Step>, id: Id)
    ensures var t := RunFrom(INITIAL, steps).tables;
            var moves := Moves(t.audit, id);
            && Contiguous(moves)
            && (id in t.rows ==> moves != [] && moves[|moves|-1].after.state == t.rows[id].state)
            && (id !in t.rows ==> moves == [])
  {
    hide Simulator.Simulable;
    hide Simulator.SimulationResult;
    EveryRunIsGood(steps);
    var t := RunFrom(INITIAL, steps).tables;
    TrailIsContiguous(Moves(t.audit, id), if id in t.rows then Some(t.rows[id].state) else None);
  }

  /** Between two simulations of one scenario lies a return to draft: at most one commits per stay in draft. */
  lemma {:induction false} OneSimulationPerDraft(moves: seq<AuditEntry>, end: Option<ScenarioState>, i: nat, j: nat)
    requires Trail(moves, end) && i < j < |moves|
    requires moves[i].action == Simulate && moves[j].action == Simulate
    ensures exists k :: i < k < j && moves[k].after.state == Draft
  {
    TrailStep(moves, end, i);
    TrailStep(moves, end, j);
    assert moves[i].after.state == Simulated;
    assert moves[j-1].after.state == Draft;
  }

  /** The log entry, written at position `from` or later, that records a return of the scenario to draft. */
  ghost predicate ReturnRecorded(audit: seq<AuditEntry>, id: Id, from: nat) {
    exists k :: from <= k < |audit| && audit[k].entityId == id && audit[k].action == Transition
             && audit[k].after.state == Draft
  }

  /** Whoever leaves draft gets back there only through a recorded transition. */
  lemma {:induction false} ReturnIsRecorded(s: System, steps: seq<Step>, id: Id)
    requires Inv(s) && id in s.tables.rows && s.tables.rows[id].state != Draft
    ensures var t := RunFrom(s, steps).tables;
            && s.tables.audit <= t.audit && id in t.rows
            && (t.rows[id].state == Draft ==> ReturnRecorded(t.audit, id, |s.tables.audit|))
  {
    hide Simulator.Simulable;
    hide Simulator.SimulationResult;
    hide Do;
    hide Inv;
    if steps == [] {
    } else {
      var init, step := steps[..|steps|-1], steps[|steps|-1];
      var before := RunFrom(s, init);
      ReturnIsRecorded(s, init, id);
      RunKeepsInv(s, init);
      StepPreserves(before, step, id);
      StepReturns(before, step, id, |s.tables.audit|);
    }
  }

  lemma StepReturns(s: System, step: Step, id: Id, from: nat)
    requires Inv(s) && id in s.tables.rows && from <= |s.tables.audit|
    requires s.tables.rows[id].state == Draft ==> ReturnRecorded(s.tables.audit, id, from)
    ensures var t := Do(s, step).tables;
            && s.tables.audit <= t.audit
            && (id in t.rows && t.rows[id].state == Draft ==> ReturnRecorded(t.audit, id, from))
  {
    EveryChangeIsAudited(s, step);
    hide Do;
    hide Inv;
    if Do(s, step).tables != s.tables {
      var e :| ChangedBy(s.tables, Do(s, step).tables, e);
      ChangeReturns(s.tables, Do(s, step).tables, e, id, from);
    }
  }

  lemma ChangeReturns(before: Tables, after: Tables, e: AuditEntry, id: Id, from: nat)
    requires ChangedBy(before, after, e) && id in before.rows && from <= |before.audit|
    requires before.rows[id].state == Draft ==> ReturnRecorded(before.audit, id, from)
    ensures before.audit <= after.audit && id in after.rows
    ensures after.rows[id].state == Draft ==> ReturnRecorded(after.audit, id, from)
  {
    if ReturnRecorded(before.audit, id, from) {
      var k :| from <= k < |before.audit| && before.audit[k].entityId == id
            && before.audit[k].action == Transition && before.audit[k].after.state == Draft;
      assert after.audit[k] == before.audit[k];
    } else if e.entityId == id && after.rows[id].state == Draft {
      assert after.audit[|before.audit|] == e;
    }
  }

  /**
   Two clients hold simulations of the same scenario, and the first commits. Whatever is done then, the
   second commit changes nothing unless the log records that the scenario was returned to draft meanwhile.
   */
  lemma SecondSimulationRollsBack(s: System, first: nat, second: Pending, steps: seq<Step>, freshId: Id,
                                  auditSucceeds: bool)
    requires Inv(s) && first in s.clients && s.clients[first].PendingSimulation?
    requires second.PendingSimulation? && second.seen.id == s.clients[first].seen.id
    requires WriteSucceeds(s.tables, s.clients[first], 0)
    ensures var committed := Do(s, Finish(first, 0, true));
            var later := RunFrom(committed, steps).tables;
            Commit(later, second, freshId, auditSucceeds) != later ==>
              ReturnRecorded(later.audit, second.seen.id, |committed.tables.audit|)
  {
    hide Simulator.Simulable;
    hide Simulator.SimulationResult;
    var id, committed := second.seen.id, Do(s, Finish(first, 0, true));
    StepKeepsInv(s, Finish(first, 0, true));
    FirstCommitLeavesDraft(s, first);
    ReturnIsRecorded(committed, steps, id);
    hide Inv;
    hide Do;
  }

  lemma FirstCommitLeavesDraft(s: System, first: nat)
    requires Inv(s) && first in s.clients && s.clients[first].PendingSimulation?
    requires WriteSucceeds(s.tables, s.clients[first], 0)
    ensures var t, id := Do(s, Finish(first, 0, true)).tables, s.clients[first].seen.id;
            id in t.rows && t.rows[id].state == Simulated
  {
    hide Simulator.Simulable;
    hide Simulator.SimulationResult;
    hide GoodScenario;
  }

  // ---------------------------------------------------------------- idempotency keys

  /** Repeating a request under the scenario's current key returns the stored row and changes nothing. */
  lemma RetryReturnsStored(s: System, client: nat, id: Id, key: string, actor: Actor)
    requires Inv(s) && id in s.tables.rows && Manages(actor, s.tables.rows[id])
    requires key == s.tables.rows[id].idempotencyKey && 0 < |key| <= 128
    ensures var loaded := Do(s, StartSimulate(client, id, key, actor));
            && client in loaded.clients && loaded.clients[client].LoadedSimulation?
            && ProbeKey(loaded.tables, loaded.clients[client]) == Stored(s.tables.rows[id])
            && Do(loaded, Probe(client)).tables == s.tables
  {
    hide Simulator.Simulable;
    hide Simulator.SimulationResult;
  }

  /** A repeated request is recognised exactly when its key is still the one the scenario holds. */
  lemma RetryIsRecognisedIffCurrent(t: Tables, p: Pending)
    requires p.LoadedSimulation? && p.seen.id in t.rows && KeysDistinct(t)
    requires forall id :: id in t.rows ==> t.rows[id].id == id
    ensures ProbeKey(t, p).Stored? <==> t.rows[p.seen.id].idempotencyKey == p.key
  {
    hide Simulator.Simulable;
    hide Simulator.SimulationResult;
  }

  /** After a new simulation under another key the old key is forgotten: its retry is refused, not answered. */
  lemma SupersededKeyIsForgotten(steps: seq<Step>, client: nat, id: Id, key: string, actor: Actor)
    requires var t := RunFrom(INITIAL, steps).tables;
             id in t.rows && t.rows[id].state == Simulated && !KeyTaken(t, key, 0)
    requires actor.role.Admin? && 0 < |key| <= 128
    ensures var s := RunFrom(INITIAL, steps);
            var t := Resimulate(s, client, id, key, actor).tables;
            && id in t.rows
            && ProbeKey(t, LoadedSimulation(actor, s.tables.rows[id].idempotencyKey, t.rows[id])) == Refused(NotDraft)
  {
    hide Simulator.Simulable;
    hide Simulator.SimulationResult;
    EveryRunIsGood(steps);
    ResimulateEffect(RunFrom(INITIAL, steps), client, id, key, actor);
  }

  /** A key that another scenario holds is refused when probed, and rolls back when it was taken meanwhile. */
  lemma ForeignKeyNeverCommits(t: Tables, p: Pending, other: Id, freshId: Id, auditSucceeds: bool)
    requires p.LoadedSimulation? || p.PendingSimulation?
    requires other in t.rows && other != p.seen.id && t.rows[other].id == other && KeysDistinct(t)
    requires t.rows[other].idempotencyKey == p.key
    ensures p.LoadedSimulation? ==> ProbeKey(t, p) == Refused(KeyBoundElsewhere)
    ensures Commit(t, p, freshId, auditSucceeds) == t
  {
    hide Simulator.Simulable;
    hide Simulator.SimulationResult;
  }

  /**
   The unique index covers the empty key, so at most one scenario can be waiting for its first simulation,
   and no other scenario can be created until it has been simulated.
   */
  lemma OneUnsimulatedScenario(steps: seq<Step>, id: Id, p: Pending, freshId: Id)
    requires p.PendingCreate?
    ensures var t := RunFrom(INITIAL, steps).tables;
            id in t.rows && t.rows[id].idempotencyKey == "" ==>
              && (forall other :: other in t.rows && other != id ==> t.rows[other].idempotencyKey != "")
              && !WriteSucceeds(t, p, freshId)
  {
    hide Simulator.Simulable;
    hide Simulator.SimulationResult;
    EveryRunIsGood(steps);
  }

  ghost predicate Unsimulated(t: Tables) {
    exists id :: id in t.rows && t.rows[id].idempotencyKey == ""
  }

  /** A creation commits exactly when its input is new and no scenario is waiting for its first simulation. */
  lemma CreationSucceedsExactlyWhen(steps: seq<Step>, p: Pending, freshId: Id)
    requires p.PendingCreate? && freshId > 0 && freshId !in RunFrom(INITIAL, steps).tables.rows
    ensures var t := RunFrom(INITIAL, steps).tables;
            WriteSucceeds(t, p, freshId) <==> !InputTaken(t, p.draft) && !Unsimulated(t)
  {
    EveryRunIsGood(steps);
    FreeOfEmptyKey(RunFrom(INITIAL, steps).tables);
  }

  lemma FreeOfEmptyKey(t: Tables)
    requires GoodTables(t)
    ensures KeyTaken(t, "", 0) <==> Unsimulated(t)
  {
    hide GoodScenario;
  }

  /** Reporting a refused creation as an identical input is wrong exactly for a new input while one is waiting. */
  lemma RefusalIsTruthfulExactlyWhen(steps: seq<Step>, p: Pending, freshId: Id)
    requires p.PendingCreate? && freshId > 0 && freshId !in RunFrom(INITIAL, steps).tables.rows
    ensures var t := RunFrom(INITIAL, steps).tables;
            (!WriteSucceeds(t, p, freshId) ==> InputTaken(t, p.draft)) <==> (Unsimulated(t) ==> InputTaken(t, p.draft))
  {
    CreationSucceedsExactlyWhen(steps, p, freshId);
  }

  // ---------------------------------------------------------------- what the audit entries record

  /** Nothing that can change between a read and a successful commit has changed. */
  ghost predicate SameVersion(seen: Scenario, row: Scenario) {
    && seen.state == row.state && seen.idempotencyKey == row.idempotencyKey
    && seen.replayVerified == row.replayVerified
  }

  lemma VersionsDetermineRows(seen: Scenario, row: Scenario)
    requires GoodScenario(seen) && GoodScenario(row) && Survives(seen, row)
    ensures seen == row <==> SameVersion(seen, row)
  {
    hide Simulator.Simulable;
    hide Simulator.SimulationResult;
  }

  /**
   The entry that a commit appends agrees with the row before and after exactly when state, key and replay
   flag are still those that were read. Its later half can agree although the earlier one does not.
   */
  lemma EntryIsTrueExactlyWhen(t: Tables, p: Pending, freshId: Id)
    requires GoodTables(t) && GoodPending(t, p) && WriteSucceeds(t, p, freshId) && !p.PendingCreate?
    ensures var e, row := EntryFor(p, freshId), t.rows[p.seen.id];
            && (e.before == Some(row) <==> SameVersion(p.seen, row))
            && (e.after == Written(t, p, freshId) <==>
                  && (!p.PendingSimulation? ==> p.seen.state == row.state && p.seen.idempotencyKey == row.idempotencyKey)
                  && (!p.PendingReplay? ==> p.seen.replayVerified == row.replayVerified))
  {
    hide Simulator.Simulable;
    hide Simulator.SimulationResult;
    var seen, row := p.seen, t.rows[p.seen.id];
    VersionsDetermineRows(seen, row);
    match p
    case PendingReplay(_, _, _) => VersionsDetermineRows(seen.(replayVerified := true), row.(replayVerified := true));
    case _ =>
  }

  /** The same over every run, for the entry appended and the rows stored before and after. */
  lemma AuditIsTrueExactlyWhen(steps: seq<Step>, client: nat, freshId: Id)
    requires var s := RunFrom(INITIAL, steps);
             && client in s.clients && !s.clients[client].PendingCreate?
             && WriteSucceeds(s.tables, s.clients[client], freshId)
    ensures var s := RunFrom(INITIAL, steps);
            var after, seen := Do(s, Finish(client, freshId, true)).tables, s.clients[client].seen;
            && |after.audit| == |s.tables.audit| + 1 && seen.id in s.tables.rows && seen.id in after.rows
            && var e := after.audit[|s.tables.audit|];
               (e.before == Some(s.tables.rows[seen.id]) && e.after == after.rows[seen.id])
               <==> SameVersion(seen, s.tables.rows[seen.id])
  {
    hide Simulator.Simulable;
    hide Simulator.SimulationResult;
    EveryRunIsGood(steps);
    var s := RunFrom(INITIAL, steps);
    EntryIsTrueExactlyWhen(s.tables, s.clients[client], freshId);
    WrittenRowIsGood(s.tables, s.clients[client], freshId);
    hide GoodScenario;
    hide Survives;
  }

  /** A creation's entry always agrees with the row that it stores. */
  lemma CreationEntryIsTrue(t: Tables, p: Pending, freshId: Id)
    requires p.PendingCreate? && WriteSucceeds(t, p, freshId)
    ensures var e, after := EntryFor(p, freshId), Commit(t, p, freshId, true);
            e.before.None? && freshId !in t.rows && freshId in after.rows && e.after == after.rows[freshId]
  {
  }

  // ---------------------------------------------------------------- ABA

  /** One client returns the scenario to draft and simulates it again under a new key. */
  ghost function Resimulate(s: System, client: nat, id: Id, key: string, actor: Actor): System {
    var drafted := Do(Do(s, StartTransition(client, id, Draft, "", actor)), Finish(client, 0, true));
    Do(Do(Do(drafted, StartSimulate(client, id, key, actor)), Probe(client)), Finish(client, 0, true))
  }

  /**
   A transition read before a return to draft and a new simulation still commits afterwards, because the
   state is simulated again. The trail of states stays contiguous, but the audit entry records the client's
   stale copy: its snapshots carry the old key while the stored row carries the new one.
   */
  lemma StaleTransitionCommits(steps: seq<Step>, slow: nat, fast: nat, id: Id, key: string, actor: Actor)
    requires var t := RunFrom(INITIAL, steps).tables;
             id in t.rows && t.rows[id].state == Simulated && !KeyTaken(t, key, 0)
    requires slow != fast && actor.role.Admin? && 0 < |key| <= 128
    ensures var s := RunFrom(INITIAL, steps);
            var row := s.tables.rows[id];
            var read := Do(s, StartTransition(slow, id, Ready, "", actor));
            var end := Do(Resimulate(read, fast, id, key, actor), Finish(slow, 0, true)).tables;
            && id in end.rows && end.rows[id].state == Ready && end.rows[id].idempotencyKey == key
            && |end.audit| == |s.tables.audit| + 3
            && end.audit[|s.tables.audit| + 2] ==
               AuditEntry(actor, id, Transition, Some(row), row.(state := Ready))
            && row.idempotencyKey != key
  {
    hide Simulator.Simulable;
    hide Simulator.SimulationResult;
    EveryRunIsGood(steps);
    StaleTransitionFrom(RunFrom(INITIAL, steps), slow, fast, id, key, actor);
  }

  lemma StaleTransitionFrom(s: System, slow: nat, fast: nat, id: Id, key: string, actor: Actor)
    requires id in s.tables.rows && s.tables.rows[id].id == id && s.tables.rows[id].state == Simulated
    requires slow != fast && actor.role.Admin? && 0 < |key| <= 128 && !KeyTaken(s.tables, key, 0) && 0 !in s.tables.rows
    requires Simulator.Simulable(s.tables.rows[id].snapshot)
    requires s.tables.rows[id].result == Simulator.SimulationResult(s.tables.rows[id].snapshot)
    ensures var row := s.tables.rows[id];
            var read := Do(s, StartTransition(slow, id, Ready, "", actor));
            var again := Resimulate(read, fast, id, key, actor);
            && |again.tables.audit| == |s.tables.audit| + 2
            && Do(again, Finish(slow, 0, true)).tables ==
               Tables(s.tables.rows[id := row.(state := Ready, idempotencyKey := key)],
                      again.tables.audit + [AuditEntry(actor, id, Transition, Some(row), row.(state := Ready))])
  {
    hide Simulator.Simulable;
    hide Simulator.SimulationResult;
    hide Resimulate;
    var row := s.tables.rows[id];
    var read := Do(s, StartTransition(slow, id, Ready, "", actor));
    TransitionStarts(s, slow, id, actor);
    hide Do;
    ResimulateEffect(read, fast, id, key, actor);
    var again := Resimulate(read, fast, id, key, actor);
    TransitionCommits(again, slow, row, actor);
    assert row.(idempotencyKey := key).(state := Ready) == row.(state := Ready, idempotencyKey := key);
  }

  lemma TransitionStarts(s: System, client: nat, id: Id, actor: Actor)
    requires id in s.tables.rows && s.tables.rows[id].state == Simulated && actor.role.Admin?
    ensures Do(s, StartTransition(client, id, Ready, "", actor)) ==
            s.(clients := s.clients[client := PendingTransition(actor, Ready, "", s.tables.rows[id])])
  {
  }

  /** A transition commits whenever the stored state is the one that was read, and audits the copy that was read. */
  lemma TransitionCommits(s: System, client: nat, seen: Scenario, actor: Actor)
    requires client in s.clients && s.clients[client] == PendingTransition(actor, Ready, "", seen)
    requires seen.id in s.tables.rows && s.tables.rows[seen.id].id == seen.id
    requires s.tables.rows[seen.id].state == seen.state
    ensures Do(s, Finish(client, 0, true)).tables ==
            Tables(s.tables.rows[seen.id := s.tables.rows[seen.id].(state := Ready)],
                   s.tables.audit + [AuditEntry(actor, seen.id, Transition, Some(seen), seen.(state := Ready))])
  {
  }

  lemma ResimulateEffect(s: System, client: nat, id: Id, key: string, actor: Actor)
    requires id in s.tables.rows && s.tables.rows[id].id == id && s.tables.rows[id].state == Simulated
    requires actor.role.Admin? && 0 < |key| <= 128 && !KeyTaken(s.tables, key, 0) && 0 !in s.tables.rows
    requires Simulator.Simulable(s.tables.rows[id].snapshot)
    requires s.tables.rows[id].result == Simulator.SimulationResult(s.tables.rows[id].snapshot)
    ensures var after := Resimulate(s, client, id, key, actor);
            && after.clients == s.clients - {client}
            && |after.tables.audit| == |s.tables.audit| + 2
            && after.tables.rows == s.tables.rows[id := s.tables.rows[id].(idempotencyKey := key)]
  {
    hide Simulator.Simulable;
    hide Simulator.SimulationResult;
    var row := s.tables.rows[id];
    ReturnToDraft(s, client, id, actor);
    var drafted := Do(Do(s, StartTransition(client, id, Draft, "", actor)), Finish(client, 0, true));
    SimulateAgain(drafted, client, id, key, actor);
    assert row.(state := Draft).(state := Simulated, idempotencyKey := key, result := row.result)
        == row.(idempotencyKey := key);
  }

  lemma ReturnToDraft(s: System, client: nat, id: Id, actor: Actor)
    requires id in s.tables.rows && s.tables.rows[id].id == id && s.tables.rows[id].state == Simulated && actor.role.Admin?
    ensures var after := Do(Do(s, StartTransition(client, id, Draft, "", actor)), Finish(client, 0, true));
            && after.clients == s.clients - {client}
            && |after.tables.audit| == |s.tables.audit| + 1
            && after.tables.rows == s.tables.rows[id := s.tables.rows[id].(state := Draft)]
  {
    hide Simulator.Simulable;
    hide Simulator.SimulationResult;
    var row := s.tables.rows[id];
    var started := Do(s, StartTransition(client, id, Draft, "", actor));
    assert started.clients[client] == PendingTransition(actor, Draft, "", row);
    assert started.clients - {client} == s.clients - {client};
  }

  lemma SimulateAgain(s: System, client: nat, id: Id, key: string, actor: Actor)
    requires id in s.tables.rows && s.tables.rows[id].id == id && s.tables.rows[id].state == Draft && actor.role.Admin?
    requires 0 < |key| <= 128 && !KeyTaken(s.tables, key, 0) && 0 !in s.tables.rows
    requires Simulator.Simulable(s.tables.rows[id].snapshot)
    ensures var row := s.tables.rows[id];
            var after := Do(Do(Do(s, StartSimulate(client, id, key, actor)), Probe(client)), Finish(client, 0, true));
            && after.clients == s.clients - {client}
            && |after.tables.audit| == |s.tables.audit| + 1
            && after.tables.rows == s.tables.rows[id := row.(state := Simulated, idempotencyKey := key,
                                                            result := Simulator.SimulationResult(row.snapshot))]
  {
    hide Simulator.Simulable;
    hide Simulator.SimulationResult;
    var row := s.tables.rows[id];
    var loaded := Do(s, StartSimulate(client, id, key, actor));
    assert loaded.clients[client] == LoadedSimulation(actor, key, row);
    assert FindByKey(s.tables, key).None?;
    var probed := Do(loaded, Probe(client));
    assert probed.clients[client] ==
           PendingSimulation(actor, key, row, Simulator.SimulationResult(row.snapshot));
    assert probed.clients - {client} == s.clients - {client};
  }
}
