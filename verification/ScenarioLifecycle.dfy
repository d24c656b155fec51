/**
 The life of a scenario in plain terms: who may do what in which state, what each request writes, and
 through which states a finished scenario has passed. The edges of the state machine are listed here
 once more, and the protocol is proved to take exactly these.
 */
module ScenarioLifecycle {
  import opened RolloverModel
  import opened ScenarioProtocol
  import opened ScenarioInvariants
  import opened ScenarioTheorems
  import Simulator

  // ---------------------------------------------------------------- the states a scenario passes through

  ghost predicate From(e: AuditEntry, state: ScenarioState) {
    e.before.Some? && e.before.value.state == state
  }

  ghost predicate Entitled(actor: Actor, scenario: Scenario) {
    actor.role in {Admin, PkiOperator} || actor.userId == scenario.createdBy
  }

  /** What an entry says about the edge taken and about who took it. */
  ghost predicate PlainMove(e: AuditEntry) {
    && (e.before.None? ==> e.after.state == Draft && e.actor.userId == e.after.createdBy)
    && (e.after.state == Draft ==> e.before.None? || From(e, Simulated) || From(e, Ready))
    && (e.after.state == Simulated ==> From(e, Draft) && e.action == Simulate)
    && (e.after.state == Ready ==> From(e, Simulated))
    && (e.after.state == Executing ==> From(e, Ready))
    && (e.after.state in {Verified, Rollback} ==> From(e, Executing))
    && (e.before.Some? ==>
          if e.after.state == Verified then e.actor.userId != e.after.createdBy && e.after.verifiedBy == Some(e.actor.userId)
          else Entitled(e.actor, e.after))
  }

  lemma LegalMovesArePlain(e: AuditEntry)
    requires LegalMove(e)
    ensures PlainMove(e)
  {
  }

  /** Over every run, each recorded change of a scenario takes one of the listed edges, by someone entitled to it. */
  lemma EveryMoveIsPlain(steps: seq<Step>, id: Id, i: nat)
    requires i < |Moves(RunFrom(INITIAL, steps).tables.audit, id)|
    ensures PlainMove(Moves(RunFrom(INITIAL, steps).tables.audit, id)[i])
  {
    hide Simulator.Simulable;
    hide Simulator.SimulationResult;
    hide PlainMove;
    AuditTrailIsContiguous(steps, id);
    LegalMovesArePlain(Moves(RunFrom(INITIAL, steps).tables.audit, id)[i]);
  }

  /** The move at position `i` starts in `from` and ends in `to`. */
  ghost predicate Took(moves: seq<AuditEntry>, i: int, from: ScenarioState, to: ScenarioState) {
    0 <= i < |moves| && From(moves[i], from) && moves[i].after.state == to
  }

  /** The last four moves of a finished scenario: it was simulated, made ready, executed, and then finished. */
  ghost predicate RanItsCourse(moves: seq<AuditEntry>, end: ScenarioState) {
    var n := |moves|;
    && n >= 5
    && Took(moves, n - 4, Draft, Simulated) && moves[n-4].action == Simulate
    && Took(moves, n - 3, Simulated, Ready)
    && Took(moves, n - 2, Ready, Executing)
    && Took(moves, n - 1, Executing, end)
  }

  lemma MoveBefore(moves: seq<AuditEntry>, i: nat, from: ScenarioState, to: ScenarioState)
    requires Contiguous(moves) && Took(moves, i, from, to)
    ensures PlainMove(moves[i]) && i > 0 && moves[i-1].after.state == from
  {
    hide LegalMove;
    LegalMovesArePlain(moves[i]);
    assert Continues(moves, i);
  }

  lemma FinishedMeansExecuted(moves: seq<AuditEntry>)
    requires Contiguous(moves) && moves != [] && moves[|moves|-1].after.state in {Verified, Rollback}
    ensures RanItsCourse(moves, moves[|moves|-1].after.state)
  {
    hide Contiguous;
    var n := |moves|;
    EveryMovePlain(moves, n - 1);
    MoveBefore(moves, n - 1, Executing, moves[n-1].after.state);
    EveryMovePlain(moves, n - 2);
    MoveBefore(moves, n - 2, Ready, Executing);
    EveryMovePlain(moves, n - 3);
    MoveBefore(moves, n - 3, Simulated, Ready);
    EveryMovePlain(moves, n - 4);
    MoveBefore(moves, n - 4, Draft, Simulated);
  }

  lemma EveryMovePlain(moves: seq<AuditEntry>, i: nat)
    requires Contiguous(moves) && i < |moves|
    ensures PlainMove(moves[i])
  {
    hide LegalMove;
    hide Continues;
    LegalMovesArePlain(moves[i]);
  }

  /** Over every run, a verified or rolled back scenario was simulated, made ready and executed since its last draft. */
  lemma FinishedScenariosRanTheirCourse(steps: seq<Step>, id: Id)
    ensures var t := RunFrom(INITIAL, steps).tables;
            id in t.rows && t.rows[id].state in {Verified, Rollback} ==>
              RanItsCourse(Moves(t.audit, id), t.rows[id].state)
  {
    hide Simulator.Simulable;
    hide Simulator.SimulationResult;
    hide RanItsCourse;
    hide Contiguous;
    var t := RunFrom(INITIAL, steps).tables;
    AuditTrailIsContiguous(steps, id);
    if id in t.rows && t.rows[id].state in {Verified, Rollback} {
      FinishedMeansExecuted(Moves(t.audit, id));
    }
  }

  // ---------------------------------------------------------------- transitions

  /** The transitions that can be requested. */
  ghost predicate Edge(from: ScenarioState, to: ScenarioState) {
    (from, to) in {(Simulated, Ready), (Simulated, Draft), (Ready, Executing), (Ready, Draft),
                   (Executing, Verified), (Executing, Rollback)}
  }

  /** A transition gets past its checks exactly along an edge, on request of someone entitled to it. */
  lemma TransitionProceedsExactlyWhen(t: Tables, id: Id, to: ScenarioState, comment: string, actor: Actor)
    ensures var response := LoadForTransition(t, id, to, comment, actor);
            && (response.Proceed? <==>
                  && id in t.rows && Edge(t.rows[id].state, to)
                  && (if to == Verified then actor.userId != t.rows[id].createdBy else Entitled(actor, t.rows[id])))
            && (response.Proceed? ==> response.pending == PendingTransition(actor, to, comment, t.rows[id]))
            && (to == Simulated ==> response == Refused(InvalidRequest))
            && (to != Simulated && id !in t.rows ==> response == Refused(NotFound))
            && (to !in {Simulated, Verified} && id in t.rows && !Entitled(actor, t.rows[id]) ==> response == Refused(Forbidden))
            && (to != Simulated && id in t.rows && (to == Verified || Entitled(actor, t.rows[id])) ==>
                  (!Edge(t.rows[id].state, to) ==> response == Refused(IllegalTransition)))
            && (to == Verified && id in t.rows && t.rows[id].state == Executing && actor.userId == t.rows[id].createdBy ==>
                  response == Refused(ReviewerConflict))
  {
  }

  /** What a transition writes: the state, the verifier or the rollback record, and one audit entry; nothing else. */
  lemma TransitionTakesEffect(t: Tables, p: Pending, freshId: Id)
    requires p.PendingTransition? && p.seen.id in t.rows && t.rows[p.seen.id].id == p.seen.id
    requires t.rows[p.seen.id].state == p.seen.state
    ensures var after := Commit(t, p, freshId, true);
            && p.seen.id in after.rows
            && after.rows == t.rows[p.seen.id := after.rows[p.seen.id]]
            && (var old', new' := t.rows[p.seen.id], after.rows[p.seen.id];
               && new' == old'.(state := new'.state, verifiedBy := new'.verifiedBy, rollbackRecord := new'.rollbackRecord)
               && new'.state == p.to
               && new'.verifiedBy == (if p.to == Verified then Some(p.actor.userId) else old'.verifiedBy)
               && new'.rollbackRecord == (if p.to == Rollback then p.comment else old'.rollbackRecord))
            && |after.audit| == |t.audit| + 1 && t.audit <= after.audit
            && var e := after.audit[|t.audit|];
               && e.actor == p.actor && e.entityId == p.seen.id && e.action == Transition && e.before == Some(p.seen)
               && e.after.state == p.to
               && e.after.verifiedBy == (if p.to == Verified then Some(p.actor.userId) else p.seen.verifiedBy)
               && e.after.rollbackRecord == (if p.to == Rollback then p.comment else p.seen.rollbackRecord)
               && e.after == p.seen.(state := e.after.state, verifiedBy := e.after.verifiedBy,
                                     rollbackRecord := e.after.rollbackRecord)
  {
  }

  /** From every reachable state, each edge can be taken by whoever is entitled to it. */
  lemma EveryEdgeCanBeTaken(steps: seq<Step>, client: nat, id: Id, to: ScenarioState, comment: string, actor: Actor)
    requires var t := RunFrom(INITIAL, steps).tables;
             && id in t.rows && Edge(t.rows[id].state, to)
             && (if to == Verified then actor.userId != t.rows[id].createdBy else Entitled(actor, t.rows[id]))
    ensures var s := RunFrom(INITIAL, steps);
            var end := Do(Do(s, StartTransition(client, id, to, comment, actor)), Finish(client, 0, true)).tables;
            && id in end.rows && end.rows[id].state == to && end.rows == s.tables.rows[id := end.rows[id]]
            && |end.audit| == |s.tables.audit| + 1
  {
    hide Simulator.Simulable;
    hide Simulator.SimulationResult;
    EveryRunIsGood(steps);
    TakenFrom(RunFrom(INITIAL, steps), client, id, to, comment, actor);
  }

  lemma TakenFrom(s: System, client: nat, id: Id, to: ScenarioState, comment: string, actor: Actor)
    requires id in s.tables.rows && s.tables.rows[id].id == id && Edge(s.tables.rows[id].state, to)
    requires if to == Verified then actor.userId != s.tables.rows[id].createdBy else Entitled(actor, s.tables.rows[id])
    ensures var end := Do(Do(s, StartTransition(client, id, to, comment, actor)), Finish(client, 0, true)).tables;
            && id in end.rows && end.rows[id].state == to && end.rows == s.tables.rows[id := end.rows[id]]
            && |end.audit| == |s.tables.audit| + 1
  {
    var p := PendingTransition(actor, to, comment, s.tables.rows[id]);
    TransitionProceedsExactlyWhen(s.tables, id, to, comment, actor);
    TransitionTakesEffect(s.tables, p, 0);
    hide LoadForTransition;
    hide Commit;
    var started := Do(s, StartTransition(client, id, to, comment, actor));
    assert started.clients[client] == p && started.tables == s.tables;
  }

  // ---------------------------------------------------------------- creation, simulation, replay

  /** What a creation stores. */
  lemma CreationTakesEffect(t: Tables, snapshot: Snapshot, inputHash: string, actor: Actor, freshId: Id)
    requires 0 !in t.rows && freshId > 0 && freshId !in t.rows
    ensures var p := PendingCreate(actor, NewDraft(snapshot, inputHash, actor));
            var succeeds :=
              && (forall id :: id in t.rows ==> t.rows[id].idempotencyKey != "")
              && forall id :: id in t.rows && t.rows[id].inputHash == inputHash ==>
                   t.rows[id].snapshot.config.simulationTime != snapshot.config.simulationTime;
            && WriteSucceeds(t, p, freshId) == succeeds
            && var after := Commit(t, p, freshId, true);
               if !succeeds then after == t
               else
                 && freshId in after.rows && after.rows == t.rows[freshId := after.rows[freshId]]
                 && (var row := after.rows[freshId];
                    && row.id == freshId && row.snapshot == snapshot && row.inputHash == inputHash
                    && row.state == Draft && row.createdBy == actor.userId && row.verifiedBy == None
                    && row.idempotencyKey == "" && !row.replayVerified && row.rollbackRecord == ""
                    && row.result.affectedServices == [] && row.result.brokenPaths == [] && row.result.evidence == []
                    && after.audit == t.audit + [AuditEntry(actor, freshId, CreateFrozenDraft, None, row)])
  {
  }

  /** A simulation passes its first checks, and then its probe, exactly under these conditions. */
  lemma SimulationProceedsExactlyWhen(t: Tables, id: Id, key: string, actor: Actor)
    ensures var response := LoadForSimulation(t, id, key, actor);
            && (response.Proceed? <==> 0 < |key| <= 128 && id in t.rows && Entitled(actor, t.rows[id]))
            && (response.Proceed? ==> response.pending == LoadedSimulation(actor, key, t.rows[id]))
            && (!(0 < |key| <= 128) ==> response == Refused(InvalidRequest))
            && (0 < |key| <= 128 && id !in t.rows ==> response == Refused(NotFound))
            && (0 < |key| <= 128 && id in t.rows && !Entitled(actor, t.rows[id]) ==> response == Refused(Forbidden))
  {
  }

  lemma ProbeProceedsExactlyWhen(t: Tables, p: Pending)
    requires p.LoadedSimulation?
    ensures var response := ProbeKey(t, p);
            var unused := forall id :: id in t.rows ==> t.rows[id].idempotencyKey != p.key;
            && (response.Proceed? <==> unused && p.seen.state == Draft && Simulator.Simulable(p.seen.snapshot))
            && (response.Proceed? ==>
                  response.pending == PendingSimulation(p.actor, p.key, p.seen, Simulator.SimulationResult(p.seen.snapshot)))
            && (response == Refused(NotDraft) <==> unused && p.seen.state != Draft)
            && (response.Stored? || response == Refused(KeyBoundElsewhere) <==> !unused)
  {
    hide Simulator.Simulable;
    hide Simulator.SimulationResult;
  }

  /** What a simulation writes: state, result and key of a row still in draft, if no other row holds the key. */
  lemma SimulationTakesEffect(t: Tables, p: Pending, freshId: Id)
    requires p.PendingSimulation? && p.seen.id in t.rows && t.rows[p.seen.id].id == p.seen.id
    ensures var after, row := Commit(t, p, freshId, true), t.rows[p.seen.id];
            if row.state == Draft && forall id :: id in t.rows && id != p.seen.id ==> t.rows[id].idempotencyKey != p.key
            then
              && after.rows == t.rows[p.seen.id := row.(state := Simulated, result := p.result, idempotencyKey := p.key)]
              && after.audit == t.audit + [AuditEntry(p.actor, p.seen.id, Simulate, Some(p.seen),
                                                      p.seen.(state := Simulated, result := p.result, idempotencyKey := p.key))]
            else after == t
  {
  }

  /** A replay compares the whole stored result, and writes nothing but its outcome. */
  lemma ReplayProceedsExactlyWhen(t: Tables, id: Id, actor: Actor)
    ensures var response := LoadForReplay(t, id, actor);
            && (response.Proceed? <==>
                  && id in t.rows && Entitled(actor, t.rows[id]) && t.rows[id].state != Draft
                  && Simulator.Simulable(t.rows[id].snapshot))
            && (response.Proceed? ==>
                  response.pending == PendingReplay(actor, t.rows[id],
                                                    t.rows[id].result == Simulator.SimulationResult(t.rows[id].snapshot)))
            && (id !in t.rows ==> response == Refused(NotFound))
            && (id in t.rows && !Entitled(actor, t.rows[id]) ==> response == Refused(Forbidden))
            && (id in t.rows && Entitled(actor, t.rows[id]) && t.rows[id].state == Draft ==>
                  response == Refused(NothingToReplay))
  {
    hide Simulator.Simulable;
    hide Simulator.SimulationResult;
  }

  lemma ReplayTakesEffect(t: Tables, p: Pending, freshId: Id)
    requires p.PendingReplay? && p.seen.id in t.rows && t.rows[p.seen.id].id == p.seen.id
    ensures var after := Commit(t, p, freshId, true);
            && after.rows == t.rows[p.seen.id := t.rows[p.seen.id].(replayVerified := p.passed)]
            && after.audit == t.audit + [AuditEntry(p.actor, p.seen.id, Replay, Some(p.seen),
                                                    p.seen.(replayVerified := p.passed))]
  {
  }
}
