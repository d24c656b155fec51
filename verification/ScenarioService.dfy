/**
 The scenario service over its tables. Each request of the source is cut where its transaction opens: a
 `Begin` method reads and checks, a `Finish` method is the transaction. Between the two, other clients act.
 Every method is proved to take exactly the step that `ScenarioProtocol` describes, and so to honour what
 was promised about the tables before: `Honours` composes over any sequence of calls.
 */
module ScenarioService {
  import opened RolloverModel
  import opened ScenarioProtocol
  import opened ScenarioInvariants
  import opened ScenarioTheorems
  import Canonical
  import FrozenInput
  import Simulator

  /** What a conditional update or an insertion reports. */
  datatype WriteResult = Changed | Unchanged | IndexViolated

  /** The tables stay good, the log only grows, and every row keeps what must survive. */
  ghost predicate Honours(before: Tables, after: Tables) {
    && GoodTables(after) && before.audit <= after.audit
    && forall id :: id in before.rows ==> id in after.rows && Survives(before.rows[id], after.rows[id])
  }

  lemma CommitHonours(t: Tables, p: Pending, freshId: Id, auditSucceeds: bool)
    requires GoodTables(t) && GoodPending(t, p) && !p.LoadedSimulation?
    ensures Honours(t, Commit(t, p, freshId, auditSucceeds)) && GoodTables(Commit(t, p, freshId, auditSucceeds))
  {
    hide GoodTables;
    hide GoodPending;
    hide Survives;
    hide WriteSucceeds;
    CommitKeepsTables(t, p, freshId, auditSucceeds);
    forall id | id in t.rows
      ensures var after := Commit(t, p, freshId, auditSucceeds);
              id in after.rows && Survives(t.rows[id], after.rows[id])
    {
      CommitPreserves(t, p, freshId, auditSucceeds, id);
    }
  }

  lemma HonoursTogether(first: Tables, second: Tables, third: Tables)
    requires Honours(first, second) && Honours(second, third)
    ensures Honours(first, third)
  {
    hide GoodTables;
  }

  /** What a client read stays justified through whatever honours the tables it read from. */
  lemma HonouredReadsStayGood(before: Tables, after: Tables, p: Pending)
    requires Honours(before, after) && GoodPending(before, p)
    ensures GoodPending(after, p)
  {
    hide GoodTables;
    hide GoodScenario;
    hide Simulator.Simulable;
    hide Simulator.SimulationResult;
  }

  lemma SeenIsStored(t: Tables, p: Pending)
    requires GoodTables(t) && GoodPending(t, p) && !p.PendingCreate?
    ensures p.seen.id in t.rows && t.rows[p.seen.id].id == p.seen.id && (p.PendingReplay? ==> p.passed)
  {
    hide GoodScenario;
  }

  lemma FoundByKey(t: Tables, id: Id)
    requires KeysDistinct(t) && id in t.rows
    ensures FindByKey(t, t.rows[id].idempotencyKey) == Some(t.rows[id])
  {
  }

  class RolloverScenarioService {
    var rows: map<Id, Scenario>
    var audit: seq<AuditEntry>

    constructor ()
      ensures Contents() == INITIAL.tables && Valid()
    {
      rows, audit := map[], [];
      EveryRunIsGood([]);
    }

    ghost predicate Valid()
      reads this
    {
      GoodTables(Contents())
    }

    function Contents(): Tables
      reads this
    {
      Tables(rows, audit)
    }

    // ---------------------------------------------------------------- repository operations

    method Insert(draft: Scenario, freshId: Id) returns (written: WriteResult)
      requires freshId > 0 && freshId !in rows
      modifies this`rows
      ensures written != Unchanged
      ensures written.Changed? <==> !InputTaken(old(Contents()), draft) && !KeyTaken(old(Contents()), draft.idempotencyKey, 0)
      ensures rows == if written.Changed? then old(rows)[freshId := draft.(id := freshId)] else old(rows)
    {
      if InputTaken(Contents(), draft) || KeyTaken(Contents(), draft.idempotencyKey, 0) {
        return IndexViolated;
      }
      rows := rows[freshId := draft.(id := freshId)];
      return Changed;
    }

    /** `UPDATE ... WHERE id AND scenario_state = 'draft'`. */
    method CompleteSimulation(id: Id, key: string, result: Result) returns (written: WriteResult)
      modifies this`rows
      ensures written.Unchanged? <==> id !in old(rows) || old(rows)[id].state != Draft
      ensures written.IndexViolated? <==> !written.Unchanged? && KeyTaken(old(Contents()), key, id)
      ensures rows == if written.Changed?
                      then old(rows)[id := old(rows)[id].(state := Simulated, result := result, idempotencyKey := key)]
                      else old(rows)
    {
      if id !in rows || rows[id].state != Draft {
        return Unchanged;
      }
      if KeyTaken(Contents(), key, id) {
        return IndexViolated;
      }
      rows := rows[id := rows[id].(state := Simulated, result := result, idempotencyKey := key)];
      return Changed;
    }

    /** `UPDATE ... WHERE id AND scenario_state = from`, with the columns that the target state adds. */
    method TransitionRow(id: Id, from: ScenarioState, to: ScenarioState, verifiedBy: Option<Id>,
                         rollbackRecord: Option<string>)
      returns (written: WriteResult)
      modifies this`rows
      ensures written.Changed? <==> id in old(rows) && old(rows)[id].state == from
      ensures rows == if written.Changed?
                      then old(rows)[id := old(rows)[id].(
                             state := to,
                             verifiedBy := if verifiedBy.Some? then verifiedBy else old(rows)[id].verifiedBy,
                             rollbackRecord := if rollbackRecord.Some? then rollbackRecord.value
                                               else old(rows)[id].rollbackRecord)]
                      else old(rows)
    {
      if id !in rows || rows[id].state != from {
        return Unchanged;
      }
      var row := rows[id].(state := to);
      if verifiedBy.Some? {
        row := row.(verifiedBy := verifiedBy);
      }
      if rollbackRecord.Some? {
        row := row.(rollbackRecord := rollbackRecord.value);
      }
      rows := rows[id := row];
      return Changed;
    }

    method SetReplayVerified(id: Id, passed: bool) returns (written: WriteResult)
      modifies this`rows
      ensures written.Changed? <==> id in old(rows)
      ensures rows == if written.Changed? then old(rows)[id := old(rows)[id].(replayVerified := passed)] else old(rows)
    {
      if id !in rows {
        return Unchanged;
      }
      rows := rows[id := rows[id].(replayVerified := passed)];
      return Changed;
    }

    /** Appends to the audit log, unless the append fails. */
    method Record(entry: AuditEntry, succeeds: bool) returns (recorded: bool)
      modifies this`audit
      ensures recorded == succeeds
      ensures audit == if recorded then old(audit) + [entry] else old(audit)
    {
      if succeeds {
        audit := audit + [entry];
      }
      recorded := succeeds;
    }

    // ---------------------------------------------------------------- creating

    /**
     The reads are whatever the database returned for them: the two anchors, the number of candidates found,
     the first page of chains and all services. They need not belong to one moment.
     */
    method BeginCreate(config: ScenarioConfig, anchors: seq<AnchorSnapshot>, candidatesFound: nat,
                       chains: seq<ChainSnapshot>, services: seq<FrozenInput.DependentService>,
                       hash: Snapshot -> string, actor: Actor)
      returns (response: Response)
      ensures var snapshot := Canonical.CanonicalForm(config, anchors, chains, FrozenInput.FreezeAll(services));
              if config.oldAnchorId != config.newAnchorId && |anchors| == 2
                 && candidatesFound == |IdList(config.candidateChainIds)| && Simulator.Simulable(snapshot)
              then response == Proceed(PendingCreate(actor, NewDraft(snapshot, hash(snapshot), actor)))
              else response == Refused(InvalidRequest)
      ensures response.Proceed? ==> GoodPending(Contents(), response.pending)
    {
      if config.oldAnchorId == config.newAnchorId || |anchors| != 2 {
        return Refused(InvalidRequest);
      }
      var candidateIds := SortedUnique(config.candidateChainIds);
      if candidatesFound != |candidateIds| {
        return Refused(InvalidRequest);
      }
      Canonical.SameIdsSameList(candidateIds, config.candidateChainIds);
      var built := FrozenInput.BuildSnapshot(config.(candidateChainIds := candidateIds), anchors, chains, services);
      if built.Invalid? {
        return Refused(InvalidRequest);
      }
      return Proceed(PendingCreate(actor, NewDraft(built.snapshot, hash(built.snapshot), actor)));
    }

    /** `freshId` is the identifier that the database assigns if the insertion succeeds. */
    method FinishCreate(p: Pending, freshId: Id, auditSucceeds: bool) returns (error: Option<ScenarioError>)
      requires p.PendingCreate? && p.draft.idempotencyKey == ""
      requires freshId > 0 && freshId !in rows
      modifies this
      ensures Contents() == Commit(old(Contents()), p, freshId, auditSucceeds)
      ensures old(Valid() && GoodPending(Contents(), p)) ==> Valid() && Honours(old(Contents()), Contents())
      ensures error == (if !WriteSucceeds(old(Contents()), p, freshId) then Some(DuplicateInput)
                        else if !auditSucceeds then Some(AuditFailed) else None)
      ensures old(Valid()) ==>
                (error == Some(DuplicateInput) <==> InputTaken(old(Contents()), p.draft) || Unsimulated(old(Contents())))
    {
      hide GoodTables;
      hide GoodPending;
      hide Honours;
      if Valid() {
        FreeOfEmptyKey(Contents());
        if GoodPending(Contents(), p) {
          CommitHonours(Contents(), p, freshId, auditSucceeds);
        }
      }
      var saved := rows;
      var written := Insert(p.draft, freshId);
      if !written.Changed? {
        return Some(DuplicateInput);
      }
      var recorded := Record(AuditEntry(p.actor, freshId, CreateFrozenDraft, None, rows[freshId]), auditSucceeds);
      if !recorded {
        rows := saved;
        return Some(AuditFailed);
      }
      return None;
    }

    // ---------------------------------------------------------------- simulating

    method BeginSimulate(id: Id, key: string, actor: Actor) returns (response: Response)
      ensures response == LoadForSimulation(Contents(), id, key, actor)
      ensures Valid() && response.Proceed? ==> GoodPending(Contents(), response.pending)
    {
      hide GoodScenario;
      hide GoodPending;
      if Valid() { SimulationLoadIsGood(Contents(), id, key, actor); }
      if key == "" || |key| > 128 {
        return Refused(InvalidRequest);
      }
      if id !in rows {
        return Refused(NotFound);
      }
      if !Manages(actor, rows[id]) {
        return Refused(Forbidden);
      }
      return Proceed(LoadedSimulation(actor, key, rows[id]));
    }

    method ProbeIdempotencyKey(p: Pending) returns (response: Response)
      requires p.LoadedSimulation? && KeysDistinct(Contents())
      ensures response == ProbeKey(Contents(), p)
      ensures Valid() && GoodPending(Contents(), p) ==>
                && response != Refused(SimulationFailed)
                && (response.Proceed? ==> GoodPending(Contents(), response.pending))
    {
      hide GoodPending;
      hide GoodScenario;
      if Valid() && GoodPending(Contents(), p) {
        ProbeIsGood(Contents(), p);
      }
      if id :| id in rows && rows[id].idempotencyKey == p.key {
        var prior := rows[id];
        FoundByKey(Contents(), id);
        if prior.id != p.seen.id {
          return Refused(KeyBoundElsewhere);
        }
        return Stored(prior);
      }
      if p.seen.state != Draft {
        return Refused(NotDraft);
      }
      var outcome := Simulator.Simulate(p.seen.snapshot);
      if outcome.Rejected? {
        return Refused(SimulationFailed);
      }
      return Proceed(PendingSimulation(p.actor, p.key, p.seen, outcome.result));
    }

    method FinishSimulate(p: Pending, auditSucceeds: bool) returns (error: Option<ScenarioError>)
      requires p.PendingSimulation?
      requires forall id :: id in rows ==> rows[id].id == id
      modifies this
      ensures Contents() == Commit(old(Contents()), p, 0, auditSucceeds)
      ensures old(Valid() && GoodPending(Contents(), p)) ==> Valid() && Honours(old(Contents()), Contents())
      ensures error == (if p.seen.id !in old(rows) || old(rows)[p.seen.id].state != Draft then Some(ChangedConcurrently)
                        else if KeyTaken(old(Contents()), p.key, p.seen.id) then Some(DuplicateKey)
                        else if !auditSucceeds then Some(AuditFailed) else None)
    {
      hide GoodTables;
      hide GoodPending;
      hide Honours;
      if Valid() && GoodPending(Contents(), p) {
        CommitHonours(Contents(), p, 0, auditSucceeds);
        SeenIsStored(Contents(), p);
      }
      var saved := rows;
      var written := CompleteSimulation(p.seen.id, p.key, p.result);
      if written.Unchanged? {
        return Some(ChangedConcurrently);
      }
      if written.IndexViolated? {
        return Some(DuplicateKey);
      }
      var scenario := p.seen;
      scenario := scenario.(state := Simulated, result := p.result);
      scenario := scenario.(idempotencyKey := p.key);
      var recorded := Record(AuditEntry(p.actor, p.seen.id, Simulate, Some(p.seen), scenario), auditSucceeds);
      if !recorded {
        rows := saved;
        return Some(AuditFailed);
      }
      return None;
    }

    // ---------------------------------------------------------------- moving between states

    method BeginTransition(id: Id, to: ScenarioState, comment: string, actor: Actor) returns (response: Response)
      ensures response == LoadForTransition(Contents(), id, to, comment, actor)
      ensures Valid() && response.Proceed? ==> GoodPending(Contents(), response.pending)
    {
      hide GoodScenario;
      hide GoodPending;
      if Valid() { TransitionLoadIsGood(Contents(), id, to, comment, actor); }
      if to == Simulated {
        return Refused(InvalidRequest);
      }
      if id !in rows {
        return Refused(NotFound);
      }
      var scenario := rows[id];
      if to != Verified {
        if !Manages(actor, scenario) {
          return Refused(Forbidden);
        }
      }
      if !CanTransition(scenario.state, to) {
        return Refused(IllegalTransition);
      }
      if to == Verified && scenario.createdBy == actor.userId {
        return Refused(ReviewerConflict);
      }
      return Proceed(PendingTransition(actor, to, comment, scenario));
    }

    method FinishTransition(p: Pending, auditSucceeds: bool) returns (error: Option<ScenarioError>)
      requires p.PendingTransition?
      requires forall id :: id in rows ==> rows[id].id == id
      modifies this
      ensures Contents() == Commit(old(Contents()), p, 0, auditSucceeds)
      ensures old(Valid() && GoodPending(Contents(), p)) ==> Valid() && Honours(old(Contents()), Contents())
      ensures error == (if p.seen.id !in old(rows) || old(rows)[p.seen.id].state != p.seen.state then Some(ChangedConcurrently)
                        else if !auditSucceeds then Some(AuditFailed) else None)
    {
      hide GoodTables;
      hide GoodPending;
      hide Honours;
      if Valid() && GoodPending(Contents(), p) {
        CommitHonours(Contents(), p, 0, auditSucceeds);
        SeenIsStored(Contents(), p);
      }
      var saved := rows;
      var verifiedBy := if p.to == Verified then Some(p.actor.userId) else None;
      var rollbackRecord := if p.to == Rollback then Some(p.comment) else None;
      var written := TransitionRow(p.seen.id, p.seen.state, p.to, verifiedBy, rollbackRecord);
      if !written.Changed? {
        return Some(ChangedConcurrently);
      }
      var scenario := p.seen.(state := p.to);
      if p.to == Verified {
        scenario := scenario.(verifiedBy := Some(p.actor.userId));
      }
      if p.to == Rollback {
        scenario := scenario.(rollbackRecord := p.comment);
      }
      var recorded := Record(AuditEntry(p.actor, p.seen.id, Transition, Some(p.seen), scenario), auditSucceeds);
      if !recorded {
        rows := saved;
        return Some(AuditFailed);
      }
      return None;
    }

    // ---------------------------------------------------------------- replaying

    method BeginReplay(id: Id, actor: Actor) returns (response: Response)
      ensures response == LoadForReplay(Contents(), id, actor)
      ensures Valid() && response.Proceed? ==> GoodPending(Contents(), response.pending)
    {
      hide GoodScenario;
      hide GoodPending;
      if Valid() { ReplayLoadIsGood(Contents(), id, actor); }
      if id !in rows {
        return Refused(NotFound);
      }
      var scenario := rows[id];
      if !Manages(actor, scenario) {
        return Refused(Forbidden);
      }
      if scenario.state == Draft {
        return Refused(NothingToReplay);
      }
      var outcome := Simulator.Simulate(scenario.snapshot);
      if outcome.Rejected? {
        return Refused(SimulationFailed);
      }
      var passed := outcome.result == scenario.result;
      return Proceed(PendingReplay(actor, scenario, passed));
    }

    /** The outcome of the comparison is stored before a difference is reported. */
    method FinishReplay(p: Pending, auditSucceeds: bool) returns (error: Option<ScenarioError>)
      requires p.PendingReplay?
      requires forall id :: id in rows ==> rows[id].id == id
      modifies this
      ensures Contents() == Commit(old(Contents()), p, 0, auditSucceeds)
      ensures old(Valid() && GoodPending(Contents(), p)) ==> Valid() && Honours(old(Contents()), Contents())
      ensures error == (if p.seen.id !in old(rows) then Some(NotFound) else if !auditSucceeds then Some(AuditFailed)
                        else if !p.passed then Some(ReplayDiffers) else None)
      ensures old(Valid() && GoodPending(Contents(), p)) ==> error != Some(ReplayDiffers)
    {
      hide GoodTables;
      hide GoodPending;
      hide Honours;
      if Valid() && GoodPending(Contents(), p) {
        CommitHonours(Contents(), p, 0, auditSucceeds);
        SeenIsStored(Contents(), p);
      }
      var saved := rows;
      var written := SetReplayVerified(p.seen.id, p.passed);
      if !written.Changed? {
        return Some(NotFound);
      }
      var entry := AuditEntry(p.actor, p.seen.id, Replay, Some(p.seen), p.seen.(replayVerified := p.passed));
      var recorded := Record(entry, auditSucceeds);
      if !recorded {
        rows := saved;
        return Some(AuditFailed);
      }
      return if p.passed then None else Some(ReplayDiffers);
    }
  }
}
