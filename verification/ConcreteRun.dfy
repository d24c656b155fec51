/**
 A run that reaches a simulated scenario, so that the promises which `ScenarioTheorems` refutes or
 restricts are shown to fail in states that really occur.
 */
module ConcreteRun {
  import opened RolloverModel
  import opened ScenarioProtocol
  import opened ScenarioInvariants
  import opened ScenarioTheorems
  import Simulator
  import SamplingGap

  const ADMIN := Actor(7, "ada", "platform", Admin)

  function Draft1(snapshot: Snapshot, inputHash: string, actor: Actor): Scenario {
    NewDraft(snapshot, inputHash, actor).(id := 1)
  }

  /** The first creation: the scenario gets identifier 1. */
  function Creation(snapshot: Snapshot, inputHash: string, actor: Actor): seq<Step> {
    [StartCreate(0, snapshot, inputHash, actor), Finish(0, 1, true)]
  }

  /** The first creation, and the first simulation under the given key. */
  function Simulation(snapshot: Snapshot, inputHash: string, key: string, actor: Actor): seq<Step> {
    Creation(snapshot, inputHash, actor) + [StartSimulate(0, 1, key, actor), Probe(0), Finish(0, 0, true)]
  }

  lemma RunTwo(s: System, a: Step, b: Step)
    ensures RunFrom(s, [a, b]) == Do(Do(s, a), b)
  {
    hide Do;
    assert [a, b][..1] == [a];
    assert [a][..0] == [];
    assert RunFrom(s, [a]) == Do(RunFrom(s, []), a);
  }

  lemma RunThree(s: System, a: Step, b: Step, c: Step)
    ensures RunFrom(s, [a, b, c]) == Do(Do(Do(s, a), b), c)
  {
    hide Do;
    RunTwo(s, a, b);
    assert [a, b, c][..2] == [a, b];
  }

  lemma {:induction false} RunTogether(s: System, first: seq<Step>, second: seq<Step>)
    ensures RunFrom(s, first + second) == RunFrom(RunFrom(s, first), second)
  {
    hide Do;
    if second == [] {
      assert first + second == first;
    } else {
      RunTogether(s, first, second[..|second|-1]);
      assert (first + second)[..|first + second|-1] == first + second[..|second|-1];
    }
  }

  lemma CreatedFirst(snapshot: Snapshot, inputHash: string, actor: Actor)
    requires Simulator.Simulable(snapshot)
    ensures RunFrom(INITIAL, Creation(snapshot, inputHash, actor)).tables.rows ==
            map[1 := Draft1(snapshot, inputHash, actor)]
    ensures RunFrom(INITIAL, Creation(snapshot, inputHash, actor)).clients == map[]
  {
    hide Simulator.Simulable;
    RunTwo(INITIAL, StartCreate(0, snapshot, inputHash, actor), Finish(0, 1, true));
    var started := Do(INITIAL, StartCreate(0, snapshot, inputHash, actor));
    assert started.clients[0] == PendingCreate(actor, NewDraft(snapshot, inputHash, actor));
  }

  lemma SimulatedFirst(snapshot: Snapshot, inputHash: string, key: string, actor: Actor)
    requires Simulator.Simulable(snapshot) && actor.role.Admin? && 0 < |key| <= 128
    ensures RunFrom(INITIAL, Simulation(snapshot, inputHash, key, actor)).tables.rows ==
            map[1 := Draft1(snapshot, inputHash, actor).(state := Simulated, idempotencyKey := key,
                                                         result := Simulator.SimulationResult(snapshot))]
  {
    hide Simulator.Simulable;
    hide Simulator.SimulationResult;
    hide Do;
    var s := RunFrom(INITIAL, Creation(snapshot, inputHash, actor));
    var a, b, c := StartSimulate(0, 1, key, actor), Probe(0), Finish(0, 0, true);
    CreatedFirst(snapshot, inputHash, actor);
    RunTogether(INITIAL, Creation(snapshot, inputHash, actor), [a, b, c]);
    RunThree(s, a, b, c);
    SimulateAgain(s, 0, 1, key, actor);
  }

  /** A creation with a new input is refused as identical, because scenario 1 has not been simulated yet. */
  lemma NewInputRefusedAsIdentical(p: Pending)
    requires p.PendingCreate? && p.draft.inputHash != "first"
    ensures var t := RunFrom(INITIAL, Creation(SamplingGap.SNAPSHOT, "first", ADMIN)).tables;
            Unsimulated(t) && !InputTaken(t, p.draft) && 2 !in t.rows && !WriteSucceeds(t, p, 2)
  {
    SamplingGap.SamplingMissesGap();
    NewInputRefused(SamplingGap.SNAPSHOT, "first", ADMIN, p);
  }

  lemma NewInputRefused(snapshot: Snapshot, inputHash: string, actor: Actor, p: Pending)
    requires Simulator.Simulable(snapshot) && p.PendingCreate? && p.draft.inputHash != inputHash
    ensures var t := RunFrom(INITIAL, Creation(snapshot, inputHash, actor)).tables;
            Unsimulated(t) && !InputTaken(t, p.draft) && 2 !in t.rows && !WriteSucceeds(t, p, 2)
  {
    hide Simulator.Simulable;
    hide RunFrom;
    hide WriteSucceeds;
    hide Creation;
    CreatedFirst(snapshot, inputHash, actor);
    var t := RunFrom(INITIAL, Creation(snapshot, inputHash, actor)).tables;
    assert 1 in t.rows && t.rows[1].idempotencyKey == "";
    CreationSucceedsExactlyWhen(Creation(snapshot, inputHash, actor), p, 2);
  }

  /** A retry under the key of the first simulation is refused once a second simulation has taken another key. */
  lemma FirstKeyForgotten()
    ensures var s := RunFrom(INITIAL, Simulation(SamplingGap.SNAPSHOT, "first", "k1", ADMIN));
            var t := Resimulate(s, 0, 1, "k2", ADMIN).tables;
            && 1 in s.tables.rows && s.tables.rows[1].idempotencyKey == "k1" && 1 in t.rows
            && ProbeKey(t, LoadedSimulation(ADMIN, "k1", t.rows[1])) == Refused(NotDraft)
  {
    hide Simulator.Simulable;
    hide Simulator.SimulationResult;
    hide Resimulate;
    hide ProbeKey;
    var steps := Simulation(SamplingGap.SNAPSHOT, "first", "k1", ADMIN);
    SamplingGap.SamplingMissesGap();
    SimulatedFirst(SamplingGap.SNAPSHOT, "first", "k1", ADMIN);
    assert "k1" != "k2";
    SupersededKeyIsForgotten(steps, 0, 1, "k2", ADMIN);
  }

  /** A transition read before that second simulation commits with an entry that still shows the first key. */
  lemma StaleEntryWritten()
    ensures var s := RunFrom(INITIAL, Simulation(SamplingGap.SNAPSHOT, "first", "k1", ADMIN));
            var read := Do(s, StartTransition(1, 1, Ready, "", ADMIN));
            var end := Do(Resimulate(read, 2, 1, "k2", ADMIN), Finish(1, 0, true)).tables;
            && 1 in end.rows && end.rows[1].idempotencyKey == "k2"
            && |end.audit| == |s.tables.audit| + 3
            && end.audit[|end.audit|-1].action == Transition
            && end.audit[|end.audit|-1].after.idempotencyKey == "k1"
  {
    hide Simulator.Simulable;
    hide Simulator.SimulationResult;
    hide Resimulate;
    hide Do;
    var steps := Simulation(SamplingGap.SNAPSHOT, "first", "k1", ADMIN);
    SamplingGap.SamplingMissesGap();
    SimulatedFirst(SamplingGap.SNAPSHOT, "first", "k1", ADMIN);
    assert "k1" != "k2";
    StaleTransitionCommits(steps, 1, 2, 1, "k2", ADMIN);
  }
}
