/**
 A rollover whose only failure falls between the sampled instants: the old chain expires twenty minutes
 before its replacement becomes valid, inside an overlap of four hours. The simulation reports that all
 paths remain reachable. So the quiet-interval condition of `Comparisons.SamplingIsSound` is needed.
 */
module SamplingGap {
  import opened RolloverModel
  import opened Graphs
  import opened CycleCheck
  import opened DirectEvaluation
  import opened Resolution
  import opened Reachability
  import opened CriticalTimes
  import opened Simulator
  import opened SimulationTheorems
  import opened Comparisons

  const START: Instant := 1_000_000 * MINUTE
  const GAP_FROM: Instant := START + 30 * MINUTE
  const GAP_TO: Instant := START + 50 * MINUTE

  const CONFIG := ScenarioConfig("gap", 1, 2, START, START + 240 * MINUTE, [11], START + 120 * MINUTE)
  const OLD_CHAIN := ChainSnapshot(10, "old", 1, "leaf", 1, GAP_FROM, "validated", true)
  const NEW_CHAIN := ChainSnapshot(11, "new", 2, "leaf", GAP_TO, START + 1000 * MINUTE, "validated", true)
  const API := ServiceSnapshot(101, "api", 10, [1, 2], [], "critical", "active")

  const SNAPSHOT := Snapshot(
    CONFIG,
    [AnchorSnapshot(1, "a", "valid", 1, 2, false), AnchorSnapshot(2, "b", "valid", 1, 2, false)],
    [OLD_CHAIN, NEW_CHAIN],
    [API])

  lemma ChainIndex()
    ensures ChainsById(SNAPSHOT.chains) == map[10 := OLD_CHAIN, 11 := NEW_CHAIN]
  {
    var one := [OLD_CHAIN];
    assert one[..0] == [];
    assert ChainsById(one) == map[10 := OLD_CHAIN];
    assert SNAPSHOT.chains[..1] == one;
  }

  lemma HealthyOutsideGap(at: Instant)
    ensures WorldAt(SNAPSHOT, at).Healthy(101) <==>
            SettingAt(SNAPSHOT, at).Serves(OLD_CHAIN, API) || SettingAt(SNAPSHOT, at).Serves(NEW_CHAIN, API)
  {
    hide WorldAt;
    hide DirectOf;
    ChainIndex();
    var setting := SettingAt(SNAPSHOT, at);
    HealthyMeaning(SNAPSHOT, at, API);
    assert setting.Eligible(10, API) <==> setting.Serves(OLD_CHAIN, API);
    assert setting.Eligible(11, API) <==> setting.Serves(NEW_CHAIN, API);
  }

  lemma UsableIfHealthy(at: Instant)
    ensures Usable(WorldAt(SNAPSHOT, at), 101) <==> WorldAt(SNAPSHOT, at).Healthy(101)
  {
    assert EdgesOf(SNAPSHOT.services) == map[101 := []];
    assert Successors(WorldAt(SNAPSHOT, at).edges, 101) == [];
    if WorldAt(SNAPSHOT, at).Healthy(101) {
      assert Usable#[1](WorldAt(SNAPSHOT, at), 101);
    }
  }

  /** The simulation accepts the snapshot and reports no failure, yet the service is unreachable in the gap. */
  lemma SamplingMissesGap()
    ensures Simulable(SNAPSHOT)
    ensures SimulationResult(SNAPSHOT).affectedServices == []
    ensures forall t :: GAP_FROM <= t < GAP_TO ==> Spanned(CONFIG, t) && !Usable(WorldAt(SNAPSHOT, t), 101)
    ensures HasActive(SNAPSHOT.services, 101) && !Quiet(SNAPSHOT)
  {
    assert API in SNAPSHOT.services;
    assert OLD_CHAIN in SNAPSHOT.chains;
    GapIsSimulable();
    forall t | GAP_FROM <= t < GAP_TO ensures !Usable(WorldAt(SNAPSHOT, t), 101) {
      UsableIfHealthy(t);
      HealthyOutsideGap(t);
    }
    var result := SimulationResult(SNAPSHOT);
    if result.affectedServices != [] {
      var a := result.affectedServices[0];
      assert Fails(result, a.serviceId, a.at);
      NoSampleFails(SNAPSHOT, a.serviceId, a.at);
    }
  }

  ghost predicate OutsideGap(at: Instant) {
    START - MINUTE <= at < GAP_FROM || GAP_TO <= at < START + 1000 * MINUTE
  }

  lemma SampleOutsideGap(config: ScenarioConfig, at: Instant)
    requires config == CONFIG && at in Times(config)
    ensures OutsideGap(at)
  {
    assert at in SourceInstants(config);
  }

  lemma UsableOutsideGap(at: Instant)
    requires OutsideGap(at)
    ensures Usable(WorldAt(SNAPSHOT, at), 101)
  {
    UsableIfHealthy(at);
    HealthyOutsideGap(at);
  }

  lemma NoSampleFails(snapshot: Snapshot, id: Id, at: Instant)
    requires snapshot == SNAPSHOT
    ensures !Fails(SimulationResult(snapshot), id, at)
  {
    AffectedMeaning(snapshot, id, at);
    if at in Times(snapshot.config) && HasActive(snapshot.services, id) {
      SampleOutsideGap(snapshot.config, at);
      UsableOutsideGap(at);
    }
  }

  lemma GapIsSimulable()
    ensures Simulable(SNAPSHOT)
  {
    assert SNAPSHOT.anchors[0].id == 1 && SNAPSHOT.anchors[1].id == 2;
    assert HasAnchor(SNAPSHOT, 1) && HasAnchor(SNAPSHOT, 2);
    assert NEW_CHAIN in SNAPSHOT.chains;
    assert EdgesOf(SNAPSHOT.services) == map[101 := []];
    RankedImpliesAcyclic(EdgesOf(SNAPSHOT.services), map[101 := 0]);
  }
}
