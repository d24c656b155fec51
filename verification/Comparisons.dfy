/** How reachability at one instant compares between snapshots, and between instants of one snapshot. */
module Comparisons {
  import opened RolloverModel
  import opened Graphs
  import opened CycleCheck
  import opened DirectEvaluation
  import opened Resolution
  import opened Reachability
  import opened CriticalTimes
  import opened Simulator
  import opened SimulationTheorems

  // ---------------------------------------------------------------- monotonicity

  /** The second service list differs from the first only in larger trust sets. */
  ghost predicate TrustsMore(a: seq<ServiceSnapshot>, b: seq<ServiceSnapshot>) {
    && |a| == |b|
    && forall i :: 0 <= i < |a| ==>
         && b[i] == a[i].(trustAnchorIds := b[i].trustAnchorIds)
         && forall id :: id in a[i].trustAnchorIds ==> id in b[i].trustAnchorIds
  }

  ghost predicate OffersMore(a: Setting, b: Setting) {
    && a.at == b.at && a.chains == b.chains && a.active <= b.active
    && forall id :: id in a.candidates ==> id in b.candidates
  }

  lemma DirectMonotone(a: Setting, b: Setting, s: ServiceSnapshot, t: ServiceSnapshot)
    requires OffersMore(a, b) && TrustsMore([s], [t])
    ensures a.EvaluateDirect(s).reachable ==> b.EvaluateDirect(t).reachable
  {
    assert [t][0] == [s][0].(trustAnchorIds := [t][0].trustAnchorIds);
    DirectSelection(a, s);
    DirectSelection(b, t);
    forall id | a.Eligible(id, s) ensures b.Eligible(id, t) {
      assert forall anchor :: anchor in [s][0].trustAnchorIds ==> anchor in [t][0].trustAnchorIds;
    }
  }

  lemma {:induction false} DirectOfMonotone(a: Setting, b: Setting, ss: seq<ServiceSnapshot>, ts: seq<ServiceSnapshot>)
    requires OffersMore(a, b) && TrustsMore(ss, ts)
    ensures DirectOf(a, ss).Keys == DirectOf(b, ts).Keys
    ensures forall id :: id in DirectOf(a, ss) && DirectOf(a, ss)[id].reachable ==> DirectOf(b, ts)[id].reachable
    ensures EdgesOf(ss) == EdgesOf(ts)
  {
    if ss == [] {
    } else {
      var s, t := ss[|ss|-1], ts[|ts|-1];
      DirectOfMonotone(a, b, ss[..|ss|-1], ts[..|ts|-1]);
      DirectMonotone(a, b, s, t);
    }
  }

  ghost predicate DependsOnNoMore(g: Edges, h: Edges) {
    forall id, next {:trigger next in Successors(h, id)} :: next in Successors(h, id) ==> next in Successors(g, id)
  }

  lemma {:induction false} UsableTransfersAt(w: World, v: World, id: Id, k: nat)
    requires DependsOnNoMore(w.edges, v.edges) && (forall x :: w.Healthy(x) ==> v.Healthy(x)) && Usable#[k](w, id)
    ensures Usable#[k](v, id)
    decreases k
  {
    if k == 0 {
    } else {
      forall next | next in Successors(v.edges, id) ensures Usable#[k-1](v, next) {
        UsableTransfersAt(w, v, next, k - 1);
      }
    }
  }

  /** Better direct evidence and fewer dependencies carry through the dependency recursion. */
  lemma UsableTransfers(w: World, v: World, id: Id)
    requires DependsOnNoMore(w.edges, v.edges) && (forall x :: w.Healthy(x) ==> v.Healthy(x)) && Usable(w, id)
    ensures Usable(v, id)
  {
    var k: nat :| Usable#[k](w, id);
    UsableTransfersAt(w, v, id, k);
  }

  lemma WorldMonotone(a: Snapshot, b: Snapshot, at: Instant, id: Id)
    requires OffersMore(SettingAt(a, at), SettingAt(b, at)) && TrustsMore(a.services, b.services)
    ensures Usable(WorldAt(a, at), id) ==> Usable(WorldAt(b, at), id)
    ensures HasActive(a.services, id) <==> HasActive(b.services, id)
  {
    DirectOfMonotone(SettingAt(a, at), SettingAt(b, at), a.services, b.services);
    DirectOfKeys(SettingAt(a, at), a.services);
    DirectOfKeys(SettingAt(b, at), b.services);
    if Usable(WorldAt(a, at), id) {
      UsableTransfers(WorldAt(a, at), WorldAt(b, at), id);
    }
  }

  /** Larger trust sets and more candidates never add a failure to the result of a simulation. */
  lemma MoreTrustNeverAddsFailures(a: Snapshot, b: Snapshot, id: Id, at: Instant)
    requires b.chains == a.chains && TrustsMore(a.services, b.services)
    requires b.config == a.config.(candidateChainIds := b.config.candidateChainIds)
    requires forall chain :: chain in a.config.candidateChainIds ==> chain in b.config.candidateChainIds
    ensures Fails(SimulationResult(b), id, at) ==> Fails(SimulationResult(a), id, at)
  {
    assert Times(b.config) == Times(a.config) by { assert SourceInstants(b.config) == SourceInstants(a.config); }
    WorldMonotone(a, b, at, id);
    AffectedMeaning(a, id, at);
    AffectedMeaning(b, id, at);
  }

  /** At a fixed instant a wider overlap window never makes a reachable service unreachable. */
  lemma WiderOverlapNeverHurts(a: Snapshot, b: Snapshot, id: Id, at: Instant)
    requires b.config == a.config.(overlapStart := b.config.overlapStart, overlapEnd := b.config.overlapEnd)
    requires b.config.overlapStart <= a.config.overlapStart <= a.config.overlapEnd <= b.config.overlapEnd
    requires b.chains == a.chains && b.services == a.services
    ensures WorldAt(a, at).Resolved(id, {}).reachable ==> WorldAt(b, at).Resolved(id, {}).reachable
  {
    WorldMonotone(a, b, at, id);
    ReachableIsLeastSolution(WorldAt(a, at), id);
    ReachableIsLeastSolution(WorldAt(b, at), id);
  }

  // ---------------------------------------------------------------- sampling

  /** The interval that the sampled instants of the overlap span. */
  ghost predicate Spanned(config: ScenarioConfig, t: Instant) {
    config.overlapStart - MINUTE <= t <= config.overlapEnd + MINUTE
  }

  /** No chain starts or stops being valid inside the spanned interval. */
  ghost predicate Quiet(snapshot: Snapshot) {
    var from, to := snapshot.config.overlapStart - MINUTE, snapshot.config.overlapEnd + MINUTE;
    forall c :: c in snapshot.chains ==> !(from < c.validFrom <= to) && !(from < c.validTo <= to)
  }

  /** The sampled instant that stands for the phase of `t`: before, during or after overlap. */
  function Sample(config: ScenarioConfig, t: Instant): Instant {
    if t < config.overlapStart then config.overlapStart - MINUTE
    else if t <= config.overlapEnd then config.overlapStart
    else config.overlapEnd + MINUTE
  }

  lemma {:induction false} ChainValues(chains: seq<ChainSnapshot>, id: Id)
    requires id in ChainsById(chains)
    ensures ChainsById(chains)[id] in chains && ChainsById(chains)[id].id == id
  {
    var init, last := chains[..|chains|-1], chains[|chains|-1];
    if id == last.id {
    } else {
      ChainValues(init, id);
    }
  }

  /** Two settings that judge every chain alike. */
  ghost predicate JudgeAlike(a: Setting, b: Setting, s: ServiceSnapshot) {
    && a.candidates == b.candidates && a.chains == b.chains
    && forall id :: id in a.chains ==>
         && (a.Serves(a.chains[id], s) <==> b.Serves(a.chains[id], s))
         && a.Rejection(a.chains[id], s) == b.Rejection(a.chains[id], s)
  }

  lemma {:induction false} FirstServingAlike(a: Setting, b: Setting, s: ServiceSnapshot, ids: seq<Id>)
    requires JudgeAlike(a, b, s) && forall id :: id in ids ==> id in a.chains
    ensures a.FirstServing(ids, s) == b.FirstServing(ids, s)
  {
    if ids == [] {
    } else {
      assert ids[0] in a.chains;
      FirstServingAlike(a, b, s, ids[1..]);
    }
  }

  lemma {:induction false} MatchingAlike(a: Setting, b: Setting, s: ServiceSnapshot, ids: seq<Id>)
    requires a.chains == b.chains
    ensures a.Matching(ids, s) == b.Matching(ids, s)
  {
    if ids == [] {
    } else {
      MatchingAlike(a, b, s, ids[..|ids|-1]);
    }
  }

  lemma EvaluatedAlike(a: Setting, b: Setting, s: ServiceSnapshot)
    requires JudgeAlike(a, b, s)
    ensures a.EvaluateDirect(s) == b.EvaluateDirect(s)
  {
    MatchingAlike(a, b, s, IdList([s.chainId] + a.candidates));
    var ids := a.Considered(s);
    FirstServingAlike(a, b, s, ids);
    assert a.Rejections(ids, s) == b.Rejections(ids, s);
  }

  lemma {:induction false} DirectOfAlike(a: Setting, b: Setting, services: seq<ServiceSnapshot>)
    requires forall s :: s in services ==> JudgeAlike(a, b, s)
    ensures DirectOf(a, services) == DirectOf(b, services)
  {
    if services == [] {
    } else {
      DirectOfAlike(a, b, services[..|services|-1]);
      EvaluatedAlike(a, b, services[|services|-1]);
    }
  }

  /** With the same anchors, and no chain that starts or stops being valid in between, two instants look alike. */
  lemma NothingChangesBetween(snapshot: Snapshot, from: Instant, to: Instant)
    requires from <= to && ActiveAnchors(snapshot.config, from) == ActiveAnchors(snapshot.config, to)
    requires forall c :: c in snapshot.chains ==> !(from < c.validFrom <= to) && !(from < c.validTo <= to)
    ensures WorldAt(snapshot, from) == WorldAt(snapshot, to)
  {
    var a, b := SettingAt(snapshot, from), SettingAt(snapshot, to);
    forall s | s in snapshot.services ensures JudgeAlike(a, b, s) {
      forall id | id in a.chains
        ensures (a.Serves(a.chains[id], s) <==> b.Serves(a.chains[id], s))
             && a.Rejection(a.chains[id], s) == b.Rejection(a.chains[id], s)
      {
        ChainValues(snapshot.chains, id);
      }
    }
    DirectOfAlike(a, b, snapshot.services);
  }

  /** Without validity changes every instant of the interval looks exactly like the sample of its phase. */
  lemma SamplingIsSound(snapshot: Snapshot, t: Instant)
    requires snapshot.config.overlapStart < snapshot.config.overlapEnd
    requires Quiet(snapshot) && Spanned(snapshot.config, t)
    ensures Sample(snapshot.config, t) in Times(snapshot.config)
    ensures WorldAt(snapshot, t) == WorldAt(snapshot, Sample(snapshot.config, t))
  {
    var config := snapshot.config;
    var sample := Sample(config, t);
    assert sample in SourceInstants(config) by {
      assert SourceInstants(config)[0] == config.overlapStart - MINUTE;
      assert SourceInstants(config)[1] == config.overlapStart;
      assert SourceInstants(config)[4] == config.overlapEnd + MINUTE;
    }
    NothingChangesBetween(snapshot, if sample <= t then sample else t, if sample <= t then t else sample);
  }

  /** So an empty failure list really means that nothing fails at any instant of the interval. */
  lemma NoFailuresMeansNeverUnreachable(snapshot: Snapshot, t: Instant, id: Id)
    requires snapshot.config.overlapStart < snapshot.config.overlapEnd
    requires Quiet(snapshot) && Spanned(snapshot.config, t)
    requires SimulationResult(snapshot).affectedServices == [] && HasActive(snapshot.services, id)
    ensures Usable(WorldAt(snapshot, t), id)
  {
    SamplingIsSound(snapshot, t);
    AffectedMeaning(snapshot, id, Sample(snapshot.config, t));
  }

  // ---------------------------------------------------------------- what sampling misses

  /** The first instant of the phase of `t` inside the spanned interval. */
  function PhaseStart(config: ScenarioConfig, t: Instant): Instant {
    if t < config.overlapStart then config.overlapStart - MINUTE
    else if t <= config.overlapEnd then config.overlapStart
    else config.overlapEnd + 1
  }

  /** The last instant up to `t` at which some chain starts or stops being valid, but not before `from`. */
  function LastChange(chains: seq<ChainSnapshot>, from: Instant, t: Instant): (r: Instant)
    requires from <= t
    ensures from <= r <= t
    ensures forall c :: c in chains ==> !(r < c.validFrom <= t) && !(r < c.validTo <= t)
    ensures r == from || exists c :: c in chains && (r == c.validFrom || r == c.validTo)
  {
    if chains == [] then from
    else
      var c := chains[0];
      assert forall x :: x in chains <==> x == c || x in chains[1..];
      var later := if from < c.validFrom <= t then c.validFrom else from;
      LastChange(chains[1..], if later < c.validTo <= t then c.validTo else later, t)
  }

  /** The instants that would have to be sampled as well: the first one after overlap, and every validity change. */
  ghost predicate MissedInstant(snapshot: Snapshot, t: Instant) {
    && Spanned(snapshot.config, t)
    && (t == snapshot.config.overlapEnd + 1
        || exists c :: c in snapshot.chains && (t == c.validFrom || t == c.validTo))
  }

  lemma EveryInstantIsRepresented(snapshot: Snapshot, t: Instant) returns (r: Instant)
    requires snapshot.config.overlapStart < snapshot.config.overlapEnd && Spanned(snapshot.config, t)
    ensures WorldAt(snapshot, r) == WorldAt(snapshot, t)
    ensures r in Times(snapshot.config) || MissedInstant(snapshot, r)
  {
    var config := snapshot.config;
    var start := PhaseStart(config, t);
    r := LastChange(snapshot.chains, start, t);
    NothingChangesBetween(snapshot, r, t);
    assert SourceInstants(config)[0] == config.overlapStart - MINUTE;
    assert SourceInstants(config)[1] == config.overlapStart;
  }

  ghost predicate AllUsableAt(snapshot: Snapshot, t: Instant) {
    forall id :: HasActive(snapshot.services, id) ==> Usable(WorldAt(snapshot, t), id)
  }

  /**
   A simulation without failures tells the truth about every instant of the interval exactly when nothing
   fails at the finitely many instants that it missed.
   */
  lemma NoFailuresIsTrueExactlyWhen(snapshot: Snapshot)
    requires snapshot.config.overlapStart < snapshot.config.overlapEnd
    requires SimulationResult(snapshot).affectedServices == []
    ensures (forall t :: Spanned(snapshot.config, t) ==> AllUsableAt(snapshot, t))
       <==> (forall t :: MissedInstant(snapshot, t) ==> AllUsableAt(snapshot, t))
  {
    if forall t :: MissedInstant(snapshot, t) ==> AllUsableAt(snapshot, t) {
      forall t | Spanned(snapshot.config, t) ensures AllUsableAt(snapshot, t) {
        var r := EveryInstantIsRepresented(snapshot, t);
        if r in Times(snapshot.config) {
          NoFailuresAtSample(snapshot, r);
        }
        assert AllUsableAt(snapshot, r);
      }
    }
  }

  lemma NoFailuresAtSample(snapshot: Snapshot, t: Instant)
    requires SimulationResult(snapshot).affectedServices == [] && t in Times(snapshot.config)
    ensures AllUsableAt(snapshot, t)
  {
    forall id | HasActive(snapshot.services, id) ensures Usable(WorldAt(snapshot, t), id) {
      AffectedMeaning(snapshot, id, t);
    }
  }
}
