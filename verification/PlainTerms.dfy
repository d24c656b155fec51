/**
 What the simulation accepts and reports, said in terms of the frozen records alone: no function of the
 simulation occurs in these statements except the result itself.
 */
module PlainTerms {
  import opened Ordering
  import opened RolloverModel
  import opened Graphs
  import opened CycleCheck
  import opened DirectEvaluation
  import opened Resolution
  import opened Reachability
  import opened CriticalTimes
  import opened Simulator
  import opened SimulationTheorems
  import opened Comparisons
  import opened Canonical

  // ---------------------------------------------------------------- being served

  /** Chain `c` can serve `s`, whose configured chain is `configured`. */
  ghost predicate Suits(config: ScenarioConfig, at: Instant, s: ServiceSnapshot, configured: ChainSnapshot,
                        c: ChainSnapshot)
  {
    && configured.id == s.chainId && c.leafSubject == configured.leafSubject
    && c.id > 0 && (c.id == s.chainId || c.id in config.candidateChainIds)
    && c.state != "revoked" && c.state != "deprecated" && c.validationValid
    && c.validFrom <= at && at < c.validTo
    && ((c.anchorId == config.oldAnchorId && at <= config.overlapEnd)
        || (c.anchorId == config.newAnchorId && at >= config.overlapStart))
    && c.anchorId in s.trustAnchorIds
  }

  ghost predicate Served(snapshot: Snapshot, at: Instant, s: ServiceSnapshot) {
    && s.state == "active"
    && exists configured, c :: configured in snapshot.chains && c in snapshot.chains
                               && Suits(snapshot.config, at, s, configured, c)
  }

  ghost predicate SomeServed(snapshot: Snapshot, at: Instant, id: Id) {
    exists s :: s in snapshot.services && s.id == id && Served(snapshot, at, s)
  }

  lemma EligibleMeansSuits(snapshot: Snapshot, at: Instant, s: ServiceSnapshot, id: Id)
    requires snapshot.config.overlapStart < snapshot.config.overlapEnd && SettingAt(snapshot, at).Eligible(id, s)
    ensures exists configured, c :: configured in snapshot.chains && c in snapshot.chains
                                    && Suits(snapshot.config, at, s, configured, c)
  {
    var byId := ChainsById(snapshot.chains);
    ChainValues(snapshot.chains, id);
    ChainValues(snapshot.chains, s.chainId);
    AnchorIsActiveExactlyWhen(snapshot.config, at, byId[id].anchorId);
    assert Suits(snapshot.config, at, s, byId[s.chainId], byId[id]);
  }

  lemma SuitsMeansEligible(snapshot: Snapshot, at: Instant, s: ServiceSnapshot, configured: ChainSnapshot, c: ChainSnapshot)
    requires snapshot.config.overlapStart < snapshot.config.overlapEnd && DistinctKeys(snapshot.chains, ChainKey)
    requires configured in snapshot.chains && c in snapshot.chains && Suits(snapshot.config, at, s, configured, c)
    ensures SettingAt(snapshot, at).Eligible(c.id, s)
  {
    ChainsByIdValue(snapshot.chains, configured);
    ChainsByIdValue(snapshot.chains, c);
    AnchorIsActiveExactlyWhen(snapshot.config, at, c.anchorId);
  }

  lemma HealthyMeansServed(snapshot: Snapshot, at: Instant, id: Id)
    requires snapshot.config.overlapStart < snapshot.config.overlapEnd
    requires DistinctKeys(snapshot.chains, ChainKey) && DistinctKeys(snapshot.services, ServiceKey)
    ensures WorldAt(snapshot, at).Healthy(id) <==> SomeServed(snapshot, at, id)
  {
    DirectOfKeys(SettingAt(snapshot, at), snapshot.services);
    hide DirectOf;
    forall s | s in snapshot.services && s.id == id
      ensures WorldAt(snapshot, at).Healthy(id) <==> Served(snapshot, at, s)
    {
      HealthyMeaning(snapshot, at, s);
      hide WorldAt;
      hide Suits;
      hide Setting.Eligible;
      forall chain | SettingAt(snapshot, at).Eligible(chain, s) ensures s.state == "active" ==> Served(snapshot, at, s) {
        EligibleMeansSuits(snapshot, at, s, chain);
      }
      forall configured, c | configured in snapshot.chains && c in snapshot.chains
                             && Suits(snapshot.config, at, s, configured, c)
        ensures SettingAt(snapshot, at).Eligible(c.id, s)
      {
        SuitsMeansEligible(snapshot, at, s, configured, c);
      }
    }
  }

  // ---------------------------------------------------------------- depending on

  ghost predicate DependsOn(snapshot: Snapshot, id: Id, next: Id) {
    exists s :: s in snapshot.services && s.id == id && next in s.dependencyIds
  }

  /** Each service of the list depends on the one after it. */
  ghost predicate DependencyPath(snapshot: Snapshot, p: seq<Id>) {
    p != [] && (|p| > 1 ==> DependsOn(snapshot, p[0], p[1]) && DependencyPath(snapshot, p[1..]))
  }

  lemma EdgesAreDependencies(snapshot: Snapshot, id: Id, next: Id)
    requires DistinctKeys(snapshot.services, ServiceKey)
    ensures next in Successors(EdgesOf(snapshot.services), id) <==> DependsOn(snapshot, id, next)
  {
    EdgesOfKeys(snapshot.services, id);
    forall s | s in snapshot.services && s.id == id ensures EdgesOf(snapshot.services)[id] == s.dependencyIds {
      EdgesOfValue(snapshot.services, s);
    }
  }

  lemma {:induction false} PathsAreDependencyPaths(snapshot: Snapshot, p: seq<Id>)
    requires DistinctKeys(snapshot.services, ServiceKey)
    ensures IsPath(EdgesOf(snapshot.services), p) <==> DependencyPath(snapshot, p)
  {
    if |p| <= 1 {
    } else {
      EdgesAreDependencies(snapshot, p[0], p[1]);
      PathsAreDependencyPaths(snapshot, p[1..]);
    }
  }

  // ---------------------------------------------------------------- accepting and reporting

  /** A snapshot is simulated exactly when its configuration is sound and no service depends on itself. */
  lemma AcceptedExactlyWhen(snapshot: Snapshot)
    requires DistinctKeys(snapshot.services, ServiceKey)
    ensures var config := snapshot.config;
            Simulable(snapshot) <==>
              && config.oldAnchorId > 0 && config.newAnchorId > 0 && config.oldAnchorId != config.newAnchorId
              && config.overlapStart < config.overlapEnd && config.simulationTime != 0
              && (exists a :: a in snapshot.anchors && a.id == config.oldAnchorId)
              && (exists a :: a in snapshot.anchors && a.id == config.newAnchorId)
              && (forall id :: id in config.candidateChainIds ==> exists c :: c in snapshot.chains && c.id == id)
              && forall p :: DependencyPath(snapshot, p) && |p| > 1 ==> p[0] != p[|p|-1]
  {
    hide IsPath;
    hide DependencyPath;
    forall p ensures IsPath(EdgesOf(snapshot.services), p) <==> DependencyPath(snapshot, p) {
      PathsAreDependencyPaths(snapshot, p);
    }
    if Acyclic(EdgesOf(snapshot.services)) {
      forall p | DependencyPath(snapshot, p) && |p| > 1 ensures p[0] != p[|p|-1] {
        assert !IsCycle(EdgesOf(snapshot.services), p);
      }
    }
  }

  /**
   A service is reported at an instant exactly when the instant is sampled, the service is active, and some
   chain of dependencies leads from it (perhaps without any step) to a service that nothing serves.
   */
  lemma ReportedExactlyWhen(snapshot: Snapshot, id: Id, at: Instant)
    requires Simulable(snapshot)
    requires DistinctKeys(snapshot.chains, ChainKey) && DistinctKeys(snapshot.services, ServiceKey)
    ensures var config, affected := snapshot.config, SimulationResult(snapshot).affectedServices;
            (exists a :: a in affected && a.serviceId == id && a.at == at) <==>
              && (|| at == config.overlapStart - 60_000_000_000 || at == config.overlapStart
                  || at == Midpoint(config) || at == config.overlapEnd
                  || at == config.overlapEnd + 60_000_000_000 || at == config.simulationTime)
              && (exists s :: s in snapshot.services && s.id == id && s.state == "active")
              && exists p :: DependencyPath(snapshot, p) && p[0] == id && !SomeServed(snapshot, at, p[|p|-1])
  {
    var w := WorldAt(snapshot, at);
    SampledExactlyWhen(snapshot.config, at);
    AffectedMeaning(snapshot, id, at);
    ReachableIsLeastSolution(w, id);
    ReachableMeansHealthyClosure(w, id);
    UnservedPaths(snapshot, id, at);
    assert Fails(SimulationResult(snapshot), id, at) <==>
           exists a :: a in SimulationResult(snapshot).affectedServices && a.serviceId == id && a.at == at;
    assert HasActive(snapshot.services, id) <==>
           exists s :: s in snapshot.services && s.id == id && s.state == "active";
  }

  lemma UnservedPaths(snapshot: Snapshot, id: Id, at: Instant)
    requires snapshot.config.overlapStart < snapshot.config.overlapEnd
    requires DistinctKeys(snapshot.chains, ChainKey) && DistinctKeys(snapshot.services, ServiceKey)
    ensures var w := WorldAt(snapshot, at);
            (forall p :: IsPath(w.edges, p) && p[0] == id ==> w.Healthy(Last(p))) <==>
            !exists p :: DependencyPath(snapshot, p) && p[0] == id && !SomeServed(snapshot, at, p[|p|-1])
  {
    hide IsPath;
    hide DependencyPath;
    hide SomeServed;
    hide DirectOf;
    hide World.Healthy;
    var w := WorldAt(snapshot, at);
    forall p ensures IsPath(w.edges, p) <==> DependencyPath(snapshot, p) {
      PathsAreDependencyPaths(snapshot, p);
    }
    forall x ensures w.Healthy(x) <==> SomeServed(snapshot, at, x) {
      HealthyMeansServed(snapshot, at, x);
    }
  }
}
