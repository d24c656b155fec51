/** From stored service rows to a frozen snapshot: `servicesContainCycle` and `buildSnapshot`. */
module FrozenInput {
  import opened Ordering
  import opened RolloverModel
  import opened Graphs
  import opened CycleCheck
  import opened Simulator
  import opened Canonical

  /** A stored service. Its identifier lists stand for the JSON columns that encode them. */
  datatype DependentService = DependentService(
    id: Id, serviceCode: string, name: string, ownerTeam: string, environment: string, chainId: Id,
    clientTrustRefs: seq<Id>, protocol: string, criticality: string, dependencyEdges: seq<Id>,
    serviceState: string)

  function RowKey(row: DependentService): int { row.id }

  /** The dependency graph of a list of rows; a repeated identifier keeps its last entry. */
  function RowEdges(rows: seq<DependentService>): Edges {
    if rows == [] then map[]
    else
      var last := rows[|rows|-1];
      RowEdges(rows[..|rows|-1])[last.id := IdList(last.dependencyEdges)]
  }

  /** Accepts exactly the closed acyclic graphs, in whatever order the map is iterated. */
  method ServicesContainCycle(services: seq<DependentService>) returns (error: Option<GraphError>)
    ensures error.None? <==> Acyclic(RowEdges(services)) && Closed(RowEdges(services))
    ensures error.Some? ==> Justified(RowEdges(services), true, error.value)
  {
    var edges: Edges := map[];
    for i := 0 to |services|
      invariant edges == RowEdges(services[..i])
    {
      assert services[..i+1][..i] == services[..i];
      var ids := SortedUnique(services[i].dependencyEdges);
      edges := edges[services[i].id := ids];
    }
    assert services[..|services|] == services;
    var walk := new Walk(edges, true);
    error := walk.VisitAll();
  }

  function Freeze(row: DependentService): ServiceSnapshot {
    ServiceSnapshot(row.id, row.serviceCode, row.chainId, IdList(row.clientTrustRefs),
                    IdList(row.dependencyEdges), row.criticality, row.serviceState)
  }

  function FreezeAll(rows: seq<DependentService>): (r: seq<ServiceSnapshot>)
    ensures |r| == |rows| && forall i :: 0 <= i < |r| ==> r[i] == Freeze(rows[i])
  {
    seq(|rows|, i requires 0 <= i < |rows| => Freeze(rows[i]))
  }

  lemma NextFrozen(rows: seq<DependentService>, i: nat)
    requires i < |rows|
    ensures FreezeAll(rows[..i+1]) == FreezeAll(rows[..i]) + [Freeze(rows[i])]
  {
  }

  datatype Frozen = Frozen(snapshot: Snapshot) | Invalid(error: SnapshotError)

  method BuildSnapshot(config: ScenarioConfig, anchors: seq<AnchorSnapshot>, chains: seq<ChainSnapshot>,
                       services: seq<DependentService>)
    returns (r: Frozen)
    ensures r.Frozen? <==> Simulable(CanonicalForm(config, anchors, chains, FreezeAll(services)))
    ensures r.Frozen? ==> r.snapshot == CanonicalForm(config, anchors, chains, FreezeAll(services))
    ensures r.Invalid? ==> ErrorFits(CanonicalForm(config, anchors, chains, FreezeAll(services)), r.error)
  {
    hide CanonicalForm;
    hide Simulable;
    hide ErrorFits;
    hide FreezeAll;
    var frozen: seq<ServiceSnapshot> := [];
    for i := 0 to |services|
      invariant frozen == FreezeAll(services[..i])
    {
      NextFrozen(services, i);
      var trust := SortedUnique(services[i].clientTrustRefs);
      var dependencies := SortedUnique(services[i].dependencyEdges);
      frozen := frozen + [ServiceSnapshot(services[i].id, services[i].serviceCode, services[i].chainId, trust,
                                          dependencies, services[i].criticality, services[i].serviceState)];
    }
    assert services[..|services|] == services;
    var anchorArray := new AnchorSnapshot[|anchors|](i requires 0 <= i < |anchors| => anchors[i]);
    var chainArray := new ChainSnapshot[|chains|](i requires 0 <= i < |chains| => chains[i]);
    var serviceArray := new ServiceSnapshot[|frozen|](i requires 0 <= i < |frozen| => frozen[i]);
    assert anchorArray[..] == anchors && chainArray[..] == chains && serviceArray[..] == frozen;
    var snapshot := NewSnapshot(config, anchorArray, chainArray, serviceArray);
    var error := ValidateSnapshot(snapshot);
    r := if error.Some? then Invalid(error.value) else Frozen(snapshot);
  }

  // ---------------------------------------------------------------- nothing is lost by freezing

  /** The frozen service has every column of the row that the simulation reads. */
  ghost predicate FrozenFrom(s: ServiceSnapshot, row: DependentService) {
    && s.id == row.id && s.code == row.serviceCode && s.chainId == row.chainId
    && s.criticality == row.criticality && s.state == row.serviceState
    && SameIds(s.trustAnchorIds, row.clientTrustRefs) && SameIds(s.dependencyIds, row.dependencyEdges)
  }

  lemma FrozenThenCanonical(row: DependentService, s: ServiceSnapshot)
    requires SameService(s, Freeze(row)) || SameService(Freeze(row), s)
    ensures FrozenFrom(s, row)
  {
  }

  ghost predicate RowsFrozen(services: seq<ServiceSnapshot>, rows: seq<DependentService>) {
    && |services| == |rows|
    && (forall row :: row in rows ==> exists s :: s in services && FrozenFrom(s, row))
    && forall s :: s in services ==> exists row :: row in rows && FrozenFrom(s, row)
  }

  lemma CanonicalRowsFrozen(rows: seq<DependentService>, services: seq<ServiceSnapshot>)
    requires |services| == |rows|
    requires Represented(services, FreezeAll(rows)) && Represented(FreezeAll(rows), services)
    ensures RowsFrozen(services, rows)
  {
    hide SameService;
    hide FrozenFrom;
    hide Freeze;
    var frozen := FreezeAll(rows);
    forall row | row in rows ensures exists s :: s in services && FrozenFrom(s, row) {
      var i :| 0 <= i < |rows| && rows[i] == row;
      assert frozen[i] in frozen;
      var s :| s in services && SameService(frozen[i], s);
      FrozenThenCanonical(row, s);
    }
    forall s | s in services ensures exists row :: row in rows && FrozenFrom(s, row) {
      var raw :| raw in frozen && SameService(s, raw);
      var i :| 0 <= i < |frozen| && frozen[i] == raw;
      FrozenThenCanonical(rows[i], s);
    }
  }

  /** The snapshot holds the given configuration, anchors and chains, and exactly one frozen service per row. */
  lemma SnapshotKeepsRows(config: ScenarioConfig, anchors: seq<AnchorSnapshot>, chains: seq<ChainSnapshot>,
                          rows: seq<DependentService>)
    ensures var snapshot := CanonicalForm(config, anchors, chains, FreezeAll(rows));
            && snapshot.config == config.(candidateChainIds := snapshot.config.candidateChainIds)
            && SameIds(snapshot.config.candidateChainIds, config.candidateChainIds)
            && SameElements(snapshot.anchors, anchors) && SameElements(snapshot.chains, chains)
            && RowsFrozen(snapshot.services, rows)
  {
    hide RowsFrozen;
    hide Represented;
    CanonicalFormKeepsInput(config, anchors, chains, FreezeAll(rows));
    CanonicalRowsFrozen(rows, CanonicalServices(FreezeAll(rows)));
  }

  // ---------------------------------------------------------------- the two cycle checks agree

  lemma {:induction false} RowEdgesAreFrozenEdges(rows: seq<DependentService>)
    ensures EdgesOf(FreezeAll(rows)) == RowEdges(rows)
  {
    if rows == [] {
    } else {
      var init := rows[..|rows|-1];
      RowEdgesAreFrozenEdges(init);
      assert FreezeAll(rows)[..|init|] == FreezeAll(init);
    }
  }

  predicate SortedDependencies(s: ServiceSnapshot) {
    IdList(s.dependencyIds) == s.dependencyIds
  }

  lemma FrozenListsAreSorted(rows: seq<DependentService>)
    requires DistinctKeys(rows, RowKey)
    ensures DistinctKeys(FreezeAll(rows), ServiceKey)
    ensures forall s :: s in FreezeAll(rows) ==> SortedDependencies(s)
  {
    var frozen := FreezeAll(rows);
    forall i, j | 0 <= i < j < |frozen| ensures ServiceKey(frozen[i]) != ServiceKey(frozen[j]) {
      assert RowKey(rows[i]) != RowKey(rows[j]);
    }
    forall s | s in frozen ensures SortedDependencies(s) {
      var i :| 0 <= i < |frozen| && frozen[i] == s;
      SameIdsSameList(IdList(rows[i].dependencyEdges), rows[i].dependencyEdges);
    }
  }

  /** Canonicalisation keeps the graph when the dependency lists are already sorted and duplicate-free. */
  lemma CanonicalEdges(services: seq<ServiceSnapshot>, id: Id)
    requires DistinctKeys(services, ServiceKey)
    requires forall s :: s in services ==> SortedDependencies(s)
    ensures var g, h := EdgesOf(services), EdgesOf(CanonicalServices(services));
            (id in g <==> id in h) && (id in g ==> g[id] == h[id])
  {
    CanonicalServicesStrict(services);
    CanonicalIds(services, id);
    EdgesOfKeys(services, id);
    EdgesOfKeys(CanonicalServices(services), id);
    if HasService(services, id) {
      var s :| s in services && s.id == id;
      CanonicalMember(services, s);
      EdgesOfValue(services, s);
      EdgesOfValue(CanonicalServices(services), CanonicalService(s));
    }
  }

  /** The graph of a frozen snapshot is the graph that `servicesContainCycle` saw. */
  lemma FrozenGraphIsStoredGraph(rows: seq<DependentService>)
    requires DistinctKeys(rows, RowKey)
    ensures EdgesOf(CanonicalServices(FreezeAll(rows))) == RowEdges(rows)
  {
    var frozen := FreezeAll(rows);
    RowEdgesAreFrozenEdges(rows);
    FrozenListsAreSorted(rows);
    var g, h := EdgesOf(frozen), EdgesOf(CanonicalServices(frozen));
    forall id ensures (id in g <==> id in h) && (id in g ==> g[id] == h[id]) {
      CanonicalEdges(frozen, id);
    }
  }

  /**
   Rows that pass the store's cycle check can be frozen: the snapshot is rejected only for its
   configuration, its anchors or its candidates.
   */
  lemma AcceptedRowsCanBeFrozen(config: ScenarioConfig, anchors: seq<AnchorSnapshot>, chains: seq<ChainSnapshot>,
                                rows: seq<DependentService>, error: SnapshotError)
    requires DistinctKeys(rows, RowKey) && Acyclic(RowEdges(rows))
    requires ErrorFits(CanonicalForm(config, anchors, chains, FreezeAll(rows)), error)
    ensures !error.DependencyCycle?
  {
    FrozenGraphIsStoredGraph(rows);
    if error.DependencyCycle? {
      JustifiedMeansRejected(RowEdges(rows), false, error.cycle);
    }
  }
}
