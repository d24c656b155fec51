/** The canonical form that `NewSnapshot` gives to frozen input. */
module Canonical {
  import opened Ordering
  import opened RolloverModel
  import opened Graphs
  import opened CycleCheck
  import opened DirectEvaluation
  import opened Resolution
  import opened Reachability
  import opened Simulator
  import opened SimulationTheorems
  import opened Comparisons

  function CanonicalService(s: ServiceSnapshot): ServiceSnapshot {
    s.(trustAnchorIds := IdList(s.trustAnchorIds), dependencyIds := IdList(s.dependencyIds))
  }

  function EachCanonical(services: seq<ServiceSnapshot>): (r: seq<ServiceSnapshot>)
    ensures |r| == |services| && forall i :: 0 <= i < |r| ==> r[i] == CanonicalService(services[i])
  {
    seq(|services|, i requires 0 <= i < |services| => CanonicalService(services[i]))
  }

  function CanonicalServices(services: seq<ServiceSnapshot>): seq<ServiceSnapshot> {
    EachCanonical(SortBy(services, ServiceKey))
  }

  function CanonicalForm(config: ScenarioConfig, anchors: seq<AnchorSnapshot>, chains: seq<ChainSnapshot>,
                         services: seq<ServiceSnapshot>): Snapshot {
    Snapshot(config.(candidateChainIds := IdList(config.candidateChainIds)),
             SortBy(anchors, AnchorKey), SortBy(chains, ChainKey), CanonicalServices(services))
  }

  method RewriteIdLists(services: array<ServiceSnapshot>)
    modifies services
    ensures services[..] == EachCanonical(old(services[..]))
  {
    ghost var before := services[..];
    for index := 0 to services.Length
      invariant services[..index] == EachCanonical(before[..index])
      invariant services[index..] == before[index..]
    {
      var service := services[index];
      assert service == services[index..][0] == before[index];
      var trust := SortedUnique(service.trustAnchorIds);
      var dependencies := SortedUnique(service.dependencyIds);
      ghost var front, rest := services[..index], services[index..][1..];
      services[index] := service.(trustAnchorIds := trust, dependencyIds := dependencies);
      assert services[..index+1] == front + [CanonicalService(service)];
      assert services[index+1..] == rest;
    }
    assert before[..|before|] == before;
    assert services[..services.Length] == services[..];
  }

  /** Sorts the caller's slices in place and rewrites the identifier lists of the services in place. */
  method NewSnapshot(config: ScenarioConfig, anchors: array<AnchorSnapshot>, chains: array<ChainSnapshot>,
                     services: array<ServiceSnapshot>)
    returns (snapshot: Snapshot)
    modifies anchors, chains, services
    ensures snapshot == CanonicalForm(config, old(anchors[..]), old(chains[..]), old(services[..]))
    ensures anchors[..] == snapshot.anchors && chains[..] == snapshot.chains && services[..] == snapshot.services
  {
    var candidates := SortedUnique(config.candidateChainIds);
    SortInPlace(anchors, AnchorKey);
    SortInPlace(chains, ChainKey);
    SortInPlace(services, ServiceKey);
    RewriteIdLists(services);
    snapshot := Snapshot(config.(candidateChainIds := candidates), anchors[..], chains[..], services[..]);
  }

  // ---------------------------------------------------------------- one form per input

  /** Two identifier lists that differ only in order, repetition and zeros. */
  ghost predicate SameIds(a: seq<Id>, b: seq<Id>) {
    forall id :: id > 0 ==> (id in a <==> id in b)
  }

  ghost predicate SameService(s: ServiceSnapshot, t: ServiceSnapshot) {
    && t == s.(trustAnchorIds := t.trustAnchorIds, dependencyIds := t.dependencyIds)
    && SameIds(s.trustAnchorIds, t.trustAnchorIds) && SameIds(s.dependencyIds, t.dependencyIds)
  }

  ghost predicate Represented(ss: seq<ServiceSnapshot>, ts: seq<ServiceSnapshot>) {
    forall s :: s in ss ==> exists t :: t in ts && SameService(s, t)
  }

  lemma SameIdsSameList(a: seq<Id>, b: seq<Id>)
    requires SameIds(a, b)
    ensures IdList(a) == IdList(b)
  {
    StrictlyIncreasingIsUnique(IdList(a), IdList(b));
  }

  lemma SortedRecordsAgree<T(!new)>(a: seq<T>, b: seq<T>, key: T -> int)
    requires DistinctKeys(a, key) && DistinctKeys(b, key) && SameElements(a, b)
    ensures SortBy(a, key) == SortBy(b, key)
  {
    SortByStrict(a, key);
    SortByStrict(b, key);
    SortByKeepsElements(a, key);
    SortByKeepsElements(b, key);
    StrictlyByIsUnique(SortBy(a, key), SortBy(b, key), key);
  }

  lemma CanonicalServicesStrict(services: seq<ServiceSnapshot>)
    requires DistinctKeys(services, ServiceKey)
    ensures StrictlyBy(CanonicalServices(services), ServiceKey)
  {
    SortByStrict(services, ServiceKey);
    var sorted, r := SortBy(services, ServiceKey), CanonicalServices(services);
    forall i, j | 0 <= i < j < |r| ensures ServiceKey(r[i]) < ServiceKey(r[j]) {
      assert ServiceKey(sorted[i]) < ServiceKey(sorted[j]);
    }
  }

  lemma CanonicalMember(services: seq<ServiceSnapshot>, s: ServiceSnapshot)
    requires s in services
    ensures CanonicalService(s) in CanonicalServices(services)
  {
    SortByKeepsElements(services, ServiceKey);
    var sorted := SortBy(services, ServiceKey);
    var i :| 0 <= i < |sorted| && sorted[i] == s;
    assert CanonicalServices(services)[i] == CanonicalService(s);
  }

  lemma CanonicalOrigin(services: seq<ServiceSnapshot>, s: ServiceSnapshot) returns (raw: ServiceSnapshot)
    requires s in CanonicalServices(services)
    ensures raw in services && s == CanonicalService(raw)
  {
    SortByKeepsElements(services, ServiceKey);
    var r := CanonicalServices(services);
    var i :| 0 <= i < |r| && r[i] == s;
    raw := SortBy(services, ServiceKey)[i];
  }

  lemma RepresentedCanonically(ss: seq<ServiceSnapshot>, ts: seq<ServiceSnapshot>)
    requires Represented(ss, ts)
    ensures forall s :: s in CanonicalServices(ss) ==> s in CanonicalServices(ts)
  {
    forall s | s in CanonicalServices(ss) ensures s in CanonicalServices(ts) {
      var raw := CanonicalOrigin(ss, s);
      var t :| t in ts && SameService(raw, t);
      SameIdsSameList(raw.trustAnchorIds, t.trustAnchorIds);
      SameIdsSameList(raw.dependencyIds, t.dependencyIds);
      CanonicalMember(ts, t);
    }
  }

  ghost predicate HasService(services: seq<ServiceSnapshot>, id: Id) {
    exists s :: s in services && s.id == id
  }

  lemma CanonicalIds(services: seq<ServiceSnapshot>, id: Id)
    ensures HasService(CanonicalServices(services), id) <==> HasService(services, id)
    ensures HasActive(CanonicalServices(services), id) <==> HasActive(services, id)
  {
    forall s | s in CanonicalServices(services) ensures HasService(services, s.id) && (s.Active() ==> HasActive(services, s.id)) {
      var raw := CanonicalOrigin(services, s);
    }
    forall s | s in services
      ensures HasService(CanonicalServices(services), s.id)
      ensures s.Active() ==> HasActive(CanonicalServices(services), s.id)
    {
      CanonicalMember(services, s);
    }
  }

  /** Inputs that differ only in the order of records, or in the order, repetition and zeros of identifier lists. */
  lemma CanonicalFormIsUnique(config: ScenarioConfig, otherIds: seq<Id>,
                              anchors: seq<AnchorSnapshot>, anchors': seq<AnchorSnapshot>,
                              chains: seq<ChainSnapshot>, chains': seq<ChainSnapshot>,
                              services: seq<ServiceSnapshot>, services': seq<ServiceSnapshot>)
    requires SameIds(config.candidateChainIds, otherIds)
    requires DistinctKeys(anchors, AnchorKey) && DistinctKeys(anchors', AnchorKey) && SameElements(anchors, anchors')
    requires DistinctKeys(chains, ChainKey) && DistinctKeys(chains', ChainKey) && SameElements(chains, chains')
    requires DistinctKeys(services, ServiceKey) && DistinctKeys(services', ServiceKey)
    requires Represented(services, services') && Represented(services', services)
    ensures CanonicalForm(config, anchors, chains, services)
         == CanonicalForm(config.(candidateChainIds := otherIds), anchors', chains', services')
  {
    SameIdsSameList(config.candidateChainIds, otherIds);
    SortedRecordsAgree(anchors, anchors', AnchorKey);
    SortedRecordsAgree(chains, chains', ChainKey);
    RepresentedCanonically(services, services');
    RepresentedCanonically(services', services);
    CanonicalServicesStrict(services);
    CanonicalServicesStrict(services');
    StrictlyByIsUnique(CanonicalServices(services), CanonicalServices(services'), ServiceKey);
  }

  /** Nothing of the input is lost: every record is there, and every column but the identifier lists is unchanged. */
  lemma CanonicalFormKeepsInput(config: ScenarioConfig, anchors: seq<AnchorSnapshot>, chains: seq<ChainSnapshot>,
                                services: seq<ServiceSnapshot>)
    ensures var c := CanonicalForm(config, anchors, chains, services);
            && c.config == config.(candidateChainIds := c.config.candidateChainIds)
            && SameIds(c.config.candidateChainIds, config.candidateChainIds)
            && SameElements(c.anchors, anchors) && SameElements(c.chains, chains)
            && Represented(c.services, services) && Represented(services, c.services)
  {
    SortByKeepsElements(anchors, AnchorKey);
    SortByKeepsElements(chains, ChainKey);
    forall s | s in services ensures exists t :: t in CanonicalServices(services) && SameService(s, t) {
      CanonicalMember(services, s);
      assert SameService(s, CanonicalService(s));
    }
    forall s | s in CanonicalServices(services) ensures exists t :: t in services && SameService(s, t) {
      var raw := CanonicalOrigin(services, s);
      assert SameService(s, raw);
    }
  }

  lemma SameServiceTogether(s: ServiceSnapshot, t: ServiceSnapshot, u: ServiceSnapshot)
    requires SameService(s, t) && SameService(t, u)
    ensures SameService(s, u)
  {
  }

  lemma RepresentedTogether(a: seq<ServiceSnapshot>, b: seq<ServiceSnapshot>, c: seq<ServiceSnapshot>)
    requires Represented(a, b) && Represented(b, c)
    ensures Represented(a, c)
  {
    forall s | s in a ensures exists u :: u in c && SameService(s, u) {
      var t :| t in b && SameService(s, t);
      var u :| u in c && SameService(t, u);
      SameServiceTogether(s, t, u);
    }
  }

  /** The converse of uniqueness: inputs with equal canonical forms differ only in order, repetition and zeros. */
  lemma EqualFormsMeanSameInput(config: ScenarioConfig, config': ScenarioConfig,
                                anchors: seq<AnchorSnapshot>, anchors': seq<AnchorSnapshot>,
                                chains: seq<ChainSnapshot>, chains': seq<ChainSnapshot>,
                                services: seq<ServiceSnapshot>, services': seq<ServiceSnapshot>)
    requires CanonicalForm(config, anchors, chains, services) == CanonicalForm(config', anchors', chains', services')
    ensures config' == config.(candidateChainIds := config'.candidateChainIds)
    ensures SameIds(config.candidateChainIds, config'.candidateChainIds)
    ensures SameElements(anchors, anchors') && SameElements(chains, chains')
    ensures Represented(services, services') && Represented(services', services)
  {
    CanonicalFormKeepsInput(config, anchors, chains, services);
    CanonicalFormKeepsInput(config', anchors', chains', services');
    var c := CanonicalForm(config, anchors, chains, services);
    hide CanonicalForm;
    RepresentedTogether(services, c.services, services');
    RepresentedTogether(services', c.services, services);
    hide Represented;
    assert config'.(candidateChainIds := c.config.candidateChainIds)
        == config.(candidateChainIds := c.config.candidateChainIds);
  }

  lemma CanonicalTwice(s: ServiceSnapshot)
    ensures CanonicalService(CanonicalService(s)) == CanonicalService(s)
  {
    SameIdsSameList(IdList(s.trustAnchorIds), s.trustAnchorIds);
    SameIdsSameList(IdList(s.dependencyIds), s.dependencyIds);
  }

  lemma CanonicalFormIsIdempotent(config: ScenarioConfig, anchors: seq<AnchorSnapshot>, chains: seq<ChainSnapshot>,
                                  services: seq<ServiceSnapshot>)
    requires DistinctKeys(anchors, AnchorKey) && DistinctKeys(chains, ChainKey) && DistinctKeys(services, ServiceKey)
    ensures var c := CanonicalForm(config, anchors, chains, services);
            CanonicalForm(c.config, c.anchors, c.chains, c.services) == c
  {
    var c := CanonicalForm(config, anchors, chains, services);
    SameIdsSameList(IdList(config.candidateChainIds), config.candidateChainIds);
    SortByStrict(anchors, AnchorKey);
    SortByFixed(c.anchors, AnchorKey);
    SortByStrict(chains, ChainKey);
    SortByFixed(c.chains, ChainKey);
    CanonicalServicesStrict(services);
    SortByFixed(c.services, ServiceKey);
    forall i | 0 <= i < |c.services| ensures CanonicalService(c.services[i]) == c.services[i] {
      CanonicalTwice(SortBy(services, ServiceKey)[i]);
    }
    assert CanonicalServices(c.services) == c.services;
  }

  // ---------------------------------------------------------------- meaning is preserved

  lemma {:induction false} EdgesOfKeys(services: seq<ServiceSnapshot>, id: Id)
    ensures id in EdgesOf(services) <==> HasService(services, id)
  {
    if services == [] {
    } else {
      var init, last := services[..|services|-1], services[|services|-1];
      assert services == init + [last];
      EdgesOfKeys(init, id);
      if HasService(init, id) {
        var s :| s in init && s.id == id;
        assert s in services;
      }
      assert last in services;
    }
  }

  lemma {:induction false} EdgesOfValue(services: seq<ServiceSnapshot>, s: ServiceSnapshot)
    requires DistinctKeys(services, ServiceKey) && s in services
    ensures s.id in EdgesOf(services) && EdgesOf(services)[s.id] == s.dependencyIds
  {
    var init, last := services[..|services|-1], services[|services|-1];
    assert services == init + [last];
    if s == last {
    } else {
      EdgesOfValue(init, s);
      var i :| 0 <= i < |init| && init[i] == s;
      assert ServiceKey(services[i]) != ServiceKey(last);
    }
  }

  /** Raw records whose identifiers are what the database assigns: distinct and positive. */
  ghost predicate WellNumbered(snapshot: Snapshot) {
    && DistinctKeys(snapshot.chains, ChainKey) && DistinctKeys(snapshot.services, ServiceKey)
    && (forall c :: c in snapshot.chains ==> c.anchorId > 0)
    && (forall s :: s in snapshot.services ==> 0 !in s.dependencyIds)
  }

  ghost function CanonicalOf(snapshot: Snapshot): Snapshot {
    CanonicalForm(snapshot.config, snapshot.anchors, snapshot.chains, snapshot.services)
  }

  lemma {:induction false} ChainsByIdValue(chains: seq<ChainSnapshot>, c: ChainSnapshot)
    requires DistinctKeys(chains, ChainKey) && c in chains
    ensures c.id in ChainsById(chains) && ChainsById(chains)[c.id] == c
  {
    var init, last := chains[..|chains|-1], chains[|chains|-1];
    assert chains == init + [last];
    if c == last {
    } else {
      ChainsByIdValue(init, c);
      var i :| 0 <= i < |init| && init[i] == c;
      assert ChainKey(chains[i]) != ChainKey(last);
    }
  }

  lemma ChainsByIdSorted(chains: seq<ChainSnapshot>)
    requires DistinctKeys(chains, ChainKey)
    ensures ChainsById(SortBy(chains, ChainKey)) == ChainsById(chains)
  {
    var sorted := SortBy(chains, ChainKey);
    SortByStrict(chains, ChainKey);
    SortByKeepsElements(chains, ChainKey);
    assert DistinctKeys(sorted, ChainKey);
    forall id ensures id in ChainsById(sorted) <==> id in ChainsById(chains) {
      if id in ChainsById(sorted) { ChainValues(sorted, id); ChainsByIdValue(chains, ChainsById(sorted)[id]); }
      if id in ChainsById(chains) { ChainValues(chains, id); ChainsByIdValue(sorted, ChainsById(chains)[id]); }
    }
    forall id | id in ChainsById(chains) ensures ChainsById(sorted)[id] == ChainsById(chains)[id] {
      ChainValues(chains, id);
      ChainsByIdValue(sorted, ChainsById(chains)[id]);
    }
  }

  lemma CanonicalSetting(snapshot: Snapshot, at: Instant)
    requires WellNumbered(snapshot)
    ensures SettingAt(CanonicalOf(snapshot), at)
         == SettingAt(snapshot, at).(candidates := IdList(snapshot.config.candidateChainIds))
    ensures forall id :: id in ChainsById(snapshot.chains) ==> ChainsById(snapshot.chains)[id].anchorId > 0
  {
    ChainsByIdSorted(snapshot.chains);
    forall id | id in ChainsById(snapshot.chains) ensures ChainsById(snapshot.chains)[id].anchorId > 0 {
      ChainValues(snapshot.chains, id);
    }
  }

  lemma EligibleCanonically(a: Setting, b: Setting, s: ServiceSnapshot, id: Id)
    requires b == a.(candidates := IdList(a.candidates))
    requires forall chain :: chain in a.chains ==> a.chains[chain].anchorId > 0
    ensures a.Eligible(id, s) <==> b.Eligible(id, CanonicalService(s))
  {
  }

  /** A service is directly reachable before canonicalisation exactly when it is afterwards. */
  lemma CanonicalKeepsHealth(snapshot: Snapshot, canonical: Snapshot, at: Instant, s: ServiceSnapshot)
    requires WellNumbered(snapshot) && canonical == CanonicalOf(snapshot) && s in snapshot.services
    ensures WorldAt(snapshot, at).Healthy(s.id) <==> WorldAt(canonical, at).Healthy(s.id)
  {
    CanonicalServicesStrict(snapshot.services);
    CanonicalMember(snapshot.services, s);
    CanonicalSetting(snapshot, at);
    HealthyMeaning(snapshot, at, s);
    HealthyMeaning(canonical, at, CanonicalService(s));
    forall id
      ensures SettingAt(snapshot, at).Eligible(id, s) <==> SettingAt(canonical, at).Eligible(id, CanonicalService(s))
    {
      EligibleCanonically(SettingAt(snapshot, at), SettingAt(canonical, at), s, id);
    }
  }

  ghost predicate SameSuccessors(g: Edges, h: Edges, id: Id) {
    forall next :: next in Successors(g, id) <==> next in Successors(h, id)
  }

  lemma SameSuccessorsOf(g: Edges, h: Edges, id: Id, dependencies: seq<Id>)
    requires id in g && id in h && 0 !in dependencies
    requires g[id] == dependencies && h[id] == IdList(dependencies)
    ensures SameSuccessors(g, h, id)
  {
  }

  lemma CanonicalKeepsEdges(services: seq<ServiceSnapshot>, canonical: seq<ServiceSnapshot>, id: Id)
    requires DistinctKeys(services, ServiceKey) && canonical == CanonicalServices(services)
    requires forall s :: s in services ==> 0 !in s.dependencyIds
    ensures SameSuccessors(EdgesOf(services), EdgesOf(canonical), id)
  {
    CanonicalServicesStrict(services);
    CanonicalIds(services, id);
    EdgesOfKeys(services, id);
    EdgesOfKeys(canonical, id);
    if HasService(services, id) {
      var s :| s in services && s.id == id;
      CanonicalMember(services, s);
      EdgesOfValue(services, s);
      EdgesOfValue(canonical, CanonicalService(s));
      SameSuccessorsOf(EdgesOf(services), EdgesOf(canonical), id, s.dependencyIds);
    }
  }

  lemma UsableAlike(v: World, w: World, id: Id)
    requires (forall x :: v.Healthy(x) <==> w.Healthy(x)) && forall x :: SameSuccessors(v.edges, w.edges, x)
    ensures Usable(v, id) <==> Usable(w, id)
  {
    assert forall x :: SameSuccessors(v.edges, w.edges, x);
    assert DependsOnNoMore(v.edges, w.edges) && DependsOnNoMore(w.edges, v.edges) by {
      forall x, next | next in Successors(v.edges, x) || next in Successors(w.edges, x)
        ensures next in Successors(v.edges, x) && next in Successors(w.edges, x)
      {
        assert SameSuccessors(v.edges, w.edges, x);
      }
    }
    if Usable(v, id) { UsableTransfers(v, w, id); }
    if Usable(w, id) { UsableTransfers(w, v, id); }
  }

  /** Canonicalisation changes no verdict about any service at any instant. */
  lemma CanonicalKeepsReachability(snapshot: Snapshot, at: Instant, id: Id)
    requires WellNumbered(snapshot)
    ensures Usable(WorldAt(snapshot, at), id) <==> Usable(WorldAt(CanonicalOf(snapshot), at), id)
  {
    var canonical := CanonicalOf(snapshot);
    var v, w := WorldAt(snapshot, at), WorldAt(canonical, at);
    forall x ensures v.Healthy(x) <==> w.Healthy(x) {
      CanonicalHealthAt(snapshot, canonical, at, x);
    }
    forall x ensures SameSuccessors(v.edges, w.edges, x) {
      CanonicalKeepsEdges(snapshot.services, canonical.services, x);
    }
    UsableAlike(v, w, id);
  }

  lemma CanonicalHealthAt(snapshot: Snapshot, canonical: Snapshot, at: Instant, id: Id)
    requires WellNumbered(snapshot) && canonical == CanonicalOf(snapshot)
    ensures WorldAt(snapshot, at).Healthy(id) <==> WorldAt(canonical, at).Healthy(id)
  {
    if HasService(snapshot.services, id) {
      var s :| s in snapshot.services && s.id == id;
      CanonicalKeepsHealth(snapshot, canonical, at, s);
    } else {
      CanonicalIds(snapshot.services, id);
      DirectOfKeys(SettingAt(snapshot, at), snapshot.services);
      DirectOfKeys(SettingAt(canonical, at), canonical.services);
    }
  }
}
