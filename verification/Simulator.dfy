/** `ValidateSnapshot`, `Simulate` and `explain`: the rollover simulation of one frozen snapshot. */
module Simulator {
  import opened Ordering
  import opened RolloverModel
  import opened Graphs
  import opened CycleCheck
  import opened DirectEvaluation
  import opened Resolution
  import opened CriticalTimes

  datatype SnapshotError =
    | AnchorsNotDistinct
    | EmptyOverlap
    | SimulationTimeMissing
    | AnchorsMissing
    | CandidateMissing(id: Id)
    | DependencyCycle(cycle: GraphError)

  datatype Outcome = Simulated(result: Result) | Rejected(error: SnapshotError)

  predicate HasAnchor(snapshot: Snapshot, id: Id) {
    exists a :: a in snapshot.anchors && a.id == id
  }

  predicate HasChain(snapshot: Snapshot, id: Id) {
    exists c :: c in snapshot.chains && c.id == id
  }

  /** The snapshots that `ValidateSnapshot` accepts. */
  ghost predicate Simulable(snapshot: Snapshot) {
    var config := snapshot.config;
    && config.oldAnchorId != 0 && config.newAnchorId != 0 && config.oldAnchorId != config.newAnchorId
    && config.overlapStart < config.overlapEnd
    && config.simulationTime != ZERO_TIME
    && HasAnchor(snapshot, config.oldAnchorId) && HasAnchor(snapshot, config.newAnchorId)
    && (forall id :: id in config.candidateChainIds ==> HasChain(snapshot, id))
    && Acyclic(EdgesOf(snapshot.services))
  }

  /** What each validation error says about the snapshot: its own test fails and all earlier ones pass. */
  ghost predicate ErrorFits(snapshot: Snapshot, error: SnapshotError) {
    var config := snapshot.config;
    var distinct := config.oldAnchorId != 0 && config.newAnchorId != 0 && config.oldAnchorId != config.newAnchorId;
    var overlapping := config.overlapStart < config.overlapEnd;
    var timed := config.simulationTime != ZERO_TIME;
    var anchored := HasAnchor(snapshot, config.oldAnchorId) && HasAnchor(snapshot, config.newAnchorId);
    match error
    case AnchorsNotDistinct => !distinct
    case EmptyOverlap => distinct && !overlapping
    case SimulationTimeMissing => distinct && overlapping && !timed
    case AnchorsMissing => distinct && overlapping && timed && !anchored
    case CandidateMissing(id) =>
      distinct && overlapping && timed && anchored && FirstMissing(snapshot, config.candidateChainIds, id)
    case DependencyCycle(cycle) =>
      && distinct && overlapping && timed && anchored
      && (forall id :: id in config.candidateChainIds ==> HasChain(snapshot, id))
      && cycle.CycleAt? && Justified(EdgesOf(snapshot.services), false, cycle)
  }

  /** The first identifier of the list for which there is no chain. */
  ghost predicate FirstMissing(snapshot: Snapshot, ids: seq<Id>, id: Id) {
    exists i :: 0 <= i < |ids| && ids[i] == id && !HasChain(snapshot, id)
             && forall j :: 0 <= j < i ==> HasChain(snapshot, ids[j])
  }

  method ValidateSnapshot(snapshot: Snapshot) returns (error: Option<SnapshotError>)
    ensures error.None? <==> Simulable(snapshot)
    ensures error.Some? ==> ErrorFits(snapshot, error.value)
  {
    var config := snapshot.config;
    if config.oldAnchorId == 0 || config.newAnchorId == 0 || config.oldAnchorId == config.newAnchorId {
      return Some(AnchorsNotDistinct);
    }
    if !(config.overlapStart < config.overlapEnd) {
      return Some(EmptyOverlap);
    }
    if config.simulationTime == ZERO_TIME {
      return Some(SimulationTimeMissing);
    }
    var anchorSeen: set<Id> := {};
    for i := 0 to |snapshot.anchors|
      invariant forall id :: id in anchorSeen <==> exists j :: 0 <= j < i && snapshot.anchors[j].id == id
    {
      anchorSeen := anchorSeen + {snapshot.anchors[i].id};
    }
    if config.oldAnchorId !in anchorSeen || config.newAnchorId !in anchorSeen {
      return Some(AnchorsMissing);
    }
    var chainSeen: set<Id> := {};
    for i := 0 to |snapshot.chains|
      invariant forall id :: id in chainSeen <==> exists j :: 0 <= j < i && snapshot.chains[j].id == id
    {
      chainSeen := chainSeen + {snapshot.chains[i].id};
    }
    forall id ensures id in chainSeen <==> HasChain(snapshot, id) {
      if HasChain(snapshot, id) {
        var chain :| chain in snapshot.chains && chain.id == id;
        var j :| 0 <= j < |snapshot.chains| && snapshot.chains[j] == chain;
      }
    }
    for i := 0 to |config.candidateChainIds|
      invariant forall j :: 0 <= j < i ==> config.candidateChainIds[j] in chainSeen
    {
      if config.candidateChainIds[i] !in chainSeen {
        return Some(CandidateMissing(config.candidateChainIds[i]));
      }
    }
    var cycle := DetectCycle(snapshot.services);
    if cycle.Some? {
      return Some(DependencyCycle(cycle.value));
    }
    return None;
  }

  function ChainsById(chains: seq<ChainSnapshot>): map<Id, ChainSnapshot> {
    if chains == [] then map[]
    else
      var last := chains[|chains|-1];
      ChainsById(chains[..|chains|-1])[last.id := last]
  }

  function ServicesById(services: seq<ServiceSnapshot>): map<Id, ServiceSnapshot> {
    if services == [] then map[]
    else
      var last := services[|services|-1];
      ServicesById(services[..|services|-1])[last.id := last]
  }

  lemma {:induction false} EdgesAgree(services: seq<ServiceSnapshot>)
    ensures EdgesById(ServicesById(services)) == EdgesOf(services)
  {
    if services == [] {
    } else {
      EdgesAgree(services[..|services|-1]);
    }
  }

  function SettingAt(snapshot: Snapshot, at: Instant): Setting {
    Setting(at, ActiveAnchors(snapshot.config, at), snapshot.config.candidateChainIds, ChainsById(snapshot.chains))
  }

  /** Direct evidence for the active services of a list. */
  function DirectOf(setting: Setting, services: seq<ServiceSnapshot>): map<Id, ServiceEvidence> {
    if services == [] then map[]
    else
      var last := services[|services|-1];
      var before := DirectOf(setting, services[..|services|-1]);
      if last.Active() then before[last.id := setting.EvaluateDirect(last)] else before
  }

  /** The resolution problem that the simulation solves at one instant. */
  function WorldAt(snapshot: Snapshot, at: Instant): World {
    World(DirectOf(SettingAt(snapshot, at), snapshot.services), EdgesOf(snapshot.services))
  }

  function ActiveAnchorIds(config: ScenarioConfig, at: Instant): (r: seq<Id>)
    ensures StrictlyIncreasing(r) && forall id :: id in r <==> id in ActiveAnchors(config, at)
  {
    var r := SortedDistinct(
      if at < config.overlapStart then [config.oldAnchorId]
      else if at > config.overlapEnd then [config.newAnchorId]
      else [config.oldAnchorId, config.newAnchorId]);
    assert forall i :: 0 <= i < |r| ==> r[i] in r;
    r
  }

  /** One active service together with its evidence and the path explored for it. */
  datatype Verdict = Verdict(service: ServiceSnapshot, item: ServiceEvidence, path: seq<Id>)

  function VerdictFor(w: World, service: ServiceSnapshot): Verdict {
    var failure := w.FirstFailure(service.id, {});
    Verdict(service, w.Resolved(service.id, {}), if failure.Some? then failure.value else [service.id])
  }

  function Verdicts(w: World, services: seq<ServiceSnapshot>): seq<Verdict> {
    if services == [] then []
    else
      var last := services[|services|-1];
      var before := Verdicts(w, services[..|services|-1]);
      if last.Active() then before + [VerdictFor(w, last)] else before
  }

  function Items(verdicts: seq<Verdict>): (r: seq<ServiceEvidence>)
    ensures |r| == |verdicts| && forall i :: 0 <= i < |r| ==> r[i] == verdicts[i].item
  {
    seq(|verdicts|, i requires 0 <= i < |verdicts| => verdicts[i].item)
  }

  function Affected(at: Instant, verdicts: seq<Verdict>): seq<AffectedService> {
    if verdicts == [] then []
    else
      var v := verdicts[|verdicts|-1];
      var before := Affected(at, verdicts[..|verdicts|-1]);
      if v.item.reachable then before
      else before + [AffectedService(v.service.id, v.service.code, v.service.criticality, at, v.item.reason)]
  }

  function Codes(path: seq<Id>, services: map<Id, ServiceSnapshot>): seq<string> {
    if path == [] then []
    else
      var id := path[|path|-1];
      var before := Codes(path[..|path|-1], services);
      if id in services then before + [services[id].code] else before
  }

  function Broken(at: Instant, verdicts: seq<Verdict>, services: map<Id, ServiceSnapshot>): seq<BrokenPath> {
    if verdicts == [] then []
    else
      var v := verdicts[|verdicts|-1];
      var before := Broken(at, verdicts[..|verdicts|-1], services);
      if v.item.reachable then before
      else before + [BrokenPath(at, Codes(v.path, services), v.item.reason)]
  }

  /** The lists accumulated over a sequence of instants, before the explanation is written. */
  function Tally(snapshot: Snapshot, points: seq<Instant>): Result {
    if points == [] then Result([], [], [], "")
    else
      var before := Tally(snapshot, points[..|points|-1]);
      var at := points[|points|-1];
      var verdicts := Verdicts(WorldAt(snapshot, at), snapshot.services);
      Result(before.affectedServices + Affected(at, verdicts),
             before.brokenPaths + Broken(at, verdicts, ServicesById(snapshot.services)),
             before.evidence + [TimepointEvidence(at, ActiveAnchorIds(snapshot.config, at),
                                                  SortBy(Items(verdicts), EvidenceKey))],
             "")
  }

  /** The sentences an explanation is made of. */
  datatype Sentence = AllReachable | Totals(failures: nat, paths: nat) | FailsBefore | FailsAfter {
    function Text(): string {
      match this
      case AllReachable =>
        "All active service trust paths remain reachable before, during, and after the proposed overlap window."
      case Totals(failures, paths) =>
        Decimal(failures) + " service-timepoint failures were found across " + Decimal(paths) + " broken paths."
      case FailsBefore =>
        "Some paths fail before overlap, indicating the new trust path may be introduced too late."
      case FailsAfter =>
        "Some paths fail after overlap, indicating the old anchor may be removed before all clients trust the replacement."
    }
  }

  function Texts(sentences: seq<Sentence>): seq<string> {
    seq(|sentences|, i requires 0 <= i < |sentences| => sentences[i].Text())
  }

  /** Totals, and one sentence for each side of the overlap on which some path fails. */
  function Sentences(config: ScenarioConfig, result: Result): seq<Sentence> {
    if result.affectedServices == [] then [AllReachable]
    else
      [Totals(|result.affectedServices|, |result.brokenPaths|)]
      + (if exists a :: a in result.affectedServices && a.at < config.overlapStart then [FailsBefore] else [])
      + (if exists a :: a in result.affectedServices && a.at > config.overlapEnd then [FailsAfter] else [])
  }

  function Explanation(config: ScenarioConfig, result: Result): string {
    Join(Texts(Sentences(config, result)), " ")
  }

  function SimulationResult(snapshot: Snapshot): Result {
    var tally := Tally(snapshot, Times(snapshot.config));
    tally.(explanation := Explanation(snapshot.config, tally))
  }

  method Explain(config: ScenarioConfig, result: Result) returns (text: string)
    ensures text == Explanation(config, result)
  {
    if |result.affectedServices| == 0 {
      return Join(Texts([AllReachable]), " ");
    }
    var before, after := 0, 0;
    for i := 0 to |result.affectedServices|
      invariant before >= 0 && after >= 0
      invariant before > 0 <==> exists a :: a in result.affectedServices[..i] && a.at < config.overlapStart
      invariant after > 0 <==> exists a :: a in result.affectedServices[..i] && a.at > config.overlapEnd
    {
      var item := result.affectedServices[i];
      assert result.affectedServices[..i+1] == result.affectedServices[..i] + [item];
      if item.at < config.overlapStart {
        assert item in result.affectedServices[..i+1];
        before := before + 1;
      }
      if item.at > config.overlapEnd {
        assert item in result.affectedServices[..i+1];
        after := after + 1;
      }
    }
    assert result.affectedServices[..|result.affectedServices|] == result.affectedServices;
    var parts := [Totals(|result.affectedServices|, |result.brokenPaths|)];
    if before > 0 {
      parts := parts + [FailsBefore];
    }
    if after > 0 {
      parts := parts + [FailsAfter];
    }
    assert parts == Sentences(config, result);
    text := Join(Texts(parts), " ");
  }

  /** `mapKeys`: collects the keys in whatever order the map yields them, then sorts. */
  method MapKeys(values: set<Id>) returns (result: seq<Id>)
    ensures StrictlyIncreasing(result) && forall id :: id in result <==> id in values
  {
    var remaining := values;
    var keys: seq<Id> := [];
    while remaining != {}
      invariant remaining <= values
      invariant forall id :: id in keys <==> id in values && id !in remaining
      invariant forall i, j :: 0 <= i < j < |keys| ==> keys[i] != keys[j]
    {
      var id :| id in remaining;
      assert forall i :: 0 <= i < |keys| ==> keys[i] in keys;
      remaining := remaining - {id};
      keys := keys + [id];
    }
    result := SortBy(keys, IdKey);
    assert DistinctKeys(keys, IdKey);
    SortByStrict(keys, IdKey);
    SortByKeepsElements(keys, IdKey);
    forall i, j | 0 <= i < j < |result| ensures result[i] < result[j] {
      assert IdKey(result[i]) < IdKey(result[j]);
    }
  }

  /** The first inner loop of `Simulate`: direct evidence for every active service. */
  method EvaluateServices(snapshot: Snapshot, at: Instant, active: set<Id>, chains: map<Id, ChainSnapshot>)
    returns (direct: map<Id, ServiceEvidence>)
    requires active == ActiveAnchors(snapshot.config, at) && chains == ChainsById(snapshot.chains)
    ensures direct == DirectOf(SettingAt(snapshot, at), snapshot.services)
  {
    direct := map[];
    for i := 0 to |snapshot.services|
      invariant direct == DirectOf(SettingAt(snapshot, at), snapshot.services[..i])
    {
      var service := snapshot.services[i];
      assert snapshot.services[..i+1][..i] == snapshot.services[..i];
      if !service.Active() {
        continue;
      }
      var item := DirectEvaluation.EvaluateDirect(service, at, active, snapshot.config.candidateChainIds, chains);
      direct := direct[service.id := item];
    }
    assert snapshot.services[..|snapshot.services|] == snapshot.services;
  }

  lemma NextVerdict(at: Instant, before: seq<Verdict>, v: Verdict, services: map<Id, ServiceSnapshot>)
    ensures var now := before + [v];
            && Items(now) == Items(before) + [v.item]
            && Affected(at, now) ==
                 (if v.item.reachable then Affected(at, before)
                  else Affected(at, before) +
                       [AffectedService(v.service.id, v.service.code, v.service.criticality, at, v.item.reason)])
            && Broken(at, now, services) ==
                 (if v.item.reachable then Broken(at, before, services)
                  else Broken(at, before, services) + [BrokenPath(at, Codes(v.path, services), v.item.reason)])
  {
    assert (before + [v])[..|before|] == before;
  }

  method ServiceCodes(path: seq<Id>, services: map<Id, ServiceSnapshot>) returns (codes: seq<string>)
    ensures codes == Codes(path, services)
  {
    codes := [];
    for j := 0 to |path|
      invariant codes == Codes(path[..j], services)
    {
      assert path[..j+1][..j] == path[..j];
      if path[j] in services {
        codes := codes + [services[path[j]].code];
      }
    }
    assert path[..|path|] == path;
  }

  /** The second inner loop of `Simulate`: resolution, with one failure entry and one path per broken service. */
  method ResolveServices(snapshot: Snapshot, at: Instant, direct: map<Id, ServiceEvidence>,
                         services: map<Id, ServiceSnapshot>)
    returns (items: seq<ServiceEvidence>, affected: seq<AffectedService>, paths: seq<BrokenPath>)
    requires direct == DirectOf(SettingAt(snapshot, at), snapshot.services)
    requires services == ServicesById(snapshot.services)
    ensures var verdicts := Verdicts(WorldAt(snapshot, at), snapshot.services);
            items == Items(verdicts) && affected == Affected(at, verdicts) && paths == Broken(at, verdicts, services)
  {
    ghost var w := WorldAt(snapshot, at);
    EdgesAgree(snapshot.services);
    items, affected, paths := [], [], [];
    for i := 0 to |snapshot.services|
      invariant var verdicts := Verdicts(w, snapshot.services[..i]);
                items == Items(verdicts) && affected == Affected(at, verdicts) && paths == Broken(at, verdicts, services)
    {
      var service := snapshot.services[i];
      assert snapshot.services[..i+1][..i] == snapshot.services[..i];
      if !service.Active() {
        continue;
      }
      var visiting := new Visiting();
      var item, path := ResolveService(service.id, direct, services, visiting, []);
      assert VerdictFor(w, service) == Verdict(service, item, path);
      NextVerdict(at, Verdicts(w, snapshot.services[..i]), VerdictFor(w, service), services);
      items := items + [item];
      if !item.reachable {
        affected := affected + [AffectedService(service.id, service.code, service.criticality, at, item.reason)];
        var codes := ServiceCodes(path, services);
        paths := paths + [BrokenPath(at, codes, item.reason)];
      }
    }
    assert snapshot.services[..|snapshot.services|] == snapshot.services;
  }

  method IndexChains(chains: seq<ChainSnapshot>) returns (byId: map<Id, ChainSnapshot>)
    ensures byId == ChainsById(chains)
  {
    byId := map[];
    for i := 0 to |chains|
      invariant byId == ChainsById(chains[..i])
    {
      assert chains[..i+1][..i] == chains[..i];
      byId := byId[chains[i].id := chains[i]];
    }
    assert chains[..|chains|] == chains;
  }

  method IndexServices(services: seq<ServiceSnapshot>) returns (byId: map<Id, ServiceSnapshot>)
    ensures byId == ServicesById(services)
  {
    byId := map[];
    for i := 0 to |services|
      invariant byId == ServicesById(services[..i])
    {
      assert services[..i+1][..i] == services[..i];
      byId := byId[services[i].id := services[i]];
    }
    assert services[..|services|] == services;
  }

  lemma EmptyTally(snapshot: Snapshot)
    ensures Tally(snapshot, []) == Result([], [], [], "")
  {
  }

  /** What one more instant adds to the accumulated lists. */
  lemma NextTally(snapshot: Snapshot, points: seq<Instant>, i: nat)
    requires i < |points|
    ensures var before, at := Tally(snapshot, points[..i]), points[i];
            var verdicts := Verdicts(WorldAt(snapshot, at), snapshot.services);
            Tally(snapshot, points[..i+1]) ==
            Result(before.affectedServices + Affected(at, verdicts),
                   before.brokenPaths + Broken(at, verdicts, ServicesById(snapshot.services)),
                   before.evidence + [TimepointEvidence(at, ActiveAnchorIds(snapshot.config, at),
                                                        SortBy(Items(verdicts), EvidenceKey))],
                   "")
  {
    assert points[..i+1][..i] == points[..i];
  }

  method Simulate(snapshot: Snapshot) returns (outcome: Outcome)
    ensures outcome.Simulated? <==> Simulable(snapshot)
    ensures outcome.Simulated? ==> outcome.result == SimulationResult(snapshot)
    ensures outcome.Rejected? ==> ErrorFits(snapshot, outcome.error)
  {
    hide Tally;
    hide Verdicts;
    hide WorldAt;
    hide DirectOf;
    hide Explanation;
    hide Simulable;
    hide ErrorFits;
    var error := ValidateSnapshot(snapshot);
    if error.Some? {
      return Rejected(error.value);
    }
    var points := CriticalTimes.CriticalTimes(snapshot.config);
    var chainById := IndexChains(snapshot.chains);
    var serviceById := IndexServices(snapshot.services);
    var result := Result([], [], [], "");
    EmptyTally(snapshot);
    assert points[..0] == [];
    for i := 0 to |points|
      invariant result == Tally(snapshot, points[..i])
    {
      var at := points[i];
      NextTally(snapshot, points, i);
      var active := ActiveAnchors(snapshot.config, at);
      var anchorIds := MapKeys(active);
      StrictlyIncreasingIsUnique(anchorIds, ActiveAnchorIds(snapshot.config, at));
      var direct := EvaluateServices(snapshot, at, active, chainById);
      var items, affected, paths := ResolveServices(snapshot, at, direct, serviceById);
      var evidence := TimepointEvidence(at, anchorIds, SortBy(items, EvidenceKey));
      result := Result(result.affectedServices + affected, result.brokenPaths + paths,
                       result.evidence + [evidence], "");
    }
    assert points[..|points|] == points;
    var explanation := Explain(snapshot.config, result);
    return Simulated(result.(explanation := explanation));
  }
}
