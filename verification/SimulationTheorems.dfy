/** What the lists returned by `Simulate` mean, and how they respond to changes of the snapshot. */
module SimulationTheorems {
  import opened Ordering
  import opened RolloverModel
  import opened Graphs
  import opened CycleCheck
  import opened DirectEvaluation
  import opened Resolution
  import opened Reachability
  import opened CriticalTimes
  import opened Simulator

  ghost predicate HasActive(services: seq<ServiceSnapshot>, id: Id) {
    exists s :: s in services && s.Active() && s.id == id
  }

  /** The result reports a failure of service `id` at instant `at`. */
  ghost predicate Fails(result: Result, id: Id, at: Instant) {
    Reported(result.affectedServices, id, at)
  }

  ghost predicate Reported(affected: seq<AffectedService>, id: Id, at: Instant) {
    exists a :: a in affected && a.serviceId == id && a.at == at
  }

  lemma ReportedTogether(first: seq<AffectedService>, second: seq<AffectedService>, id: Id, at: Instant)
    ensures Reported(first + second, id, at) <==> Reported(first, id, at) || Reported(second, id, at)
  {
    if Reported(first, id, at) {
      var a :| a in first && a.serviceId == id && a.at == at;
      assert a in first + second;
    }
    if Reported(second, id, at) {
      var a :| a in second && a.serviceId == id && a.at == at;
      assert a in first + second;
    }
  }

  lemma ActiveTogether(init: seq<ServiceSnapshot>, last: ServiceSnapshot, id: Id)
    ensures HasActive(init + [last], id) <==> HasActive(init, id) || (last.Active() && last.id == id)
  {
    if HasActive(init, id) {
      var s :| s in init && s.Active() && s.id == id;
      assert s in init + [last];
    }
    if last.Active() && last.id == id {
      assert last in init + [last];
    }
  }

  lemma {:induction false} DirectOfKeys(setting: Setting, services: seq<ServiceSnapshot>)
    ensures forall id :: id in DirectOf(setting, services) <==> HasActive(services, id)
  {
    if services == [] {
    } else {
      var init, last := services[..|services|-1], services[|services|-1];
      DirectOfKeys(setting, init);
      assert services == init + [last];
      forall id ensures HasActive(services, id) <==> HasActive(init, id) || (last.Active() && last.id == id) {
        ActiveTogether(init, last, id);
      }
    }
  }

  lemma {:induction false} DirectOfValue(setting: Setting, services: seq<ServiceSnapshot>, s: ServiceSnapshot)
    requires DistinctKeys(services, ServiceKey) && s in services && s.Active()
    ensures s.id in DirectOf(setting, services) && DirectOf(setting, services)[s.id] == setting.EvaluateDirect(s)
  {
    var init, last := services[..|services|-1], services[|services|-1];
    assert services == init + [last];
    if s == last {
    } else {
      DirectOfValue(setting, init, s);
      var i :| 0 <= i < |init| && init[i] == s;
      assert ServiceKey(services[i]) != ServiceKey(last);
    }
  }

  lemma {:induction false} ServiceIds(services: seq<ServiceSnapshot>, id: Id)
    requires HasActive(services, id)
    ensures id in ServicesById(services)
  {
    var init, last := services[..|services|-1], services[|services|-1];
    assert services == init + [last];
    if id == last.id {
    } else {
      var s :| s in services && s.Active() && s.id == id;
      assert s in init;
      ServiceIds(init, id);
    }
  }

  lemma SameIdSameService(services: seq<ServiceSnapshot>, s: ServiceSnapshot, t: ServiceSnapshot)
    requires DistinctKeys(services, ServiceKey) && s in services && t in services && s.id == t.id
    ensures s == t
  {
    var i :| 0 <= i < |services| && services[i] == s;
    var j :| 0 <= j < |services| && services[j] == t;
    assert ServiceKey(services[i]) == ServiceKey(services[j]);
  }

  /** With distinct identifiers, healthy means: active, with an eligible chain. */
  lemma HealthyMeaning(snapshot: Snapshot, at: Instant, s: ServiceSnapshot)
    requires DistinctKeys(snapshot.services, ServiceKey) && s in snapshot.services
    ensures WorldAt(snapshot, at).Healthy(s.id) <==>
            s.Active() && exists chain :: SettingAt(snapshot, at).Eligible(chain, s)
  {
    var setting := SettingAt(snapshot, at);
    DirectOfKeys(setting, snapshot.services);
    if s.Active() {
      DirectOfValue(setting, snapshot.services, s);
      DirectSelection(setting, s);
    }
    forall t | t in snapshot.services && t.id == s.id ensures t == s {
      SameIdSameService(snapshot.services, s, t);
    }
  }

  // ---------------------------------------------------------------- the affected list

  lemma {:induction false} AffectedMembers(at: Instant, w: World, services: seq<ServiceSnapshot>, id: Id, t: Instant)
    ensures Reported(Affected(at, Verdicts(w, services)), id, t) <==>
            t == at && HasActive(services, id) && !w.Resolved(id, {}).reachable
  {
    if services == [] {
    } else {
      var init, last := services[..|services|-1], services[|services|-1];
      assert services == init + [last];
      AffectedMembers(at, w, init, id, t);
      ActiveTogether(init, last, id);
      var before, v := Verdicts(w, init), VerdictFor(w, last);
      var a := AffectedService(last.id, last.code, last.criticality, at, v.item.reason);
      NextVerdict(at, before, v, map[]);
      ReportedTogether(Affected(at, before), [a], id, t);
      ReportedAlone(a, id, t);
      hide Reported;
      hide HasActive;
    }
  }

  lemma ReportedAlone(a: AffectedService, id: Id, at: Instant)
    ensures Reported([a], id, at) <==> a.serviceId == id && a.at == at
  {
    assert a in [a];
  }

  lemma {:induction false} TallyMembers(snapshot: Snapshot, points: seq<Instant>, id: Id, t: Instant)
    ensures Fails(Tally(snapshot, points), id, t) <==>
            t in points && HasActive(snapshot.services, id) && !WorldAt(snapshot, t).Resolved(id, {}).reachable
  {
    if points == [] {
    } else {
      var init, at := points[..|points|-1], points[|points|-1];
      assert points == init + [at];
      TallyMembers(snapshot, init, id, t);
      AffectedMembers(at, WorldAt(snapshot, at), snapshot.services, id, t);
      var now := Affected(at, Verdicts(WorldAt(snapshot, at), snapshot.services));
      var before := Tally(snapshot, init).affectedServices;
      assert Tally(snapshot, points).affectedServices == before + now;
      ReportedTogether(before, now, id, t);
    }
  }

  /** A pair is reported exactly when the active service is outside the least solution at a sampled instant. */
  lemma AffectedMeaning(snapshot: Snapshot, id: Id, at: Instant)
    ensures Fails(SimulationResult(snapshot), id, at) <==>
            at in Times(snapshot.config) && HasActive(snapshot.services, id) && !Usable(WorldAt(snapshot, at), id)
  {
    TallyMembers(snapshot, Times(snapshot.config), id, at);
    ReachableIsLeastSolution(WorldAt(snapshot, at), id);
    var result, tally := SimulationResult(snapshot), Tally(snapshot, Times(snapshot.config));
    assert result.affectedServices == tally.affectedServices;
  }

  // ---------------------------------------------------------------- the broken paths

  /** Path `p` accounts for failure `a` and broken path `b`: it is the first true witness, told hop by hop. */
  ghost predicate Accounts(snapshot: Snapshot, a: AffectedService, b: BrokenPath, p: seq<Id>) {
    var w := WorldAt(snapshot, a.at);
    var byId := ServicesById(snapshot.services);
    && Witness(w, a.serviceId, p) && Distinct(p)
    && (forall q :: Witness(w, a.serviceId, q) ==> NoLater(w.edges, p, q))
    && a.reason == w.Told(p)
    && b.at == a.at && b.reason == a.reason
    && |b.serviceCodes| == (if Last(p) in byId then |p| else |p| - 1)
    && forall i :: 0 <= i < |b.serviceCodes| ==> p[i] in byId && b.serviceCodes[i] == byId[p[i]].code
  }

  lemma {:induction false} CodesOfPresent(path: seq<Id>, services: map<Id, ServiceSnapshot>)
    requires forall i :: 0 <= i < |path| ==> path[i] in services
    ensures |Codes(path, services)| == |path|
    ensures forall i :: 0 <= i < |path| ==> Codes(path, services)[i] == services[path[i]].code
  {
    if path == [] {
    } else {
      CodesOfPresent(path[..|path|-1], services);
    }
  }

  lemma VerdictAccounts(snapshot: Snapshot, at: Instant, s: ServiceSnapshot)
    requires Acyclic(EdgesOf(snapshot.services)) && s in snapshot.services && s.Active()
    requires !WorldAt(snapshot, at).Resolved(s.id, {}).reachable
    ensures var v := VerdictFor(WorldAt(snapshot, at), s);
            Accounts(snapshot, AffectedService(s.id, s.code, s.criticality, at, v.item.reason),
                     BrokenPath(at, Codes(v.path, ServicesById(snapshot.services)), v.item.reason), v.path)
  {
    var w := WorldAt(snapshot, at);
    var byId := ServicesById(snapshot.services);
    UnreachableHasFirstWitness(w, s.id);
    w.ResolvedReason(s.id, {});
    var p := VerdictFor(w, s).path;
    w.ReasonTellsHops(p, {});
    DirectOfKeys(SettingAt(snapshot, at), snapshot.services);
    forall i | 0 <= i < |p| - 1 ensures p[i] in byId {
      assert w.Healthy(p[i]);
      ServiceIds(snapshot.services, p[i]);
    }
    if Last(p) in byId {
      CodesOfPresent(p, byId);
    } else {
      CodesOfPresent(p[..|p|-1], byId);
    }
  }

  ghost predicate Accounted(snapshot: Snapshot, a: AffectedService, b: BrokenPath) {
    exists p :: Accounts(snapshot, a, b, p)
  }

  ghost predicate AllAccounted(snapshot: Snapshot, affected: seq<AffectedService>, broken: seq<BrokenPath>) {
    |affected| == |broken| && forall i :: 0 <= i < |affected| ==> Accounted(snapshot, affected[i], broken[i])
  }

  lemma AccountedTogether(snapshot: Snapshot, a1: seq<AffectedService>, b1: seq<BrokenPath>,
                          a2: seq<AffectedService>, b2: seq<BrokenPath>)
    requires AllAccounted(snapshot, a1, b1) && AllAccounted(snapshot, a2, b2)
    ensures AllAccounted(snapshot, a1 + a2, b1 + b2)
  {
  }

  lemma {:induction false} VerdictsAccounted(snapshot: Snapshot, at: Instant, services: seq<ServiceSnapshot>)
    requires Acyclic(EdgesOf(snapshot.services)) && forall s :: s in services ==> s in snapshot.services
    ensures var verdicts := Verdicts(WorldAt(snapshot, at), services);
            AllAccounted(snapshot, Affected(at, verdicts), Broken(at, verdicts, ServicesById(snapshot.services)))
  {
    hide Accounts;
    hide WorldAt;
    hide ServicesById;
    hide Codes;
    hide World.Resolved;
    hide World.FirstFailure;
    if services == [] {
    } else {
      var init, last := services[..|services|-1], services[|services|-1];
      VerdictsAccounted(snapshot, at, init);
      var w := WorldAt(snapshot, at);
      var v := VerdictFor(w, last);
      NextVerdict(at, Verdicts(w, init), v, ServicesById(snapshot.services));
      if last.Active() && !v.item.reachable {
        VerdictAccounts(snapshot, at, last);
        var a := AffectedService(last.id, last.code, last.criticality, at, v.item.reason);
        var b := BrokenPath(at, Codes(v.path, ServicesById(snapshot.services)), v.item.reason);
        assert Accounts(snapshot, a, b, v.path);
        AccountedTogether(snapshot, Affected(at, Verdicts(w, init)),
                          Broken(at, Verdicts(w, init), ServicesById(snapshot.services)), [a], [b]);
      }
    }
  }

  lemma {:induction false} TallyAccounted(snapshot: Snapshot, points: seq<Instant>)
    requires Acyclic(EdgesOf(snapshot.services))
    ensures AllAccounted(snapshot, Tally(snapshot, points).affectedServices, Tally(snapshot, points).brokenPaths)
  {
    if points == [] {
    } else {
      var init, at := points[..|points|-1], points[|points|-1];
      TallyAccounted(snapshot, init);
      VerdictsAccounted(snapshot, at, snapshot.services);
      var before, verdicts := Tally(snapshot, init), Verdicts(WorldAt(snapshot, at), snapshot.services);
      AccountedTogether(snapshot, before.affectedServices, before.brokenPaths,
                        Affected(at, verdicts), Broken(at, verdicts, ServicesById(snapshot.services)));
    }
  }

  /** Failures and broken paths correspond one to one, and each pair has a true first witness path. */
  lemma FailuresAreWitnessed(snapshot: Snapshot)
    requires Simulable(snapshot)
    ensures var result := SimulationResult(snapshot);
            AllAccounted(snapshot, result.affectedServices, result.brokenPaths)
  {
    TallyAccounted(snapshot, Times(snapshot.config));
  }
}
