/** Which certificate chain, if any, serves one service at one instant: `evaluateDirect`. */
module DirectEvaluation {
  import opened Ordering
  import opened RolloverModel

  const MISSING_CHAIN := "configured certificate chain is missing"
  const NO_CANDIDATE := "no candidate chain matches the configured leaf identity"
  const REACHABLE := "certificate path is reachable"

  /** The anchors that clients may rely on at an instant: the old one, the new one, or both during overlap. */
  function ActiveAnchors(config: ScenarioConfig, at: Instant): set<Id> {
    if at < config.overlapStart then {config.oldAnchorId}
    else if at > config.overlapEnd then {config.newAnchorId}
    else {config.oldAnchorId, config.newAnchorId}
  }

  /** Everything `evaluateDirect` consults besides the service itself. */
  datatype Setting = Setting(at: Instant, active: set<Id>, candidates: seq<Id>, chains: map<Id, ChainSnapshot>) {

    /** The chain can serve the service: in service, inside its half-open window, validated, anchored and trusted. */
    predicate Serves(chain: ChainSnapshot, service: ServiceSnapshot) {
      && chain.state != "revoked" && chain.state != "deprecated"
      && chain.validFrom <= at < chain.validTo
      && chain.validationValid
      && chain.anchorId in active
      && chain.anchorId in service.trustAnchorIds
    }

    /** The reason recorded for a chain that cannot serve: the first test that it fails. */
    function Rejection(chain: ChainSnapshot, service: ServiceSnapshot): string {
      if chain.state == "revoked" || chain.state == "deprecated" then chain.code + " is not active"
      else if at < chain.validFrom || at >= chain.validTo then chain.code + " is outside its validity window"
      else if !chain.validationValid then chain.code + " did not pass offline signature validation"
      else if chain.anchorId !in active then chain.code + " anchor is unavailable at this timepoint"
      else service.code + " trust set does not include anchor " + Decimal(chain.anchorId)
    }

    predicate SameLeaf(id: Id, service: ServiceSnapshot) {
      id in chains && service.chainId in chains && chains[id].leafSubject == chains[service.chainId].leafSubject
    }

    /** The identifiers of `ids` whose chain carries the configured leaf identity, in the same order. */
    function Matching(ids: seq<Id>, service: ServiceSnapshot): (r: seq<Id>)
      ensures forall id :: id in r <==> id in ids && SameLeaf(id, service)
    {
      if ids == [] then []
      else
        var last := ids[|ids|-1];
        var before := Matching(ids[..|ids|-1], service);
        assert ids == ids[..|ids|-1] + [last];
        if SameLeaf(last, service) then before + [last] else before
    }

    lemma {:induction false} MatchingIncreases(ids: seq<Id>, service: ServiceSnapshot)
      requires StrictlyIncreasing(ids)
      ensures StrictlyIncreasing(Matching(ids, service))
    {
      if ids == [] {
      } else {
        var before := Matching(ids[..|ids|-1], service);
        MatchingIncreases(ids[..|ids|-1], service);
        assert forall i :: 0 <= i < |before| ==> before[i] in ids[..|ids|-1];
      }
    }

    /** The chains under consideration: the configured one and the candidates, least identifier first. */
    function Considered(service: ServiceSnapshot): (r: seq<Id>)
      ensures StrictlyIncreasing(r)
      ensures forall id :: id in r <==> id > 0 && id in [service.chainId] + candidates && SameLeaf(id, service)
    {
      var ids := IdList([service.chainId] + candidates);
      MatchingIncreases(ids, service);
      Matching(ids, service)
    }

    function Rejections(ids: seq<Id>, service: ServiceSnapshot): (r: seq<string>)
      requires forall id :: id in ids ==> id in chains
      ensures |r| == |ids| && forall i :: 0 <= i < |ids| ==> r[i] == Rejection(chains[ids[i]], service)
    {
      seq(|ids|, i requires 0 <= i < |ids| => Rejection(chains[ids[i]], service))
    }

    function FirstServing(ids: seq<Id>, service: ServiceSnapshot): (r: Option<Id>)
      requires forall id :: id in ids ==> id in chains
      ensures r.None? <==> forall id :: id in ids ==> !Serves(chains[id], service)
      ensures r.Some? ==> r.value in ids && Serves(chains[r.value], service)
      ensures r.Some? && StrictlyIncreasing(ids) ==>
                forall id :: id in ids && Serves(chains[id], service) ==> r.value <= id
    {
      if ids == [] then None
      else if Serves(chains[ids[0]], service) then Some(ids[0])
      else FirstServing(ids[1..], service)
    }

    function EvaluateDirect(service: ServiceSnapshot): ServiceEvidence {
      if service.chainId !in chains then
        ServiceEvidence(service.id, service.code, false, 0, 0, MISSING_CHAIN)
      else
        var ids := Considered(service);
        match FirstServing(ids, service)
        case Some(id) => ServiceEvidence(service.id, service.code, true, id, chains[id].anchorId, REACHABLE)
        case None =>
          var reason := if ids == [] then NO_CANDIDATE else Join(Rejections(ids, service), "; ");
          ServiceEvidence(service.id, service.code, false, 0, 0, reason)
    }

    /** The chain with this identifier may be selected for the service. */
    predicate Eligible(id: Id, service: ServiceSnapshot) {
      id > 0 && id in [service.chainId] + candidates && SameLeaf(id, service) && Serves(chains[id], service)
    }
  }

  lemma DirectSelection(setting: Setting, service: ServiceSnapshot)
    ensures var item := setting.EvaluateDirect(service);
            && (item.reachable <==> exists id :: setting.Eligible(id, service))
            && (item.reachable ==>
                  && setting.Eligible(item.selectedChainId, service)
                  && item.selectedAnchorId == setting.chains[item.selectedChainId].anchorId
                  && forall id :: setting.Eligible(id, service) ==> item.selectedChainId <= id)
  {
    var ids := setting.Considered(service);
    forall id ensures setting.Eligible(id, service) <==> id in ids && setting.Serves(setting.chains[id], service) {
    }
  }

  /**
   The selection in terms of the records alone: a selected chain passes every test, and when no chain is
   selected although the configured one exists, every same-leaf chain under consideration fails one.
   */
  lemma SelectionPassesEveryTest(setting: Setting, service: ServiceSnapshot)
    ensures var item, chains, at := setting.EvaluateDirect(service), setting.chains, setting.at;
            && item.serviceId == service.id && item.serviceCode == service.code
            && (service.chainId !in chains ==> !item.reachable && item.reason == "configured certificate chain is missing")
            && (item.reachable ==>
                  && service.chainId in chains && item.selectedChainId in chains && item.selectedChainId > 0
                  && item.selectedChainId in [service.chainId] + setting.candidates
                  && var chain := chains[item.selectedChainId];
                     && item.selectedAnchorId == chain.anchorId && item.reason == "certificate path is reachable"
                     && chain.leafSubject == chains[service.chainId].leafSubject
                     && chain.state != "revoked" && chain.state != "deprecated"
                     && chain.validFrom <= at && at < chain.validTo && chain.validationValid
                     && chain.anchorId in setting.active && chain.anchorId in service.trustAnchorIds)
            && (!item.reachable ==>
                  && item.selectedChainId == 0 && item.selectedAnchorId == 0
                  && forall id :: service.chainId in chains && id in chains && id > 0
                                  && id in [service.chainId] + setting.candidates
                                  && chains[id].leafSubject == chains[service.chainId].leafSubject ==>
                       || chains[id].state == "revoked" || chains[id].state == "deprecated"
                       || at < chains[id].validFrom || at >= chains[id].validTo || !chains[id].validationValid
                       || chains[id].anchorId !in setting.active || chains[id].anchorId !in service.trustAnchorIds)
  {
    var item := setting.EvaluateDirect(service);
    DirectSelection(setting, service);
    if !item.reachable {
      forall id | service.chainId in setting.chains && id in setting.chains && id > 0
                  && id in [service.chainId] + setting.candidates
                  && setting.chains[id].leafSubject == setting.chains[service.chainId].leafSubject
        ensures !setting.Serves(setting.chains[id], service)
      {
        assert !setting.Eligible(id, service);
      }
    }
  }

  /** The tests of one chain in the order in which they are made: whether each fails. */
  function FailingTests(setting: Setting, chain: ChainSnapshot, service: ServiceSnapshot): (r: seq<bool>)
    ensures |r| == 5
  {
    [chain.state in ["revoked", "deprecated"],
     !(chain.validFrom <= setting.at < chain.validTo),
     !chain.validationValid,
     chain.anchorId !in setting.active,
     chain.anchorId !in service.trustAnchorIds]
  }

  function TestReasons(chain: ChainSnapshot, service: ServiceSnapshot): (r: seq<string>)
    ensures |r| == 5
  {
    [chain.code + " is not active",
     chain.code + " is outside its validity window",
     chain.code + " did not pass offline signature validation",
     chain.code + " anchor is unavailable at this timepoint",
     service.code + " trust set does not include anchor " + Decimal(chain.anchorId)]
  }

  /** A chain serves when no test fails; otherwise the recorded reason is that of the first failing test. */
  lemma FirstFailingTestDecides(setting: Setting, chain: ChainSnapshot, service: ServiceSnapshot)
    ensures var failing := FailingTests(setting, chain, service);
            && (setting.Serves(chain, service) <==> failing == [false, false, false, false, false])
            && forall k :: 0 <= k < 5 && failing[k] && (forall j :: 0 <= j < k ==> !failing[j]) ==>
                 setting.Rejection(chain, service) == TestReasons(chain, service)[k]
  {
    var failing := FailingTests(setting, chain, service);
    assert setting.Serves(chain, service) ==> failing == [false, false, false, false, false];
    assert failing == [false, false, false, false, false] ==>
             !failing[0] && !failing[1] && !failing[2] && !failing[3] && !failing[4];
    forall k | 0 <= k < 5 && failing[k] && (forall j :: 0 <= j < k ==> !failing[j])
      ensures setting.Rejection(chain, service) == TestReasons(chain, service)[k]
    {
      assert forall j :: 0 <= j < k ==> !failing[j];
      assert k > 0 ==> !failing[0];
      assert k > 1 ==> !failing[1];
      assert k > 2 ==> !failing[2];
      assert k > 3 ==> !failing[3];
    }
  }

  /** The old anchor is active up to the end of the overlap, the new one from its start on, and no other ever. */
  lemma AnchorIsActiveExactlyWhen(config: ScenarioConfig, at: Instant, id: Id)
    requires config.overlapStart < config.overlapEnd
    ensures id in ActiveAnchors(config, at) <==>
              || (id == config.oldAnchorId && at <= config.overlapEnd)
              || (id == config.newAnchorId && at >= config.overlapStart)
  {
  }

  /** An unusable configured chain is explained chain by chain, never by the fallback sentence. */
  lemma DirectExplanation(setting: Setting, service: ServiceSnapshot)
    requires service.chainId in setting.chains && service.chainId > 0
    requires !setting.EvaluateDirect(service).reachable
    ensures var ids := setting.Considered(service);
            && service.chainId in ids
            && |setting.Rejections(ids, service)| == |ids|
            && setting.EvaluateDirect(service).reason == Join(setting.Rejections(ids, service), "; ")
  {
    assert service.chainId in setting.Considered(service);
  }

  /** None of the chains of `ids` with the configured leaf serves, and `reasons` says why for each. */
  ghost predicate Passed(setting: Setting, service: ServiceSnapshot, ids: seq<Id>, reasons: seq<string>) {
    var matching := setting.Matching(ids, service);
    && setting.FirstServing(matching, service).None?
    && reasons == setting.Rejections(matching, service)
  }

  lemma NextPassed(setting: Setting, service: ServiceSnapshot, ids: seq<Id>, i: nat, reasons: seq<string>)
    requires i < |ids| && Passed(setting, service, ids[..i], reasons)
    ensures !setting.SameLeaf(ids[i], service) ==> Passed(setting, service, ids[..i+1], reasons)
    ensures setting.SameLeaf(ids[i], service) && !setting.Serves(setting.chains[ids[i]], service) ==>
              Passed(setting, service, ids[..i+1], reasons + [setting.Rejection(setting.chains[ids[i]], service)])
  {
    assert ids[..i+1][..i] == ids[..i];
  }

  lemma FirstOfPrefix(setting: Setting, service: ServiceSnapshot, ids: seq<Id>, i: nat, reasons: seq<string>)
    requires i < |ids| && StrictlyIncreasing(ids) && setting.SameLeaf(ids[i], service)
    requires Passed(setting, service, ids[..i], reasons)
    requires setting.Serves(setting.chains[ids[i]], service)
    ensures setting.FirstServing(setting.Matching(ids, service), service) == Some(ids[i])
  {
    hide Setting.Serves;
    hide Setting.Matching;
    hide Setting.FirstServing;
    setting.MatchingIncreases(ids, service);
    assert ids[i] in setting.Matching(ids, service);
    assert forall id :: id in ids && id < ids[i] ==> id in ids[..i];
  }

  method EvaluateDirect(service: ServiceSnapshot, at: Instant, active: set<Id>, candidates: seq<Id>,
                        chains: map<Id, ChainSnapshot>)
    returns (item: ServiceEvidence)
    ensures item == Setting(at, active, candidates, chains).EvaluateDirect(service)
  {
    if service.chainId !in chains {
      return ServiceEvidence(service.id, service.code, false, 0, 0, MISSING_CHAIN);
    }
    var current := chains[service.chainId];
    var ids := SortedUnique([service.chainId] + candidates);
    var reasons: seq<string> := [];
    ghost var setting := Setting(at, active, candidates, chains);
    for i := 0 to |ids|
      invariant Passed(setting, service, ids[..i], reasons)
    {
      var id := ids[i];
      NextPassed(setting, service, ids, i, reasons);
      if id !in chains || chains[id].leafSubject != current.leafSubject {
        continue;
      }
      var chain := chains[id];
      if chain.state == "revoked" || chain.state == "deprecated" {
        reasons := reasons + [chain.code + " is not active"];
        continue;
      }
      if at < chain.validFrom || !(at < chain.validTo) {
        reasons := reasons + [chain.code + " is outside its validity window"];
        continue;
      }
      if !chain.validationValid {
        reasons := reasons + [chain.code + " did not pass offline signature validation"];
        continue;
      }
      if chain.anchorId !in active {
        reasons := reasons + [chain.code + " anchor is unavailable at this timepoint"];
        continue;
      }
      if chain.anchorId !in service.trustAnchorIds {
        reasons := reasons + [service.code + " trust set does not include anchor " + Decimal(chain.anchorId)];
        continue;
      }
      FirstOfPrefix(setting, service, ids, i, reasons);
      return ServiceEvidence(service.id, service.code, true, id, chain.anchorId, REACHABLE);
    }
    assert ids[..|ids|] == ids;
    if |reasons| == 0 {
      reasons := reasons + [NO_CANDIDATE];
    }
    item := ServiceEvidence(service.id, service.code, false, 0, 0, Join(reasons, "; "));
  }

}
