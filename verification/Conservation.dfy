/** Nothing is lost or invented between the evidence, the failure lists and the explanation. */
module Conservation {
  import opened Ordering
  import opened RolloverModel
  import opened DirectEvaluation
  import opened Resolution
  import opened Reachability
  import opened CriticalTimes
  import opened Simulator
  import opened SimulationTheorems

  function ActiveServices(services: seq<ServiceSnapshot>): seq<ServiceSnapshot> {
    if services == [] then []
    else
      var before := ActiveServices(services[..|services|-1]);
      if services[|services|-1].Active() then before + [services[|services|-1]] else before
  }

  lemma {:induction false} ActiveInOrder(services: seq<ServiceSnapshot>)
    requires StrictlyBy(services, ServiceKey)
    ensures StrictlyBy(ActiveServices(services), ServiceKey)
    ensures forall s :: s in ActiveServices(services) <==> s in services && s.Active()
  {
    if services == [] {
    } else {
      var init, last := services[..|services|-1], services[|services|-1];
      assert services == init + [last];
      ActiveInOrder(init);
      var before := ActiveServices(init);
      forall i | 0 <= i < |before| ensures ServiceKey(before[i]) < ServiceKey(last) {
        assert before[i] in init;
      }
    }
  }

  lemma {:induction false} VerdictsOfActive(w: World, services: seq<ServiceSnapshot>)
    ensures var active := ActiveServices(services);
            && |Verdicts(w, services)| == |active|
            && forall i :: 0 <= i < |active| ==> Verdicts(w, services)[i] == VerdictFor(w, active[i])
  {
    if services == [] {
    } else {
      VerdictsOfActive(w, services[..|services|-1]);
    }
  }

  /** One failure as it can be read off the evidence alone. */
  datatype Failure = Failure(at: Instant, serviceId: Id, serviceCode: string, reason: string)

  function FailuresAt(at: Instant, items: seq<ServiceEvidence>): seq<Failure> {
    if items == [] then []
    else
      var before := FailuresAt(at, items[..|items|-1]);
      var item := items[|items|-1];
      if item.reachable then before else before + [Failure(at, item.serviceId, item.serviceCode, item.reason)]
  }

  /** All unreachable entries of the evidence, in order. */
  function FailuresIn(evidence: seq<TimepointEvidence>): seq<Failure> {
    if evidence == [] then []
    else
      var last := evidence[|evidence|-1];
      FailuresIn(evidence[..|evidence|-1]) + FailuresAt(last.at, last.services)
  }

  ghost predicate Matches(failures: seq<Failure>, affected: seq<AffectedService>, broken: seq<BrokenPath>) {
    && |failures| == |affected| == |broken|
    && forall i :: 0 <= i < |failures| ==>
         && failures[i] == Failure(affected[i].at, affected[i].serviceId, affected[i].serviceCode, affected[i].reason)
         && broken[i].at == affected[i].at && broken[i].reason == affected[i].reason
  }

  lemma {:induction false} VerdictsMatch(at: Instant, verdicts: seq<Verdict>, services: map<Id, ServiceSnapshot>)
    requires forall v :: v in verdicts ==> v.item.serviceId == v.service.id && v.item.serviceCode == v.service.code
    ensures Matches(FailuresAt(at, Items(verdicts)), Affected(at, verdicts), Broken(at, verdicts, services))
  {
    if verdicts == [] {
    } else {
      var init := verdicts[..|verdicts|-1];
      VerdictsMatch(at, init, services);
      assert Items(verdicts)[..|init|] == Items(init);
      assert verdicts[|init|] in verdicts;
    }
  }

  /** The evidence of one instant lists exactly the active services, in identifier order. */
  lemma EvidenceInOrder(snapshot: Snapshot, at: Instant)
    requires StrictlyBy(snapshot.services, ServiceKey)
    ensures var verdicts := Verdicts(WorldAt(snapshot, at), snapshot.services);
            var active := ActiveServices(snapshot.services);
            && |verdicts| == |active|
            && (forall i :: 0 <= i < |active| ==>
                  && verdicts[i].service == active[i]
                  && verdicts[i].item.serviceId == active[i].id && verdicts[i].item.serviceCode == active[i].code)
            && SortBy(Items(verdicts), EvidenceKey) == Items(verdicts)
  {
    var w := WorldAt(snapshot, at);
    var verdicts, active := Verdicts(w, snapshot.services), ActiveServices(snapshot.services);
    VerdictsOfActive(w, snapshot.services);
    ActiveInOrder(snapshot.services);
    forall i | 0 <= i < |active|
      ensures verdicts[i].item.serviceId == active[i].id && verdicts[i].item.serviceCode == active[i].code
    {
      assert active[i] in active;
      DirectOfValue(SettingAt(snapshot, at), snapshot.services, active[i]);
    }
    var items := Items(verdicts);
    forall i, j | 0 <= i < j < |items| ensures EvidenceKey(items[i]) < EvidenceKey(items[j]) {
      assert ServiceKey(active[i]) < ServiceKey(active[j]);
    }
    SortByFixed(items, EvidenceKey);
  }

  /** One item per active service, in identifier order: what the search finds for that service. */
  ghost predicate CompleteAt(snapshot: Snapshot, at: Instant, evidence: TimepointEvidence) {
    var active := ActiveServices(snapshot.services);
    && evidence.at == at
    && |evidence.services| == |active|
    && forall i :: 0 <= i < |active| ==>
         evidence.services[i] == WorldAt(snapshot, at).Resolved(active[i].id, {})
  }

  /** One entry of evidence per instant. */
  ghost predicate EvidenceComplete(snapshot: Snapshot, points: seq<Instant>, evidence: seq<TimepointEvidence>) {
    && |evidence| == |points|
    && forall k :: 0 <= k < |points| ==> CompleteAt(snapshot, points[k], evidence[k])
  }

  lemma EvidenceCompleteAt(snapshot: Snapshot, at: Instant)
    requires StrictlyBy(snapshot.services, ServiceKey)
    ensures var items := SortBy(Items(Verdicts(WorldAt(snapshot, at), snapshot.services)), EvidenceKey);
            CompleteAt(snapshot, at, TimepointEvidence(at, ActiveAnchorIds(snapshot.config, at), items))
  {
    EvidenceInOrder(snapshot, at);
    VerdictsOfActive(WorldAt(snapshot, at), snapshot.services);
  }

  lemma {:induction false} TallyComplete(snapshot: Snapshot, points: seq<Instant>)
    requires StrictlyBy(snapshot.services, ServiceKey)
    ensures EvidenceComplete(snapshot, points, Tally(snapshot, points).evidence)
  {
    if points == [] {
    } else {
      var init, at := points[..|points|-1], points[|points|-1];
      hide CompleteAt;
      hide EvidenceComplete;
      hide Verdicts;
      hide WorldAt;
      TallyComplete(snapshot, init);
      EvidenceCompleteAt(snapshot, at);
      var tally := Tally(snapshot, points);
      OneMoreComplete(snapshot, points, Tally(snapshot, init).evidence, tally.evidence[|init|]);
    }
  }

  lemma OneMoreComplete(snapshot: Snapshot, points: seq<Instant>, before: seq<TimepointEvidence>, last: TimepointEvidence)
    requires points != [] && EvidenceComplete(snapshot, points[..|points|-1], before)
    requires CompleteAt(snapshot, points[|points|-1], last)
    ensures EvidenceComplete(snapshot, points, before + [last])
  {
    hide CompleteAt;
    var evidence := before + [last];
    forall k | 0 <= k < |points| ensures CompleteAt(snapshot, points[k], evidence[k]) {
      if k < |before| { assert points[..|points|-1][k] == points[k]; }
    }
  }

  lemma {:induction false} TallyMatches(snapshot: Snapshot, points: seq<Instant>)
    requires StrictlyBy(snapshot.services, ServiceKey)
    ensures var tally := Tally(snapshot, points);
            Matches(FailuresIn(tally.evidence), tally.affectedServices, tally.brokenPaths)
  {
    if points == [] {
    } else {
      var init, at := points[..|points|-1], points[|points|-1];
      TallyMatches(snapshot, init);
      var verdicts, byId := Verdicts(WorldAt(snapshot, at), snapshot.services), ServicesById(snapshot.services);
      EvidenceInOrder(snapshot, at);
      forall v | v in verdicts ensures v.item.serviceId == v.service.id && v.item.serviceCode == v.service.code {
        var i :| 0 <= i < |verdicts| && verdicts[i] == v;
      }
      VerdictsMatch(at, verdicts, byId);
      var before, now := Tally(snapshot, init), Tally(snapshot, points);
      assert now.evidence[..|now.evidence|-1] == before.evidence;
      MatchesTogether(FailuresIn(before.evidence), before.affectedServices, before.brokenPaths,
                      FailuresAt(at, Items(verdicts)), Affected(at, verdicts), Broken(at, verdicts, byId));
    }
  }

  lemma MatchesTogether(f1: seq<Failure>, a1: seq<AffectedService>, b1: seq<BrokenPath>,
                        f2: seq<Failure>, a2: seq<AffectedService>, b2: seq<BrokenPath>)
    requires Matches(f1, a1, b1) && Matches(f2, a2, b2)
    ensures Matches(f1 + f2, a1 + a2, b1 + b2)
  {
  }

  /** Conservation for snapshots in canonical order. */
  lemma ResultIsConserved(snapshot: Snapshot)
    requires StrictlyBy(snapshot.services, ServiceKey)
    ensures var result := SimulationResult(snapshot);
            && EvidenceComplete(snapshot, Times(snapshot.config), result.evidence)
            && Matches(FailuresIn(result.evidence), result.affectedServices, result.brokenPaths)
  {
    TallyComplete(snapshot, Times(snapshot.config));
    TallyMatches(snapshot, Times(snapshot.config));
  }

  // ---------------------------------------------------------------- the explanation

  ghost predicate FailsAtSample(snapshot: Snapshot, at: Instant, id: Id) {
    at in Times(snapshot.config) && HasActive(snapshot.services, id) && !Usable(WorldAt(snapshot, at), id)
  }

  /**
   The explanation says that everything stays reachable exactly when no sampled service fails; otherwise
   it counts the unreachable evidence entries, and each side sentence appears exactly when some active
   service fails at a sampled instant on that side of the overlap.
   */
  lemma ExplanationIsTruthful(snapshot: Snapshot)
    ensures var config, result := snapshot.config, SimulationResult(snapshot);
            var sentences := Sentences(config, result);
            && (AllReachable in sentences <==> forall at, id :: !FailsAtSample(snapshot, at, id))
            && (FailsBefore in sentences <==> exists at, id :: at < config.overlapStart && FailsAtSample(snapshot, at, id))
            && (FailsAfter in sentences <==> exists at, id :: at > config.overlapEnd && FailsAtSample(snapshot, at, id))
  {
    forall at, id ensures FailsAtSample(snapshot, at, id) <==> Fails(SimulationResult(snapshot), id, at) {
      AffectedMeaning(snapshot, id, at);
    }
    SentencesFollowFailures(snapshot, SimulationResult(snapshot));
  }

  lemma SentencesFollowFailures(snapshot: Snapshot, result: Result)
    requires forall at, id :: FailsAtSample(snapshot, at, id) <==> Fails(result, id, at)
    ensures var config := snapshot.config;
            var sentences := Sentences(config, result);
            && (AllReachable in sentences <==> forall at, id :: !FailsAtSample(snapshot, at, id))
            && (FailsBefore in sentences <==> exists at, id :: at < config.overlapStart && FailsAtSample(snapshot, at, id))
            && (FailsAfter in sentences <==> exists at, id :: at > config.overlapEnd && FailsAtSample(snapshot, at, id))
  {
    SentencesOf(snapshot.config, result);
    forall a | a in result.affectedServices ensures FailsAtSample(snapshot, a.at, a.serviceId) {
      assert Fails(result, a.serviceId, a.at);
    }
    if result.affectedServices != [] {
      assert result.affectedServices[0] in result.affectedServices;
    }
  }

  lemma SentencesOf(config: ScenarioConfig, result: Result)
    ensures var sentences := Sentences(config, result);
            && (AllReachable in sentences <==> result.affectedServices == [])
            && (FailsBefore in sentences <==> exists a :: a in result.affectedServices && a.at < config.overlapStart)
            && (FailsAfter in sentences <==> exists a :: a in result.affectedServices && a.at > config.overlapEnd)
  {
  }

  lemma TotalsCountEvidence(snapshot: Snapshot)
    requires StrictlyBy(snapshot.services, ServiceKey)
    requires exists at, id :: FailsAtSample(snapshot, at, id)
    ensures var result := SimulationResult(snapshot);
            var n := |FailuresIn(result.evidence)|;
            Sentences(snapshot.config, result)[0] == Totals(n, n)
  {
    ResultIsConserved(snapshot);
    ExplanationIsTruthful(snapshot);
  }

  /** The explanation, word for word. */
  lemma ExplanationReads(config: ScenarioConfig, result: Result)
    ensures var before := exists a :: a in result.affectedServices && a.at < config.overlapStart;
            var after := exists a :: a in result.affectedServices && a.at > config.overlapEnd;
            Explanation(config, result) ==
            if result.affectedServices == [] then AllReachable.Text()
            else Totals(|result.affectedServices|, |result.brokenPaths|).Text()
                 + (if before then " " + FailsBefore.Text() else "")
                 + (if after then " " + FailsAfter.Text() else "")
  {
    hide Sentence.Text;
    TextsOf(Sentences(config, result));
  }

  /** The side sentences, word for word. */
  lemma BeforeReads()
    ensures FailsBefore.Text() ==
            "Some paths fail before overlap, indicating the new trust path may be introduced too late."
  {
  }

  lemma AfterReads()
    ensures FailsAfter.Text() ==
            "Some paths fail after overlap, indicating the old anchor may be removed before all clients trust the replacement."
  {
  }

  lemma TextsOf(sentences: seq<Sentence>)
    ensures |sentences| == 1 ==> Join(Texts(sentences), " ") == sentences[0].Text()
    ensures |sentences| == 2 ==> Join(Texts(sentences), " ") == sentences[0].Text() + (" " + sentences[1].Text())
    ensures |sentences| == 3 ==>
              Join(Texts(sentences), " ") == sentences[0].Text() + (" " + sentences[1].Text()) + (" " + sentences[2].Text())
  {
    hide Sentence.Text;
    var texts := Texts(sentences);
    if |texts| == 2 {
      assert texts == [texts[0]] + [texts[1]];
      JoinTogether([texts[0]], [texts[1]], " ");
    } else if |texts| == 3 {
      assert texts == [texts[0]] + ([texts[1]] + [texts[2]]);
      JoinTogether([texts[1]], [texts[2]], " ");
      JoinTogether([texts[0]], [texts[1]] + [texts[2]], " ");
    }
  }

  // ---------------------------------------------------------------- the columns of the result

  ghost predicate AnchorsRecorded(config: ScenarioConfig, points: seq<Instant>, evidence: seq<TimepointEvidence>) {
    && |evidence| == |points|
    && forall k :: 0 <= k < |points| ==>
         evidence[k].at == points[k] && evidence[k].activeAnchorIds == ActiveAnchorIds(config, points[k])
  }

  lemma OneMoreRecorded(config: ScenarioConfig, points: seq<Instant>, before: seq<TimepointEvidence>, last: TimepointEvidence)
    requires points != [] && AnchorsRecorded(config, points[..|points|-1], before)
    requires last.at == points[|points|-1] && last.activeAnchorIds == ActiveAnchorIds(config, last.at)
    ensures AnchorsRecorded(config, points, before + [last])
  {
    hide ActiveAnchorIds;
    forall k | 0 <= k < |before| ensures points[..|points|-1][k] == points[k] {
    }
  }

  lemma {:induction false} TallyAnchors(snapshot: Snapshot, points: seq<Instant>)
    ensures AnchorsRecorded(snapshot.config, points, Tally(snapshot, points).evidence)
  {
    hide Verdicts;
    hide WorldAt;
    hide ActiveAnchorIds;
    hide AnchorsRecorded;
    if points == [] {
      NothingRecorded(snapshot.config);
    } else {
      var init := points[..|points|-1];
      TallyAnchors(snapshot, init);
      RecordedInFull(snapshot.config, init, Tally(snapshot, init).evidence);
      OneMoreRecorded(snapshot.config, points, Tally(snapshot, init).evidence, Tally(snapshot, points).evidence[|init|]);
    }
  }

  lemma RecordedInFull(config: ScenarioConfig, points: seq<Instant>, evidence: seq<TimepointEvidence>)
    requires AnchorsRecorded(config, points, evidence)
    ensures |evidence| == |points|
  {
  }

  lemma NothingRecorded(config: ScenarioConfig)
    ensures AnchorsRecorded(config, [], [])
  {
  }

  /** The recorded anchors: the old one up to the end of the overlap, the new one from its start, and no other. */
  lemma EvidenceNamesActiveAnchors(snapshot: Snapshot)
    requires snapshot.config.overlapStart < snapshot.config.overlapEnd
    ensures var config, evidence := snapshot.config, SimulationResult(snapshot).evidence;
            forall k :: 0 <= k < |evidence| ==>
              && evidence[k].at in Times(config)
              && StrictlyIncreasing(evidence[k].activeAnchorIds)
              && forall id :: id in evidence[k].activeAnchorIds <==>
                   || (id == config.oldAnchorId && evidence[k].at <= config.overlapEnd)
                   || (id == config.newAnchorId && evidence[k].at >= config.overlapStart)
  {
    hide Tally;
    hide ActiveAnchors;
    hide Times;
    var config := snapshot.config;
    TallyAnchors(snapshot, Times(config));
    forall at, id
      ensures id in ActiveAnchorIds(config, at) <==>
                || (id == config.oldAnchorId && at <= config.overlapEnd)
                || (id == config.newAnchorId && at >= config.overlapStart)
    {
      AnchorIsActiveExactlyWhen(config, at, id);
    }
  }

  /** The failure is that of a stored active service, told with its own code and criticality. */
  ghost predicate CopiedFrom(a: AffectedService, services: seq<ServiceSnapshot>) {
    exists s :: s in services && s.Active() && s.id == a.serviceId && s.code == a.serviceCode
             && s.criticality == a.criticality
  }

  ghost predicate AllCopied(affected: seq<AffectedService>, services: seq<ServiceSnapshot>) {
    forall a :: a in affected ==> CopiedFrom(a, services)
  }

  lemma {:induction false} VerdictsCopied(at: Instant, w: World, services: seq<ServiceSnapshot>)
    ensures AllCopied(Affected(at, Verdicts(w, services)), services)
  {
    if services == [] {
    } else {
      var init, last := services[..|services|-1], services[|services|-1];
      assert services == init + [last];
      VerdictsCopied(at, w, init);
      var before, v := Verdicts(w, init), VerdictFor(w, last);
      NextVerdict(at, before, v, map[]);
      forall a | a in Affected(at, before) ensures CopiedFrom(a, services) {
        StillCopied(a, init, last);
      }
      if last.Active() && !v.item.reachable {
        var a := AffectedService(last.id, last.code, last.criticality, at, v.item.reason);
        assert last in services;
        assert CopiedFrom(a, services);
        assert Affected(at, Verdicts(w, services)) == Affected(at, before) + [a];
      }
      hide CopiedFrom;
    }
  }

  lemma StillCopied(a: AffectedService, init: seq<ServiceSnapshot>, last: ServiceSnapshot)
    requires CopiedFrom(a, init)
    ensures CopiedFrom(a, init + [last])
  {
    var s :| s in init && s.Active() && s.id == a.serviceId && s.code == a.serviceCode && s.criticality == a.criticality;
    assert s in init + [last];
  }

  lemma {:induction false} TallyCopied(snapshot: Snapshot, points: seq<Instant>)
    ensures AllCopied(Tally(snapshot, points).affectedServices, snapshot.services)
  {
    hide Verdicts;
    hide WorldAt;
    hide CopiedFrom;
    if points == [] {
    } else {
      TallyCopied(snapshot, points[..|points|-1]);
      VerdictsCopied(points[|points|-1], WorldAt(snapshot, points[|points|-1]), snapshot.services);
    }
  }

  lemma FailuresCopyTheirService(snapshot: Snapshot)
    ensures AllCopied(SimulationResult(snapshot).affectedServices, snapshot.services)
  {
    TallyCopied(snapshot, Times(snapshot.config));
  }

  /** An item keeps the chain selected for its service; only the failure of a dependency changes its verdict. */
  lemma EvidenceKeepsSelection(snapshot: Snapshot, k: nat, i: nat)
    requires StrictlyBy(snapshot.services, ServiceKey)
    requires k < |Times(snapshot.config)| && i < |ActiveServices(snapshot.services)|
    ensures var evidence, s := SimulationResult(snapshot).evidence, ActiveServices(snapshot.services)[i];
            && k < |evidence| && i < |evidence[k].services|
            && var item, direct := evidence[k].services[i], SettingAt(snapshot, evidence[k].at).EvaluateDirect(s);
               && item == direct.(reachable := item.reachable, reason := item.reason)
               && (item.reachable ==> item == direct) && (!direct.reachable ==> item == direct)
  {
    ResultIsConserved(snapshot);
    ActiveInOrder(snapshot.services);
    var at, s := Times(snapshot.config)[k], ActiveServices(snapshot.services)[i];
    var evidence := SimulationResult(snapshot).evidence;
    assert CompleteAt(snapshot, at, evidence[k]);
    assert s in ActiveServices(snapshot.services);
    DirectOfValue(SettingAt(snapshot, at), snapshot.services, s);
    ItemOf(WorldAt(snapshot, at), s.id);
  }

  lemma ItemOf(w: World, id: Id)
    requires id in w.direct
    ensures var item, direct := w.Resolved(id, {}), w.direct[id];
            && item == direct.(reachable := item.reachable, reason := item.reason)
            && (item.reachable ==> item == direct) && (!direct.reachable ==> item == direct)
  {
  }
}
