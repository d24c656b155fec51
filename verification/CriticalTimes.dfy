/** The instants at which a rollover is sampled: `criticalTimes`. */
module CriticalTimes {
  import opened Ordering
  import opened RolloverModel
  import opened DirectEvaluation

  /** Half of the saturated overlap duration after its start; Go division truncates toward zero. */
  function Midpoint(config: ScenarioConfig): Instant {
    var duration := Sub(config.overlapEnd, config.overlapStart);
    config.overlapStart + (if duration >= 0 then duration / 2 else -((-duration) / 2))
  }

  function SourceInstants(config: ScenarioConfig): seq<Instant> {
    [config.overlapStart - MINUTE, config.overlapStart, Midpoint(config),
     config.overlapEnd, config.overlapEnd + MINUTE, config.simulationTime]
  }

  function Times(config: ScenarioConfig): (r: seq<Instant>)
    ensures StrictlyIncreasing(r) && SameElements(r, SourceInstants(config)) && |r| <= |SourceInstants(config)|
  {
    SortedDistinct(SourceInstants(config))
  }

  /** `front` holds each instant of a sorted prefix once, and ends with the prefix's last instant. */
  ghost predicate Compacted(front: seq<Instant>, prefix: seq<Instant>) {
    && StrictlyIncreasing(front) && SameElements(front, prefix)
    && (prefix != [] ==> front != [] && front[|front|-1] == prefix[|prefix|-1])
  }

  lemma CompactStep(front: seq<Instant>, sorted: seq<Instant>, i: nat)
    requires NonDecreasing(sorted) && i < |sorted| && Compacted(front, sorted[..i])
    ensures if front == [] || sorted[i] != front[|front|-1]
            then Compacted(front + [sorted[i]], sorted[..i+1])
            else Compacted(front, sorted[..i+1])
  {
    assert sorted[..i+1] == sorted[..i] + [sorted[i]];
    EmptyTogether(front, sorted[..i]);
  }

  /** Drops repeated neighbours of a sorted array by writing the kept entries over its front. */
  method CompactInPlace(points: array<Instant>) returns (kept: nat)
    requires NonDecreasing(points[..])
    modifies points
    ensures kept <= points.Length
    ensures points[..kept] == SortedDistinct(old(points[..]))
  {
    ghost var sorted := points[..];
    kept := 0;
    for i := 0 to points.Length
      invariant kept <= i
      invariant points[i..] == sorted[i..]
      invariant Compacted(points[..kept], sorted[..i])
    {
      var point := points[i];
      assert point == points[i..][0] == sorted[i];
      ghost var front := points[..kept];
      CompactStep(front, sorted, i);
      ghost var rest := points[i..][1..];
      assert rest == sorted[i+1..];
      if kept == 0 || point != points[kept-1] {
        points[kept] := point;
        kept := kept + 1;
        assert points[..kept] == front + [point];
      }
      assert points[i+1..] == rest;
    }
    assert sorted[..|sorted|] == sorted;
    StrictlyIncreasingIsUnique(points[..kept], SortedDistinct(sorted));
  }

  method SortAndCompact(points: array<Instant>) returns (result: seq<Instant>)
    modifies points
    ensures result == SortedDistinct(old(points[..]))
  {
    ghost var source := points[..];
    SortInPlace(points, InstantKey);
    ghost var sorted := points[..];
    assert NonDecreasing(sorted) by {
      forall i, j | 0 <= i < j < |sorted| ensures sorted[i] <= sorted[j] {
        assert InstantKey(sorted[i]) <= InstantKey(sorted[j]);
      }
    }
    var kept := CompactInPlace(points);
    result := points[..kept];
    SortByKeepsElements(source, InstantKey);
    StrictlyIncreasingIsUnique(result, SortedDistinct(source));
  }

  method CriticalTimes(config: ScenarioConfig) returns (result: seq<Instant>)
    ensures result == Times(config)
  {
    var points := new Instant[] [
      config.overlapStart - MINUTE, config.overlapStart, Midpoint(config),
      config.overlapEnd, config.overlapEnd + MINUTE, config.simulationTime];
    assert points[..] == SourceInstants(config);
    result := SortAndCompact(points);
  }

  /** Even when the duration saturates the midpoint falls inside the overlap; otherwise it halves it. */
  lemma MidpointInOverlap(config: ScenarioConfig)
    requires config.overlapStart < config.overlapEnd
    ensures config.overlapStart <= Midpoint(config) < config.overlapEnd
    ensures config.overlapEnd - config.overlapStart <= MAX_DURATION ==>
              0 <= (config.overlapEnd - Midpoint(config)) - (Midpoint(config) - config.overlapStart) <= 1
    ensures config.overlapEnd - config.overlapStart > MAX_DURATION ==>
              Midpoint(config) - config.overlapStart == 0x3FFF_FFFF_FFFF_FFFF
  {
  }

  /** What is sampled: both overlap ends, a minute outside of each, the midpoint and the requested instant. */
  lemma SampledExactlyWhen(config: ScenarioConfig, t: Instant)
    ensures t in Times(config) <==>
              || t == config.overlapStart || t == config.overlapStart - 60_000_000_000
              || t == config.overlapEnd || t == config.overlapEnd + 60_000_000_000
              || t == Midpoint(config) || t == config.simulationTime
  {
    var source := SourceInstants(config);
    assert forall i :: 0 <= i < |source| ==> source[i] in source;
  }

  /** Every sampling has four to six instants: one with the old anchor only, both overlap ends, one with the new only. */
  lemma TimesCoverPhases(config: ScenarioConfig)
    requires config.overlapStart < config.overlapEnd
    ensures var times := Times(config);
            && 4 <= |times| <= 6
            && config.overlapStart - MINUTE in times && config.overlapStart in times
            && config.overlapEnd in times && config.overlapEnd + MINUTE in times
    ensures ActiveAnchors(config, config.overlapStart - MINUTE) == {config.oldAnchorId}
    ensures forall t :: config.overlapStart <= t <= config.overlapEnd ==>
              ActiveAnchors(config, t) == {config.oldAnchorId, config.newAnchorId}
    ensures ActiveAnchors(config, config.overlapEnd + MINUTE) == {config.newAnchorId}
  {
    hide Times;
    hide Midpoint;
    var times := Times(config);
    var source := SourceInstants(config);
    assert source[0] in times && source[1] in times && source[3] in times && source[4] in times;
    FourMembers(times, source[0], source[1], source[3], source[4]);
  }

  lemma FourMembers(s: seq<int>, a: int, b: int, c: int, d: int)
    requires StrictlyIncreasing(s) && a in s && b in s && c in s && d in s && a < b < c < d
    ensures |s| >= 4
  {
    var i :| 0 <= i < |s| && s[i] == a;
    var j :| 0 <= j < |s| && s[j] == b;
    var k :| 0 <= k < |s| && s[k] == c;
    var l :| 0 <= l < |s| && s[l] == d;
    assert i < j < k < l;
  }
}
