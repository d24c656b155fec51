/** The records a rollover simulation consumes and produces. */
module RolloverModel {
  import opened Ordering

  /** A database identifier: a Go `uint`, with zero meaning "no record". */
  type Id = nat

  /** An instant in nanoseconds since 1 January of year 1, so that Go's zero time is 0. */
  type Instant = int

  const ZERO_TIME: Instant := 0
  const MINUTE: int := 60_000_000_000
  const MAX_DURATION: int := 0x7FFF_FFFF_FFFF_FFFF
  const MIN_DURATION: int := -0x8000_0000_0000_0000

  /** `time.Time.Sub`: the difference of two instants, saturated to a signed 64-bit `Duration`. */
  function Sub(a: Instant, b: Instant): int {
    if a - b > MAX_DURATION then MAX_DURATION
    else if a - b < MIN_DURATION then MIN_DURATION
    else a - b
  }

  /** The saturated difference is the 64-bit duration nearest to the true one. */
  lemma SubIsNearest(a: Instant, b: Instant, d: int)
    requires -0x8000_0000_0000_0000 <= d <= 0x7FFF_FFFF_FFFF_FFFF
    ensures -0x8000_0000_0000_0000 <= Sub(a, b) <= 0x7FFF_FFFF_FFFF_FFFF
    ensures var error, other := (a - b) - Sub(a, b), (a - b) - d;
            (if error >= 0 then error else -error) <= (if other >= 0 then other else -other)
  {
  }

  datatype Option<+T> = None | Some(value: T)

  datatype Role = Admin | PkiOperator | ServiceOwner | SecurityReviewer | Auditor

  /** Who makes a request. */
  datatype Actor = Actor(userId: Id, username: string, team: string, role: Role)

  datatype AnchorSnapshot = AnchorSnapshot(
    id: Id, code: string, state: string, notBefore: Instant, notAfter: Instant, revoked: bool)

  datatype ChainSnapshot = ChainSnapshot(
    id: Id, code: string, anchorId: Id, leafSubject: string,
    validFrom: Instant, validTo: Instant, state: string, validationValid: bool)

  datatype ServiceSnapshot = ServiceSnapshot(
    id: Id, code: string, chainId: Id, trustAnchorIds: seq<Id>, dependencyIds: seq<Id>,
    criticality: string, state: string)
  {
    predicate Active() { state == "active" }
  }

  datatype ScenarioConfig = ScenarioConfig(
    name: string, oldAnchorId: Id, newAnchorId: Id, overlapStart: Instant, overlapEnd: Instant,
    candidateChainIds: seq<Id>, simulationTime: Instant)

  datatype Snapshot = Snapshot(
    config: ScenarioConfig, anchors: seq<AnchorSnapshot>, chains: seq<ChainSnapshot>,
    services: seq<ServiceSnapshot>)

  datatype AffectedService = AffectedService(
    serviceId: Id, serviceCode: string, criticality: string, at: Instant, reason: string)

  datatype BrokenPath = BrokenPath(at: Instant, serviceCodes: seq<string>, reason: string)

  datatype ServiceEvidence = ServiceEvidence(
    serviceId: Id, serviceCode: string, reachable: bool,
    selectedChainId: Id, selectedAnchorId: Id, reason: string)

  datatype TimepointEvidence = TimepointEvidence(
    at: Instant, activeAnchorIds: seq<Id>, services: seq<ServiceEvidence>)

  datatype Result = Result(
    affectedServices: seq<AffectedService>, brokenPaths: seq<BrokenPath>,
    evidence: seq<TimepointEvidence>, explanation: string)

  function AnchorKey(a: AnchorSnapshot): int { a.id }
  function ChainKey(c: ChainSnapshot): int { c.id }
  function ServiceKey(s: ServiceSnapshot): int { s.id }
  function EvidenceKey(e: ServiceEvidence): int { e.serviceId }
  function IdKey(id: Id): int { id }
  function InstantKey(t: Instant): int { t }

  function PositiveOnly(values: seq<Id>): (r: seq<Id>)
    ensures forall x :: x in r <==> x in values && x > 0
  {
    if values == [] then []
    else (if values[0] > 0 then [values[0]] else []) + PositiveOnly(values[1..])
  }

  /** The positive identifiers of a list, each once, in increasing order. */
  function IdList(values: seq<Id>): (r: seq<Id>)
    ensures StrictlyIncreasing(r)
    ensures forall x :: x in r <==> x in values && x > 0
  {
    var r := SortedDistinct(PositiveOnly(values));
    assert forall i :: 0 <= i < |r| ==> r[i] in r;
    r
  }

  /** `sortedUnique` in the simulator and `uniqueIDs` in the services: the same code twice. */
  method SortedUnique(values: seq<Id>) returns (result: seq<Id>)
    ensures result == IdList(values)
  {
    var seen: set<Id> := {};
    var kept: seq<Id> := [];
    for i := 0 to |values|
      invariant forall x :: x in seen <==> x in values[..i] && x > 0
      invariant forall x :: x in kept <==> x in seen
      invariant forall j, k :: 0 <= j < k < |kept| ==> kept[j] != kept[k]
    {
      if values[i] > 0 && values[i] !in seen {
        assert forall j :: 0 <= j < |kept| ==> kept[j] in kept;
        seen := seen + {values[i]};
        kept := kept + [values[i]];
      }
    }
    result := SortBy(kept, IdKey);
    assert DistinctKeys(kept, IdKey);
    SortByStrict(kept, IdKey);
    assert StrictlyIncreasing(result) by {
      forall i, j | 0 <= i < j < |result| ensures result[i] < result[j] {
        assert IdKey(result[i]) < IdKey(result[j]);
      }
    }
    SortByKeepsElements(kept, IdKey);
    StrictlyIncreasingIsUnique(result, IdList(values));
  }

  function Decimal(n: nat): (s: string)
    ensures s != []
  {
    if n < 10 then ["0123456789"[n]] else Decimal(n / 10) + ["0123456789"[n % 10]]
  }

  /** Reads a decimal numeral. */
  function Numeral(s: string): nat
    requires forall i :: 0 <= i < |s| ==> '0' <= s[i] <= '9'
  {
    if s == [] then 0 else 10 * Numeral(s[..|s|-1]) + (s[|s|-1] - '0') as nat
  }

  lemma DigitOf(d: nat)
    requires d < 10
    ensures '0' <= "0123456789"[d] <= '9' && "0123456789"[d] - '0' == d as char
  {
  }

  lemma {:induction false} DecimalReadsBack(n: nat)
    ensures forall i :: 0 <= i < |Decimal(n)| ==> '0' <= Decimal(n)[i] <= '9'
    ensures Numeral(Decimal(n)) == n
  {
    DigitOf(n % 10);
    if n < 10 {
      assert Decimal(n)[..0] == [];
    } else {
      DecimalReadsBack(n / 10);
      assert Decimal(n)[..|Decimal(n)|-1] == Decimal(n / 10);
    }
  }

  /** `strings.Join`. */
  function Join(parts: seq<string>, separator: string): string {
    if parts == [] then ""
    else if |parts| == 1 then parts[0]
    else parts[0] + separator + Join(parts[1..], separator)
  }

  /** Joining two lists is joining their texts. */
  lemma {:induction false} JoinTogether(first: seq<string>, second: seq<string>, separator: string)
    requires first != [] && second != []
    ensures Join(first + second, separator) == Join(first, separator) + separator + Join(second, separator)
  {
    if |first| == 1 {
      assert (first + second)[1..] == second;
    } else {
      assert (first + second)[1..] == first[1..] + second;
      JoinTogether(first[1..], second, separator);
    }
  }
}
