/**
 The stored dependency graph and the requests that change it, one request at a time.
 Every request keeps the graph closed and acyclic, so that it can always be frozen and simulated.
 */
module DependencyStore {
  import opened Ordering
  import opened RolloverModel
  import opened Graphs
  import opened CycleCheck
  import opened FrozenInput
  import opened Canonical

  /** `^uint(0)`, the identifier under which `Create` checks a service that has none yet. */
  const PLACEHOLDER: Id := 0xFFFF_FFFF_FFFF_FFFF

  datatype ServiceRequest = ServiceRequest(
    serviceCode: string, name: string, ownerTeam: string, environment: string, chainId: Id,
    clientTrustRefs: seq<Id>, protocol: string, criticality: string, dependencyEdges: seq<Id>)

  datatype ServiceError =
    | NotFound | Forbidden | ChainNotFound | AnchorMissing | SelfDependency | DependencyMissing
    | Cyclic | DuplicateCode | AlreadyInactive | AuditFailed

  datatype Outcome = Done(service: DependentService) | Failed(error: ServiceError)

  datatype ServiceAudit = ServiceAudit(
    actorId: Id, action: string, before: Option<DependentService>, after: DependentService)

  predicate OwnsTeam(actor: Actor, ownerTeam: string) {
    actor.role.Admin? || actor.role.PkiOperator? || (actor.role.ServiceOwner? && actor.team == ownerTeam)
  }

  function NewRow(id: Id, r: ServiceRequest): DependentService {
    DependentService(id, r.serviceCode, r.name, r.ownerTeam, r.environment, r.chainId, IdList(r.clientTrustRefs),
                     r.protocol, r.criticality, IdList(r.dependencyEdges), "active")
  }

  function UpdatedRow(row: DependentService, r: ServiceRequest): DependentService {
    row.(name := r.name, ownerTeam := r.ownerTeam, environment := r.environment, chainId := r.chainId,
         clientTrustRefs := IdList(r.clientTrustRefs), protocol := r.protocol, criticality := r.criticality,
         dependencyEdges := IdList(r.dependencyEdges))
  }

  /** Which role may edit the services of which team. */
  lemma OwnershipByRole(actor: Actor, ownerTeam: string)
    ensures OwnsTeam(actor, ownerTeam) <==>
            match actor.role
            case Admin => true
            case PkiOperator => true
            case ServiceOwner => actor.team == ownerTeam
            case SecurityReviewer => false
            case Auditor => false
  {
  }

  /** The request that a row answers, read back from its columns. */
  function ReadBack(row: DependentService): ServiceRequest {
    ServiceRequest(row.serviceCode, row.name, row.ownerTeam, row.environment, row.chainId, row.clientTrustRefs,
                   row.protocol, row.criticality, row.dependencyEdges)
  }

  /** Requests that differ only in the order, repetition and zeros of their identifier lists. */
  ghost predicate SameRequest(a: ServiceRequest, b: ServiceRequest) {
    && b == a.(clientTrustRefs := b.clientTrustRefs, dependencyEdges := b.dependencyEdges)
    && SameIds(a.clientTrustRefs, b.clientTrustRefs) && SameIds(a.dependencyEdges, b.dependencyEdges)
  }

  /** Storing a request loses nothing of it; an update keeps identifier, code and state of the row. */
  lemma StoredRequestsReadBack(id: Id, row: DependentService, request: ServiceRequest)
    ensures SameRequest(request, ReadBack(NewRow(id, request)))
    ensures NewRow(id, request).id == id && NewRow(id, request).serviceState == "active"
    ensures SameRequest(request.(serviceCode := row.serviceCode), ReadBack(UpdatedRow(row, request)))
    ensures UpdatedRow(row, request).id == row.id && UpdatedRow(row, request).serviceState == row.serviceState
  {
  }

  /** The dependency graph of the stored rows. */
  function StoredEdges(rows: map<Id, DependentService>): Edges {
    map id | id in rows :: IdList(rows[id].dependencyEdges)
  }

  ghost predicate Lists(all: seq<DependentService>, rows: map<Id, DependentService>) {
    && StrictlyBy(all, RowKey)
    && forall row :: row in all <==> row.id in rows && rows[row.id] == row
  }

  lemma ListedEdges(all: seq<DependentService>, rows: map<Id, DependentService>)
    requires Lists(all, rows) && forall id :: id in rows ==> rows[id].id == id
    ensures RowEdges(all) == StoredEdges(rows)
  {
    RowEdgesAreFrozenEdges(all);
    forall id
      ensures id in RowEdges(all) <==> id in rows
      ensures id in rows ==> RowEdges(all)[id] == StoredEdges(rows)[id]
    {
      ListedEdgesAt(all, rows, id);
    }
  }

  lemma ListedEdgesAt(all: seq<DependentService>, rows: map<Id, DependentService>, id: Id)
    requires Lists(all, rows) && forall x :: x in rows ==> rows[x].id == x
    ensures var g := EdgesOf(FreezeAll(all));
            (id in g <==> id in rows) && (id in rows ==> g[id] == IdList(rows[id].dependencyEdges))
  {
    var frozen := FreezeAll(all);
    EdgesOfKeys(frozen, id);
    if id in rows {
      var i :| 0 <= i < |all| && all[i] == rows[id];
      assert frozen[i] in frozen;
      FrozenListsAreSorted(all);
      EdgesOfValue(frozen, frozen[i]);
    } else {
      forall s | s in frozen ensures s.id in rows {
        var i :| 0 <= i < |frozen| && frozen[i] == s;
        assert all[i] in all;
      }
    }
  }

  // ---------------------------------------------------------------- adding a node that nothing points to

  lemma {:induction false} PathStaysInside(g: Edges, h: Edges, p: seq<Id>)
    requires Closed(g) && IsPath(h, p) && p[0] in g
    requires forall id :: id in g ==> id in h && h[id] == g[id]
    ensures IsPath(g, p) && Last(p) in g
  {
    if |p| == 1 {
    } else {
      assert p[1] in Successors(g, p[0]);
      PathStaysInside(g, h, p[1..]);
    }
  }

  lemma ClosedWith(g: Edges, id: Id, targets: seq<Id>)
    requires Closed(g) && forall next :: next in targets ==> next in g
    ensures Closed(g[id := targets])
  {
    var h := g[id := targets];
    forall from, next {:trigger next in Successors(h, from)} | next in Successors(h, from) ensures next in h {
      assert from != id ==> next in Successors(g, from);
    }
  }

  /** A fresh node with edges into a closed graph closes no cycle; only the graph itself decides. */
  lemma FreshNodeKeepsVerdict(g: Edges, added: Id, targets: seq<Id>)
    requires Closed(g) && added !in g && forall next :: next in targets ==> next in g
    ensures Closed(g[added := targets])
    ensures Acyclic(g[added := targets]) <==> Acyclic(g)
  {
    var h := g[added := targets];
    ClosedWith(g, added, targets);
    forall p | IsCycle(h, p) ensures IsCycle(g, p) {
      assert p[1] in Successors(h, p[0]);
      assert p[0] != added ==> p[1] in Successors(g, p[0]);
      assert p[1] in g;
      PathStaysInside(g, h, p[1..]);
      assert Last(p) in g;
      PathStaysInside(g, h, p);
    }
    forall p | IsCycle(g, p) ensures IsCycle(h, p) {
      assert p[1] in Successors(g, p[0]);
      PathInLarger(g, h, p);
    }
  }

  lemma {:induction false} PathInLarger(g: Edges, h: Edges, p: seq<Id>)
    requires IsPath(g, p) && forall id :: id in g ==> id in h && h[id] == g[id]
    ensures IsPath(h, p)
  {
    if |p| == 1 {
    } else {
      PathInLarger(g, h, p[1..]);
    }
  }

  ghost predicate Numbered(rows: map<Id, DependentService>) {
    forall id :: id in rows ==> rows[id].id == id && 0 < id < PLACEHOLDER
  }

  /** What every request keeps: no dangling dependency and no cycle. */
  ghost predicate GoodGraph(rows: map<Id, DependentService>) {
    Numbered(rows) && Closed(StoredEdges(rows)) && Acyclic(StoredEdges(rows))
  }

  /** The unique index on the service code. */
  ghost predicate CodesDistinct(rows: map<Id, DependentService>) {
    forall a, b :: a in rows && b in rows && rows[a].serviceCode == rows[b].serviceCode ==> a == b
  }

  ghost predicate Known(rows: map<Id, DependentService>, ids: seq<Id>) {
    forall id :: id in ids ==> id in rows
  }

  lemma InsertKeepsGraph(rows: map<Id, DependentService>, request: ServiceRequest, id: Id)
    requires GoodGraph(rows) && 0 < id < PLACEHOLDER && id !in rows && Known(rows, IdList(request.dependencyEdges))
    ensures GoodGraph(rows[id := NewRow(id, request)])
  {
    SortedListTwice(request.dependencyEdges);
    assert StoredEdges(rows[id := NewRow(id, request)]) == StoredEdges(rows)[id := IdList(request.dependencyEdges)];
    FreshNodeKeepsVerdict(StoredEdges(rows), id, IdList(request.dependencyEdges));
  }

  lemma UpdateKeepsGraph(rows: map<Id, DependentService>, request: ServiceRequest, id: Id)
    requires GoodGraph(rows) && id in rows && Known(rows, IdList(request.dependencyEdges))
    requires Acyclic(StoredEdges(rows)[id := IdList(request.dependencyEdges)])
    ensures GoodGraph(rows[id := UpdatedRow(rows[id], request)])
  {
    SortedListTwice(request.dependencyEdges);
    assert StoredEdges(rows[id := UpdatedRow(rows[id], request)])
        == StoredEdges(rows)[id := IdList(request.dependencyEdges)];
    ClosedWith(StoredEdges(rows), id, IdList(request.dependencyEdges));
  }

  class DependentServices {
    var rows: map<Id, DependentService>
    var audit: seq<ServiceAudit>
    /** Identifiers of the stored certificate chains and trust anchors. */
    var chains: set<Id>
    var anchors: set<Id>

    constructor (chains: set<Id>, anchors: set<Id>)
      ensures Valid() && rows == map[] && audit == []
    {
      rows, audit := map[], [];
      this.chains, this.anchors := chains, anchors;
    }

    ghost predicate Valid()
      reads this
    {
      GoodGraph(rows) && CodesDistinct(rows)
    }

    /** The references of a request that `validateReferences` accepts for the service `id` (0 when new). */
    ghost predicate GoodReferences(id: Id, request: ServiceRequest)
      reads this
    {
      && request.chainId in chains
      && (forall anchor :: anchor in IdList(request.clientTrustRefs) ==> anchor in anchors)
      && Known(rows, IdList(request.dependencyEdges))
      && (id != 0 ==> id !in IdList(request.dependencyEdges))
    }

    /** The dependency cannot be accepted for the service `id`. */
    ghost predicate Offends(id: Id, next: Id)
      reads this
    {
      (id != 0 && next == id) || next !in rows
    }

    /** The error is that of the first failing test: chain, anchors, then the dependencies in identifier order. */
    ghost predicate ReferenceErrorFits(id: Id, request: ServiceRequest, error: ServiceError)
      reads this
    {
      if request.chainId !in chains then error == ChainNotFound
      else if exists anchor :: anchor in request.clientTrustRefs && anchor > 0 && anchor !in anchors then
        error == AnchorMissing
      else
        exists next ::
          && next in request.dependencyEdges && next > 0 && Offends(id, next)
          && (forall other :: other in request.dependencyEdges && 0 < other < next ==> !Offends(id, other))
          && error == if id != 0 && next == id then SelfDependency else DependencyMissing
    }

    /** All rows in identifier order. */
    method All() returns (all: seq<DependentService>)
      requires Numbered(rows)
      ensures Lists(all, rows)
    {
      var remaining := rows.Keys;
      var found: seq<DependentService> := [];
      while remaining != {}
        invariant remaining <= rows.Keys
        invariant forall row :: row in found <==> row.id in rows && rows[row.id] == row && row.id !in remaining
        invariant DistinctKeys(found, RowKey)
      {
        var id :| id in remaining;
        assert forall i :: 0 <= i < |found| ==> found[i] in found;
        remaining := remaining - {id};
        found := found + [rows[id]];
      }
      all := SortBy(found, RowKey);
      SortByStrict(found, RowKey);
      SortByKeepsElements(found, RowKey);
    }

    lemma ReferencesInFull(id: Id, request: ServiceRequest)
      ensures GoodReferences(id, request) <==>
                && request.chainId in chains
                && (forall anchor :: anchor in request.clientTrustRefs && anchor > 0 ==> anchor in anchors)
                && (forall next :: next in request.dependencyEdges && next > 0 ==> !Offends(id, next))
    {
    }

    lemma FirstOffender(id: Id, request: ServiceRequest, edges: seq<Id>, i: nat)
      requires edges == IdList(request.dependencyEdges) && i < |edges| && request.chainId in chains
      requires forall anchor :: anchor in request.clientTrustRefs && anchor > 0 ==> anchor in anchors
      requires Offends(id, edges[i]) && forall j :: 0 <= j < i ==> !Offends(id, edges[j])
      ensures ReferenceErrorFits(id, request, if id != 0 && edges[i] == id then SelfDependency else DependencyMissing)
      ensures !GoodReferences(id, request)
    {
      var next := edges[i];
      assert next in edges;
      forall other | other in request.dependencyEdges && 0 < other < next ensures !Offends(id, other) {
        var j :| 0 <= j < |edges| && edges[j] == other;
      }
      ReferencesInFull(id, request);
    }

    method ValidateReferences(id: Id, request: ServiceRequest) returns (error: Option<ServiceError>)
      ensures error.None? <==> GoodReferences(id, request)
      ensures error.None? <==>
                && request.chainId in chains
                && (forall anchor :: anchor in request.clientTrustRefs && anchor > 0 ==> anchor in anchors)
                && (forall next :: next in request.dependencyEdges && next > 0 ==> !Offends(id, next))
      ensures error.Some? ==> ReferenceErrorFits(id, request, error.value)
      ensures error.Some? ==> error.value in {ChainNotFound, AnchorMissing, SelfDependency, DependencyMissing}
    {
      ReferencesInFull(id, request);
      hide GoodReferences;
      if request.chainId !in chains {
        return Some(ChainNotFound);
      }
      var trust := SortedUnique(request.clientTrustRefs);
      if exists anchor :: anchor in trust && anchor !in anchors {
        return Some(AnchorMissing);
      }
      assert forall anchor :: anchor in request.clientTrustRefs && anchor > 0 ==> anchor in trust;
      hide ReferenceErrorFits;
      var known: set<Id> := rows.Keys;
      var edges := SortedUnique(request.dependencyEdges);
      for i := 0 to |edges|
        invariant forall j :: 0 <= j < i ==> !Offends(id, edges[j])
      {
        if Offends(id, edges[i]) {
          FirstOffender(id, request, edges, i);
        }
        if edges[i] == id && id != 0 {
          return Some(SelfDependency);
        }
        if edges[i] !in known {
          return Some(DependencyMissing);
        }
      }
      return None;
    }

    /** The reads and checks of `Create`, up to the opening of its transaction. */
    method CheckCreate(request: ServiceRequest, actor: Actor) returns (error: Option<ServiceError>)
      requires Valid()
      ensures error.None? <==> OwnsTeam(actor, request.ownerTeam) && GoodReferences(0, request)
      ensures error.Some? ==>
                if !OwnsTeam(actor, request.ownerTeam) then error.value == Forbidden
                else ReferenceErrorFits(0, request, error.value)
      ensures error != Some(Cyclic)
    {
      if !OwnsTeam(actor, request.ownerTeam) {
        return Some(Forbidden);
      }
      error := ValidateReferences(0, request);
      if error.Some? {
        return;
      }
      var service := NewRow(PLACEHOLDER, request);
      var all := All();
      ListedEdges(all, rows);
      CandidateEdges(all, service);
      SortedListTwice(request.dependencyEdges);
      FreshNodeKeepsVerdict(StoredEdges(rows), PLACEHOLDER, IdList(request.dependencyEdges));
      var cycle := ServicesContainCycle(all + [service]);
      if cycle.Some? {
        return Some(Cyclic);
      }
    }

    /** A transaction that writes one row and its audit record; without the record the write is rolled back. */
    method Commit(row: DependentService, entry: ServiceAudit, auditSucceeds: bool)
      modifies this
      ensures chains == old(chains) && anchors == old(anchors)
      ensures rows == if auditSucceeds then old(rows)[row.id := row] else old(rows)
      ensures audit == if auditSucceeds then old(audit) + [entry] else old(audit)
    {
      var saved := rows;
      rows := rows[row.id := row];
      if !auditSucceeds {
        rows := saved;
        return;
      }
      audit := audit + [entry];
    }

    predicate CodeTaken(code: string)
      reads this
    {
      exists id :: id in rows && rows[id].serviceCode == code
    }

    /** `freshId` is the identifier that the database assigns if the insertion is reached. */
    method Create(request: ServiceRequest, actor: Actor, freshId: Id, auditSucceeds: bool) returns (outcome: Outcome)
      requires Valid()
      requires 0 < freshId < PLACEHOLDER && freshId !in rows
      modifies this
      ensures Valid() && chains == old(chains) && anchors == old(anchors)
      ensures outcome.Done? <==>
                && OwnsTeam(actor, request.ownerTeam) && old(GoodReferences(0, request))
                && !(exists other :: other in old(rows) && old(rows)[other].serviceCode == request.serviceCode)
                && auditSucceeds
      ensures outcome.Done? ==>
                && outcome.service == NewRow(freshId, request)
                && rows == old(rows)[freshId := outcome.service]
                && audit == old(audit) + [ServiceAudit(actor.userId, "create", None, outcome.service)]
      ensures outcome.Failed? ==> rows == old(rows) && audit == old(audit)
      ensures outcome.Failed? ==>
                if !OwnsTeam(actor, request.ownerTeam) then outcome.error == Forbidden
                else if !old(GoodReferences(0, request)) then old(ReferenceErrorFits(0, request, outcome.error))
                else if exists other :: other in old(rows) && old(rows)[other].serviceCode == request.serviceCode then
                  outcome.error == DuplicateCode
                else outcome.error == AuditFailed
      ensures outcome != Failed(Cyclic)
    {
      var bad := CheckCreate(request, actor);
      if bad.Some? {
        return Failed(bad.value);
      }
      if CodeTaken(request.serviceCode) {
        return Failed(DuplicateCode);
      }
      var service := NewRow(freshId, request);
      InsertKeepsGraph(rows, request, freshId);
      Commit(service, ServiceAudit(actor.userId, "create", None, service), auditSucceeds);
      if !auditSucceeds {
        return Failed(AuditFailed);
      }
      return Done(service);
    }

    /** The reads and checks of `Update`, which edits its own copy of all rows before the cycle check. */
    method CheckUpdate(id: Id, request: ServiceRequest, actor: Actor) returns (error: Option<ServiceError>)
      requires Valid()
      ensures error.None? <==>
                && id in rows && OwnsTeam(actor, rows[id].ownerTeam)
                && (actor.role.ServiceOwner? ==> request.ownerTeam == actor.team)
                && GoodReferences(id, request)
                && Acyclic(StoredEdges(rows)[id := IdList(request.dependencyEdges)])
      ensures error.Some? ==>
                if id !in rows then error.value == NotFound
                else if !OwnsTeam(actor, rows[id].ownerTeam)
                        || (actor.role.ServiceOwner? && request.ownerTeam != actor.team) then error.value == Forbidden
                else if !GoodReferences(id, request) then ReferenceErrorFits(id, request, error.value)
                else error.value == Cyclic
    {
      if id !in rows {
        return Some(NotFound);
      }
      if !OwnsTeam(actor, rows[id].ownerTeam) {
        return Some(Forbidden);
      }
      if actor.role.ServiceOwner? && request.ownerTeam != actor.team {
        return Some(Forbidden);
      }
      error := ValidateReferences(id, request);
      if error.Some? {
        return;
      }
      var listed := All();
      var all := EditRows(listed, id, request);
      SortedListTwice(request.dependencyEdges);
      EditedEdges(listed, all, rows, id, request);
      ClosedWith(StoredEdges(rows), id, IdList(request.dependencyEdges));
      var cycle := ServicesContainCycle(all);
      if cycle.Some? {
        return Some(Cyclic);
      }
    }

    method Update(id: Id, request: ServiceRequest, actor: Actor, auditSucceeds: bool) returns (outcome: Outcome)
      requires Valid()
      modifies this
      ensures Valid() && chains == old(chains) && anchors == old(anchors)
      ensures outcome.Done? <==>
                && id in old(rows) && OwnsTeam(actor, old(rows)[id].ownerTeam)
                && (actor.role.ServiceOwner? ==> request.ownerTeam == actor.team)
                && old(GoodReferences(id, request))
                && Acyclic(StoredEdges(old(rows))[id := IdList(request.dependencyEdges)])
                && auditSucceeds
      ensures outcome.Done? ==>
                && outcome.service == UpdatedRow(old(rows)[id], request)
                && rows == old(rows)[id := outcome.service]
                && audit == old(audit) + [ServiceAudit(actor.userId, "update", Some(old(rows)[id]), outcome.service)]
      ensures outcome.Failed? ==> rows == old(rows) && audit == old(audit)
      ensures outcome.Failed? ==>
                if id !in old(rows) then outcome.error == NotFound
                else if !OwnsTeam(actor, old(rows)[id].ownerTeam)
                        || (actor.role.ServiceOwner? && request.ownerTeam != actor.team) then outcome.error == Forbidden
                else if !old(GoodReferences(id, request)) then old(ReferenceErrorFits(id, request, outcome.error))
                else if !Acyclic(StoredEdges(old(rows))[id := IdList(request.dependencyEdges)]) then outcome.error == Cyclic
                else outcome.error == AuditFailed
    {
      var bad := CheckUpdate(id, request, actor);
      if bad.Some? {
        return Failed(bad.value);
      }
      var current := rows[id];
      var after := UpdatedRow(current, request);
      UpdateKeepsGraph(rows, request, id);
      Commit(after, ServiceAudit(actor.userId, "update", Some(current), after), auditSucceeds);
      if !auditSucceeds {
        return Failed(AuditFailed);
      }
      return Done(after);
    }

    method Deactivate(id: Id, actor: Actor, auditSucceeds: bool) returns (outcome: Outcome)
      requires Valid()
      modifies this
      ensures Valid() && chains == old(chains) && anchors == old(anchors)
      ensures outcome.Done? <==>
                && id in old(rows) && OwnsTeam(actor, old(rows)[id].ownerTeam)
                && old(rows)[id].serviceState == "active" && auditSucceeds
      ensures outcome.Done? ==>
                && outcome.service == old(rows)[id].(serviceState := "inactive")
                && rows == old(rows)[id := outcome.service]
                && audit == old(audit) + [ServiceAudit(actor.userId, "deactivate", Some(old(rows)[id]), outcome.service)]
      ensures outcome.Failed? ==> rows == old(rows) && audit == old(audit)
      ensures outcome.Failed? ==>
                outcome.error == if id !in old(rows) then NotFound
                                 else if !OwnsTeam(actor, old(rows)[id].ownerTeam) then Forbidden
                                 else if old(rows)[id].serviceState != "active" then AlreadyInactive
                                 else AuditFailed
    {
      if id !in rows {
        return Failed(NotFound);
      }
      var current := rows[id];
      if !OwnsTeam(actor, current.ownerTeam) {
        return Failed(Forbidden);
      }
      if current.serviceState != "active" {
        return Failed(AlreadyInactive);
      }
      var after := current.(serviceState := "inactive");
      ghost var before := StoredEdges(rows);
      Commit(after, ServiceAudit(actor.userId, "deactivate", Some(current), after), auditSucceeds);
      if !auditSucceeds {
        return Failed(AuditFailed);
      }
      assert StoredEdges(rows) == before;
      return Done(after);
    }
  }

  function Edited(row: DependentService, id: Id, r: ServiceRequest): DependentService {
    if row.id == id then
      row.(chainId := r.chainId, clientTrustRefs := IdList(r.clientTrustRefs), dependencyEdges := IdList(r.dependencyEdges))
    else row
  }

  method EditRows(listed: seq<DependentService>, id: Id, request: ServiceRequest) returns (all: seq<DependentService>)
    ensures |all| == |listed| && forall i :: 0 <= i < |all| ==> all[i] == Edited(listed[i], id, request)
  {
    all := listed;
    for index := 0 to |all|
      invariant |all| == |listed|
      invariant forall i :: index <= i < |all| ==> all[i] == listed[i]
      invariant forall i :: 0 <= i < index ==> all[i] == Edited(listed[i], id, request)
    {
      if all[index].id == id {
        all := all[index := all[index].(chainId := request.chainId,
                                        clientTrustRefs := IdList(request.clientTrustRefs),
                                        dependencyEdges := IdList(request.dependencyEdges))];
      }
    }
  }

  lemma SortedListTwice(ids: seq<Id>)
    ensures IdList(IdList(ids)) == IdList(ids)
  {
    StrictlyIncreasingIsUnique(IdList(IdList(ids)), IdList(ids));
  }

  lemma CandidateEdges(all: seq<DependentService>, row: DependentService)
    ensures RowEdges(all + [row]) == RowEdges(all)[row.id := IdList(row.dependencyEdges)]
  {
    assert (all + [row])[..|all|] == all;
  }

  lemma EditedEdges(listed: seq<DependentService>, all: seq<DependentService>, rows: map<Id, DependentService>,
                    id: Id, request: ServiceRequest)
    requires Lists(listed, rows) && (forall x :: x in rows ==> rows[x].id == x) && id in rows
    requires |all| == |listed| && forall i :: 0 <= i < |all| ==> all[i] == Edited(listed[i], id, request)
    requires IdList(IdList(request.dependencyEdges)) == IdList(request.dependencyEdges)
    ensures RowEdges(all) == StoredEdges(rows)[id := IdList(request.dependencyEdges)]
  {
    ListedEdges(listed, rows);
    EditedRowEdges(listed, all, id, request);
    assert rows[id] in listed;
  }

  lemma {:induction false} EditedRowEdges(listed: seq<DependentService>, all: seq<DependentService>, id: Id,
                                          request: ServiceRequest)
    requires |all| == |listed| && forall i :: 0 <= i < |all| ==> all[i] == Edited(listed[i], id, request)
    requires IdList(IdList(request.dependencyEdges)) == IdList(request.dependencyEdges)
    ensures RowEdges(all) ==
            if id in RowEdges(listed) then RowEdges(listed)[id := IdList(request.dependencyEdges)] else RowEdges(listed)
  {
    if all == [] {
    } else {
      EditedRowEdges(listed[..|listed|-1], all[..|all|-1], id, request);
    }
  }

  /** Whatever is stored can be frozen: the simulator's own cycle check accepts the snapshot. */
  lemma StoredGraphIsSimulable(all: seq<DependentService>, rows: map<Id, DependentService>)
    requires Lists(all, rows) && (forall id :: id in rows ==> rows[id].id == id)
    requires Acyclic(StoredEdges(rows))
    ensures Acyclic(EdgesOf(CanonicalServices(FreezeAll(all))))
  {
    ListedEdges(all, rows);
    FrozenGraphIsStoredGraph(all);
  }
}
