/**
 Spreading failures along dependency edges: `resolveService`.
 The depth-first search is specified by the failing path it returns, `FirstFailure`; the theorems
 say which services have one, and what that path is.
 */
module Resolution {
  import opened RolloverModel
  import opened Graphs

  const ABSENT := "dependency service is absent or inactive"
  const CYCLE := "dependency cycle encountered in frozen graph"

  /** Direct evidence for each active service at one instant, and the dependency edges of all services. */
  datatype World = World(direct: map<Id, ServiceEvidence>, edges: Edges) {

    /** Present, active and directly reachable. */
    predicate Healthy(id: Id) {
      id in direct && direct[id].reachable
    }

    function Code(id: Id): string {
      if id in direct then direct[id].serviceCode else ""
    }

    /** The failing path that the search started at `id` finds first, if any. */
    function FirstFailure(id: Id, visiting: set<Id>): (r: Option<seq<Id>>)
      ensures r.Some? ==> r.value != [] && r.value[0] == id
      decreases direct.Keys - visiting, 0
    {
      if !Healthy(id) || id in visiting then Some([id])
      else
        match FirstFailureAmong(Successors(edges, id), visiting + {id})
        case None => None
        case Some(p) => Some([id] + p)
    }

    function FirstFailureAmong(ids: seq<Id>, visiting: set<Id>): (r: Option<seq<Id>>)
      ensures r.Some? ==> r.value != [] && r.value[0] in ids
      decreases direct.Keys - visiting, |ids|
    {
      if ids == [] then None
      else
        var first := FirstFailure(ids[0], visiting);
        if first.Some? then first else FirstFailureAmong(ids[1..], visiting)
    }

    /** The reason at the head of a failing path: one "upstream dependency" prefix per hop. */
    function Reason(p: seq<Id>, visiting: set<Id>): string
      requires p != []
    {
      if |p| > 1 then
        "upstream dependency " + Code(p[1]) + " is unreachable: " + Reason(p[1..], visiting + {p[0]})
      else if p[0] !in direct then ABSENT
      else if p[0] in visiting then CYCLE
      else direct[p[0]].reason
    }

    /** The hops of a failing path, from its start to its end. */
    function Hops(p: seq<Id>): string {
      if |p| <= 1 then ""
      else Hops(p[..|p|-1]) + Hop(p[|p|-1])
    }

    function Hop(id: Id): string {
      "upstream dependency " + Code(id) + " is unreachable: "
    }

    /** The same story told by its end: all hops, then why the last service of the path fails by itself. */
    function Told(p: seq<Id>): string
      requires p != []
    {
      Hops(p) + OwnReason(Last(p))
    }

    /** Why a service fails by itself. */
    function OwnReason(id: Id): string {
      if id in direct then direct[id].reason else "dependency service is absent or inactive"
    }

    lemma {:induction false} HopsFromFront(p: seq<Id>)
      requires |p| > 1
      ensures Hops(p) == Hop(p[1]) + Hops(p[1..])
    {
      hide Hop;
      if |p| == 2 {
        assert Hops(p[..1]) == "";
      } else {
        var init := p[..|p|-1];
        HopsFromFront(init);
        assert init[1..] == p[1..][..|p[1..]|-1];
        Regroup(Hop(p[1]), Hops(init[1..]), Hop(p[|p|-1]));
      }
    }

    lemma {:induction false} ReasonTellsHops(p: seq<Id>, visiting: set<Id>)
      requires p != [] && Distinct(p) && Last(p) !in visiting
      ensures Reason(p, visiting) == Told(p)
    {
      if |p| == 1 {
        ReasonAlone(p, visiting);
      } else {
        hide Reason;
        hide Hop;
        hide Hops;
        hide OwnReason;
        NextReason(p, visiting);
        ReasonTellsHops(p[1..], visiting + {p[0]});
        HopsFromFront(p);
        Regroup(Hop(p[1]), Hops(p[1..]), OwnReason(Last(p)));
      }
    }

    lemma Regroup(a: string, b: string, c: string)
      ensures (a + b) + c == a + (b + c)
    {
    }

    lemma ReasonAlone(p: seq<Id>, visiting: set<Id>)
      requires |p| == 1 && Last(p) !in visiting
      ensures Reason(p, visiting) == Told(p)
    {
    }

    lemma NextReason(p: seq<Id>, visiting: set<Id>)
      requires |p| > 1
      ensures Reason(p, visiting) == Hop(p[1]) + Reason(p[1..], visiting + {p[0]})
    {
    }

    /** The evidence for `id` once its failing path, if any, is known. */
    function Resolved(id: Id, visiting: set<Id>): ServiceEvidence {
      match FirstFailure(id, visiting)
      case None => if id in direct then direct[id] else ServiceEvidence(id, "", false, 0, 0, ABSENT)
      case Some(p) =>
        if id in direct then direct[id].(reachable := false, reason := Reason(p, visiting))
        else ServiceEvidence(id, "", false, 0, 0, ABSENT)
    }

    lemma ResolvedReason(id: Id, visiting: set<Id>)
      ensures Resolved(id, visiting).reachable <==> FirstFailure(id, visiting).None?
      ensures var failure := FirstFailure(id, visiting);
              failure.Some? ==>
                && Resolved(id, visiting).reason == Reason(failure.value, visiting)
                && Resolved(id, visiting).serviceCode == Code(id)
    {
    }

    /** The search fails at the service it starts from, without looking at any dependency. */
    lemma FailsHere(id: Id, visiting: set<Id>)
      ensures !Healthy(id) || id in visiting ==> FirstFailure(id, visiting) == Some([id])
      ensures id !in direct ==> Resolved(id, visiting) == ServiceEvidence(id, "", false, 0, 0, ABSENT)
      ensures id in direct && id in visiting ==>
                Resolved(id, visiting) == direct[id].(reachable := false, reason := CYCLE)
      ensures id in direct && id !in visiting && !direct[id].reachable ==> Resolved(id, visiting) == direct[id]
    {
    }

    /** No dependency fails, so neither does the service. */
    lemma NothingFails(id: Id, visiting: set<Id>)
      requires Healthy(id) && id !in visiting && FirstFailureAmong(Successors(edges, id), visiting + {id}).None?
      ensures FirstFailure(id, visiting).None? && Resolved(id, visiting) == direct[id]
    {
    }

    /** Looking at one dependency of the list after the other. */
    lemma NextDependency(ids: seq<Id>, i: nat, visiting: set<Id>)
      requires i <= |ids|
      ensures FirstFailureAmong(ids[i..], visiting) ==
              if i == |ids| then None
              else if FirstFailure(ids[i], visiting).Some? then FirstFailure(ids[i], visiting)
              else FirstFailureAmong(ids[i+1..], visiting)
    {
      if i < |ids| { assert ids[i..][1..] == ids[i+1..]; }
    }

    /** A failing dependency becomes the rest of the failing path and the rest of the reason. */
    lemma FailureSpreads(id: Id, visiting: set<Id>, dependency: Id)
      requires Healthy(id) && id !in visiting && FirstFailure(dependency, visiting + {id}).Some?
      requires FirstFailureAmong(Successors(edges, id), visiting + {id}) == FirstFailure(dependency, visiting + {id})
      ensures FirstFailure(id, visiting) == Some([id] + FirstFailure(dependency, visiting + {id}).value)
      ensures var upstream := Resolved(dependency, visiting + {id});
              Resolved(id, visiting) == direct[id].(
                reachable := false,
                reason := "upstream dependency " + upstream.serviceCode + " is unreachable: " + upstream.reason)
    {
      ResolvedReason(dependency, visiting + {id});
      var p := FirstFailure(dependency, visiting + {id}).value;
      assert ([id] + p)[1..] == p;
    }
  }

  /** The `visiting` map that all activations of one search share. */
  class Visiting {
    var ids: set<Id>

    constructor ()
      ensures ids == {}
    {
      ids := {};
    }
  }

  function EdgesById(services: map<Id, ServiceSnapshot>): Edges {
    map id | id in services :: services[id].dependencyIds
  }

  method ResolveService(id: Id, direct: map<Id, ServiceEvidence>, services: map<Id, ServiceSnapshot>,
                        visiting: Visiting, path: seq<Id>)
    returns (item: ServiceEvidence, broken: seq<Id>)
    modifies visiting
    ensures visiting.ids == old(visiting.ids)
    ensures item == World(direct, EdgesById(services)).Resolved(id, old(visiting.ids))
    ensures var failure := World(direct, EdgesById(services)).FirstFailure(id, old(visiting.ids));
            && (failure.Some? ==> broken == path + failure.value)
            && (failure.None? ==> broken == path + [id])
    decreases direct.Keys - visiting.ids
  {
    hide World.FirstFailureAmong;
    hide World.Reason;
    hide World.Resolved;
    hide World.FirstFailure;
    ghost var world := World(direct, EdgesById(services));
    world.FailsHere(id, visiting.ids);
    if id !in direct {
      return ServiceEvidence(id, "", false, 0, 0, ABSENT), path + [id];
    }
    item := direct[id];
    var currentPath := path + [id];
    if id in visiting.ids {
      return item.(reachable := false, reason := CYCLE), currentPath;
    }
    if !item.reachable {
      return item, currentPath;
    }
    ghost var outer := visiting.ids;
    visiting.ids := visiting.ids + {id};
    var dependencies := if id in services then services[id].dependencyIds else [];
    assert dependencies[0..] == dependencies;
    for i := 0 to |dependencies|
      invariant visiting.ids == outer + {id}
      invariant world.FirstFailureAmong(dependencies, outer + {id})
             == world.FirstFailureAmong(dependencies[i..], outer + {id})
    {
      world.NextDependency(dependencies, i, outer + {id});
      var dependency, brokenPath := ResolveService(dependencies[i], direct, services, visiting, currentPath);
      world.ResolvedReason(dependencies[i], outer + {id});
      if !dependency.reachable {
        world.FailureSpreads(id, outer, dependencies[i]);
        item := item.(reachable := false,
                      reason := "upstream dependency " + dependency.serviceCode + " is unreachable: " + dependency.reason);
        visiting.ids := visiting.ids - {id};
        return item, brokenPath;
      }
    }
    world.NextDependency(dependencies, |dependencies|, outer + {id});
    world.NothingFails(id, outer);
    visiting.ids := visiting.ids - {id};
    return item, currentPath;
  }
}
