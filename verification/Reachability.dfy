/** What the depth-first failure search of `Resolution` decides, on cyclic and on acyclic graphs. */
module Reachability {
  import opened RolloverModel
  import opened Graphs
  import opened Resolution

  /** The least solution of "active, directly reachable, and every dependency reachable". */
  least predicate Usable[nat](w: World, id: Id) {
    w.Healthy(id) && forall next :: next in Successors(w.edges, id) ==> Usable(w, next)
  }

  /** `Usable` solves its equation, and every other solution contains it. */
  lemma UsableIsLeast(w: World, solution: iset<Id>)
    requires forall id :: w.Healthy(id) && (forall next :: next in Successors(w.edges, id) ==> next in solution)
                          ==> id in solution
    ensures forall id :: Usable(w, id) <==>
              w.Healthy(id) && forall next :: next in Successors(w.edges, id) ==> Usable(w, next)
    ensures forall id :: Usable(w, id) ==> id in solution
  {
    forall id | Usable(w, id) ensures id in solution {
      var k: nat :| Usable#[k](w, id);
      UsableInSolution(w, solution, id, k);
    }
  }

  lemma {:induction false} UsableInSolution(w: World, solution: iset<Id>, id: Id, k: nat)
    requires forall x :: w.Healthy(x) && (forall next :: next in Successors(w.edges, x) ==> next in solution)
                         ==> x in solution
    requires Usable#[k](w, id)
    ensures id in solution
    decreases k
  {
    forall next | next in Successors(w.edges, id) ensures next in solution {
      UsableInSolution(w, solution, next, k - 1);
    }
  }

  lemma {:induction false} NoFailureMeansUsable(w: World, id: Id, visiting: set<Id>)
    requires w.FirstFailure(id, visiting).None?
    ensures Usable(w, id)
    decreases w.direct.Keys - visiting, 0
  {
    NoFailureAmongMeansUsable(w, Successors(w.edges, id), visiting + {id});
  }

  lemma {:induction false} NoFailureAmongMeansUsable(w: World, ids: seq<Id>, visiting: set<Id>)
    requires w.FirstFailureAmong(ids, visiting).None?
    ensures forall id :: id in ids ==> Usable(w, id)
    decreases w.direct.Keys - visiting, |ids|
  {
    if ids == [] {
    } else {
      NoFailureMeansUsable(w, ids[0], visiting);
      NoFailureAmongMeansUsable(w, ids[1..], visiting);
    }
  }

  /** A service usable at depth `k` is never blocked by visited services that are not usable at that depth. */
  lemma {:induction false} UsableMeansNoFailure(w: World, id: Id, visiting: set<Id>, k: nat)
    requires Usable#[k](w, id) && forall v :: v in visiting ==> !Usable#[k](w, v)
    ensures w.FirstFailure(id, visiting).None?
    decreases k, 0
  {
    if k == 0 {
    } else {
      forall v | v in visiting ensures !Usable#[k-1](w, v) { UsableMonotone(w, v, k - 1); }
      if Usable#[k-1](w, id) {
        UsableMeansNoFailure(w, id, visiting, k - 1);
      } else {
        UsableAmongMeansNoFailure(w, Successors(w.edges, id), visiting + {id}, k - 1);
      }
    }
  }

  lemma {:induction false} UsableAmongMeansNoFailure(w: World, ids: seq<Id>, visiting: set<Id>, k: nat)
    requires forall id :: id in ids ==> Usable#[k](w, id)
    requires forall v :: v in visiting ==> !Usable#[k](w, v)
    ensures w.FirstFailureAmong(ids, visiting).None?
    decreases k, |ids| + 1
  {
    if ids == [] {
    } else {
      UsableMeansNoFailure(w, ids[0], visiting, k);
      UsableAmongMeansNoFailure(w, ids[1..], visiting, k);
    }
  }

  lemma {:induction false} UsableMonotone(w: World, id: Id, k: nat)
    ensures Usable#[k](w, id) ==> Usable#[k+1](w, id)
    decreases k
  {
    if k == 0 || !Usable#[k](w, id) {
    } else {
      forall next | next in Successors(w.edges, id) ensures Usable#[k](w, next) {
        UsableMonotone(w, next, k - 1);
      }
    }
  }

  /** On every finite graph the search reports reachable exactly the least solution. */
  lemma ReachableIsLeastSolution(w: World, id: Id)
    ensures w.Resolved(id, {}).reachable <==> Usable(w, id)
  {
    w.ResolvedReason(id, {});
    if w.FirstFailure(id, {}).None? {
      NoFailureMeansUsable(w, id, {});
    }
    if Usable(w, id) {
      var k: nat :| Usable#[k](w, id);
      UsableMeansNoFailure(w, id, {}, k);
    }
  }

  /** A failing path: healthy services up to a last one that is blocked. */
  ghost predicate FailsAlong(w: World, id: Id, p: seq<Id>) {
    && IsPath(w.edges, p) && p[0] == id
    && forall i :: 0 <= i < |p| - 1 ==> w.Healthy(p[i])
  }

  /** A true witness: the last service really is absent, inactive or directly unreachable. */
  ghost predicate Witness(w: World, id: Id, p: seq<Id>) {
    FailsAlong(w, id, p) && !w.Healthy(Last(p))
  }

  lemma {:induction false} FailureShape(w: World, id: Id, visiting: set<Id>)
    requires w.FirstFailure(id, visiting).Some?
    ensures var p := w.FirstFailure(id, visiting).value;
            && FailsAlong(w, id, p)
            && (w.Healthy(Last(p)) ==> Last(p) in visiting || exists i :: 0 <= i < |p| - 1 && p[i] == Last(p))
    decreases w.direct.Keys - visiting, 0
  {
    if !w.Healthy(id) || id in visiting {
    } else {
      var tail := w.FirstFailureAmong(Successors(w.edges, id), visiting + {id}).value;
      var next := FailureAmongShape(w, Successors(w.edges, id), visiting + {id});
      FailureShape(w, next, visiting + {id});
      var p := [id] + tail;
      assert p[1..] == tail;
      forall i | 0 <= i < |p| - 1 ensures w.Healthy(p[i]) { assert i > 0 ==> p[i] == tail[i-1]; }
      if w.Healthy(Last(p)) && Last(p) !in visiting && Last(p) != id {
        var i :| 0 <= i < |tail| - 1 && tail[i] == Last(tail);
        assert p[i+1] == Last(p);
      }
    }
  }

  /** The failing dependency: every one listed before it has no failing path. */
  lemma {:induction false} FailureAmongShape(w: World, ids: seq<Id>, visiting: set<Id>) returns (next: Id)
    requires w.FirstFailureAmong(ids, visiting).Some?
    ensures next in ids && w.FirstFailure(next, visiting) == w.FirstFailureAmong(ids, visiting)
    ensures forall j :: 0 <= j < Position(ids, next) ==> w.FirstFailure(ids[j], visiting).None?
    decreases |ids|
  {
    if w.FirstFailure(ids[0], visiting).Some? {
      next := ids[0];
    } else {
      next := FailureAmongShape(w, ids[1..], visiting);
    }
  }

  function Position(ids: seq<Id>, id: Id): (r: nat)
    requires id in ids
    ensures r < |ids| && ids[r] == id
  {
    if ids[0] == id then 0 else 1 + Position(ids[1..], id)
  }

  /** `p` comes no later than `q` when paths are compared hop by hop in dependency-list order. */
  ghost predicate NoLater(g: Edges, p: seq<Id>, q: seq<Id>)
    requires IsPath(g, p) && IsPath(g, q) && p[0] == q[0]
    decreases |p|
  {
    if |p| == 1 || |q| == 1 then |p| == 1
    else if p[1] == q[1] then NoLater(g, p[1..], q[1..])
    else Position(Successors(g, p[0]), p[1]) < Position(Successors(g, p[0]), q[1])
  }

  lemma {:induction false} UsableReachesOnlyHealthy(w: World, p: seq<Id>)
    requires IsPath(w.edges, p) && Usable(w, p[0])
    ensures w.Healthy(Last(p))
  {
    if |p| == 1 {
    } else {
      UsableReachesOnlyHealthy(w, p[1..]);
    }
  }

  /** No witness precedes the one the search reports. */
  lemma {:induction false} FirstWitness(w: World, id: Id, visiting: set<Id>, q: seq<Id>)
    requires w.FirstFailure(id, visiting).Some? && Witness(w, id, q)
    requires !w.Healthy(Last(w.FirstFailure(id, visiting).value))
    ensures FailsAlong(w, id, w.FirstFailure(id, visiting).value)
    ensures NoLater(w.edges, w.FirstFailure(id, visiting).value, q)
    decreases w.direct.Keys - visiting
  {
    FailureShape(w, id, visiting);
    var p := w.FirstFailure(id, visiting).value;
    if |p| == 1 {
    } else {
      assert |q| > 1;
      var deps := Successors(w.edges, id);
      var next := FailureAmongShape(w, deps, visiting + {id});
      assert p[1..] == w.FirstFailure(next, visiting + {id}).value;
      if q[1] == next {
        assert forall i :: 0 <= i < |q[1..]| - 1 ==> q[1..][i] == q[i+1];
        FirstWitness(w, next, visiting + {id}, q[1..]);
      } else if Position(deps, q[1]) < Position(deps, next) {
        NoFailureMeansUsable(w, q[1], visiting + {id});
        UsableReachesOnlyHealthy(w, q[1..]);
      }
    }
  }

  /**
   In an acyclic graph an unreachable service has a true witness path without repetition, and the
   reported path is the first of them.
   */
  lemma UnreachableHasFirstWitness(w: World, id: Id)
    requires Acyclic(w.edges) && !w.Resolved(id, {}).reachable
    ensures w.FirstFailure(id, {}).Some?
    ensures var p := w.FirstFailure(id, {}).value;
            && Witness(w, id, p) && Distinct(p)
            && forall q :: Witness(w, id, q) ==> NoLater(w.edges, p, q)
  {
    w.ResolvedReason(id, {});
    FailureShape(w, id, {});
    var p := w.FirstFailure(id, {}).value;
    AcyclicPathsAreSimple(w.edges, p);
    forall q | Witness(w, id, q) ensures NoLater(w.edges, p, q) {
      FirstWitness(w, id, {}, q);
    }
  }

  /** In an acyclic graph "reachable" means: everything in the dependency closure is healthy. */
  lemma ReachableMeansHealthyClosure(w: World, id: Id)
    requires Acyclic(w.edges)
    ensures w.Resolved(id, {}).reachable <==>
            forall p :: IsPath(w.edges, p) && p[0] == id ==> w.Healthy(Last(p))
  {
    if w.Resolved(id, {}).reachable {
      ReachableIsLeastSolution(w, id);
      forall p | IsPath(w.edges, p) && p[0] == id ensures w.Healthy(Last(p)) {
        UsableReachesOnlyHealthy(w, p);
      }
    } else {
      UnreachableHasFirstWitness(w, id);
    }
  }
}
