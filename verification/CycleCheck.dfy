/**
 The three-colour depth-first cycle check. The simulator's `detectCycle` follows edges to nodes
 that do not exist; the services' `servicesContainCycle` is the same walk with one more test.
 */
module CycleCheck {
  import opened RolloverModel
  import opened Graphs

  datatype GraphError = CycleAt(id: Id) | MissingTarget(id: Id)

  /** What a reported error promises about the graph. */
  ghost predicate Justified(g: Edges, requireTargets: bool, error: GraphError) {
    match error
    case CycleAt(id) => exists p :: IsCycle(g, p) && p[0] == id
    case MissingTarget(id) => requireTargets && id !in g && exists from :: id in Successors(g, from)
  }

  lemma JustifiedMeansRejected(g: Edges, requireTargets: bool, error: GraphError)
    requires Justified(g, requireTargets, error)
    ensures !(Acyclic(g) && (requireTargets ==> Closed(g)))
  {
    if error.MissingTarget? {
      var from :| error.id in Successors(g, from);
    }
  }

  const IN_PROGRESS := 1
  const DONE := 2

  /** The in-progress nodes are the current stack, a path; finished nodes outrank their successors. */
  ghost predicate Coloured(
    g: Edges, requireTargets: bool, state: map<Id, int>, rank: map<Id, nat>, clock: nat, stack: seq<Id>)
  {
    && (forall id :: id in state ==> state[id] == IN_PROGRESS || state[id] == DONE)
    && (forall id :: id in stack <==> id in state && state[id] == IN_PROGRESS)
    && (forall id :: id in rank <==> id in state && state[id] == DONE)
    && (forall id :: id in rank ==> rank[id] < clock)
    && (stack != [] ==> IsPath(g, stack))
    && Ranked(g, rank)
    && (requireTargets ==> rank.Keys <= g.Keys)
  }

  lemma ColourOf(g: Edges, requireTargets: bool, state: map<Id, int>, rank: map<Id, nat>, clock: nat, stack: seq<Id>, id: Id)
    requires Coloured(g, requireTargets, state, rank, clock, stack)
    ensures id in stack <==> id in state && state[id] == IN_PROGRESS
    ensures id in rank <==> id in state && state[id] == DONE
    ensures id in state ==> state[id] == IN_PROGRESS || state[id] == DONE
    ensures stack != [] ==> IsPath(g, stack)
  {
  }

  lemma Push(g: Edges, requireTargets: bool, state: map<Id, int>, rank: map<Id, nat>, clock: nat, stack: seq<Id>, id: Id)
    requires Coloured(g, requireTargets, state, rank, clock, stack) && id !in state
    requires if stack == [] then id in g else id in Successors(g, Last(stack))
    ensures Coloured(g, requireTargets, state[id := IN_PROGRESS], rank, clock, stack + [id])
  {
    if stack != [] { PathAppend(g, stack, id); }
  }

  lemma RankNext(g: Edges, rank: map<Id, nat>, clock: nat, id: Id)
    requires Ranked(g, rank) && id !in rank && forall x :: x in rank ==> rank[x] < clock
    requires forall next :: next in Successors(g, id) ==> next in rank
    ensures Ranked(g, rank[id := clock])
  {
  }

  lemma Pop(g: Edges, requireTargets: bool, state: map<Id, int>, rank: map<Id, nat>, clock: nat, stack: seq<Id>, id: Id)
    requires Coloured(g, requireTargets, state, rank, clock, stack + [id]) && id !in stack
    requires forall next :: next in Successors(g, id) ==> next in rank
    requires requireTargets ==> id in g
    ensures Coloured(g, requireTargets, state[id := DONE], rank[id := clock], clock + 1, stack)
  {
    hide IsPath;
    hide Ranked;
    var path := stack + [id];
    assert path[|stack|] == id;
    RankNext(g, rank, clock, id);
    assert forall x :: x in path <==> x in stack || x == id;
    if stack != [] {
      PathSlice(g, path, 0, |stack|);
      assert path[0..|stack|] == stack;
    }
  }

  lemma BackEdge(g: Edges, requireTargets: bool, stack: seq<Id>, id: Id)
    requires IsPath(g, stack) && id in stack && id in Successors(g, Last(stack))
    ensures Justified(g, requireTargets, CycleAt(id))
  {
    hide IsPath;
    var i :| 0 <= i < |stack| && stack[i] == id;
    PathSlice(g, stack, i, |stack|);
    var loop := stack[i..|stack|];
    assert Last(loop) == Last(stack);
    PathAppend(g, loop, id);
    assert IsCycle(g, loop + [id]);
  }

  lemma AbsentTarget(g: Edges, target: Id, from: Id)
    requires target !in g && target in Successors(g, from)
    ensures Justified(g, true, MissingTarget(target))
  {
  }

  class Walk {
    const edges: Edges
    const requireTargets: bool
    ghost const nodes: set<Id>
    var state: map<Id, int>
    /** For each finished node, the moment at which it was finished. */
    ghost var rank: map<Id, nat>
    ghost var clock: nat

    constructor (edges: Edges, requireTargets: bool)
      ensures this.edges == edges && this.requireTargets == requireTargets
      ensures Covers(edges, nodes) && Valid([])
    {
      this.edges := edges;
      nodes := Nodes(edges);
      this.requireTargets := requireTargets;
      state := map[];
      rank := map[];
      clock := 0;
    }

    ghost predicate Valid(stack: seq<Id>)
      reads this
    {
      && Coloured(edges, requireTargets, state, rank, clock, stack)
      && state.Keys <= nodes
    }

    method Visit(id: Id, ghost stack: seq<Id>) returns (error: Option<GraphError>)
      requires Valid(stack)
      requires if stack == [] then id in edges else id in Successors(edges, Last(stack))
      requires Covers(edges, nodes) && (requireTargets ==> id in edges)
      modifies this
      ensures error.Some? ==> Justified(edges, requireTargets, error.value)
      ensures error.None? ==> Valid(stack) && id in rank
      ensures old(rank.Keys) <= rank.Keys && old(state.Keys) <= state.Keys
      decreases nodes - state.Keys
    {
      hide Coloured;
      hide Justified;
      ColourOf(edges, requireTargets, state, rank, clock, stack, id);
      if id in state && state[id] == IN_PROGRESS {
        BackEdge(edges, requireTargets, stack, id);
        return Some(CycleAt(id));
      }
      if id in state && state[id] == DONE {
        return None;
      }
      Push(edges, requireTargets, state, rank, clock, stack, id);
      state := state[id := IN_PROGRESS];
      ghost var path := stack + [id];
      ghost var settled: set<Id> := {};
      var successors := Successors(edges, id);
      for i := 0 to |successors|
        invariant Valid(path)
        invariant settled <= rank.Keys
        invariant forall j :: 0 <= j < i ==> successors[j] in settled
        invariant old(rank.Keys) <= rank.Keys
        invariant old(state.Keys) + {id} <= state.Keys
      {
        if requireTargets && successors[i] !in edges {
          AbsentTarget(edges, successors[i], id);
          return Some(MissingTarget(successors[i]));
        }
        var nested := Visit(successors[i], path);
        if nested.Some? {
          return nested;
        }
        settled := settled + {successors[i]};
      }
      ColourOf(edges, requireTargets, state, rank, clock, path, id);
      Pop(edges, requireTargets, state, rank, clock, stack, id);
      state := state[id := DONE];
      rank, clock := rank[id := clock], clock + 1;
      return None;
    }

    /** Visits every node; the order in which Go iterates over the map is arbitrary. */
    method VisitAll() returns (error: Option<GraphError>)
      requires Valid([]) && Covers(edges, nodes)
      modifies this
      ensures error.Some? ==> Justified(edges, requireTargets, error.value)
      ensures error.None? <==> Acyclic(edges) && (requireTargets ==> Closed(edges))
    {
      var remaining := edges.Keys;
      while remaining != {}
        invariant Valid([])
        invariant remaining <= edges.Keys
        invariant forall id :: id in edges && id !in remaining ==> id in rank
      {
        var id :| id in remaining;
        error := Visit(id, []);
        if error.Some? {
          JustifiedMeansRejected(edges, requireTargets, error.value);
          return;
        }
        remaining := remaining - {id};
      }
      RankedImpliesAcyclic(edges, rank);
      return None;
    }
  }

  /** The adjacency map of a snapshot; a repeated identifier keeps its last entry. */
  function EdgesOf(services: seq<ServiceSnapshot>): Edges {
    if services == [] then map[]
    else
      var last := services[|services|-1];
      EdgesOf(services[..|services|-1])[last.id := last.dependencyIds]
  }

  method DetectCycle(services: seq<ServiceSnapshot>) returns (error: Option<GraphError>)
    ensures error.None? <==> Acyclic(EdgesOf(services))
    ensures error.Some? ==> error.value.CycleAt? && Justified(EdgesOf(services), false, error.value)
  {
    var edges: Edges := map[];
    for i := 0 to |services|
      invariant edges == EdgesOf(services[..i])
    {
      assert services[..i+1][..i] == services[..i];
      edges := edges[services[i].id := services[i].dependencyIds];
    }
    assert services[..|services|] == services;
    var walk := new Walk(edges, false);
    error := walk.VisitAll();
  }
}
