/** Directed graphs given by adjacency lists; a list may name nodes that have no list of their own. */
module Graphs {
  import opened RolloverModel

  type Edges = map<Id, seq<Id>>

  function Successors(g: Edges, id: Id): seq<Id> {
    if id in g then g[id] else []
  }

  function Nodes(g: Edges): set<Id> {
    g.Keys + set id, next | id in g && next in g[id] :: next
  }

  ghost predicate Covers(g: Edges, nodes: set<Id>) {
    g.Keys <= nodes && forall id, next {:trigger next in Successors(g, id)} :: next in Successors(g, id) ==> next in nodes
  }

  ghost predicate IsPath(g: Edges, p: seq<Id>) {
    p != [] && (|p| > 1 ==> p[1] in Successors(g, p[0]) && IsPath(g, p[1..]))
  }

  function Last(p: seq<Id>): Id
    requires p != []
  {
    p[|p|-1]
  }

  ghost predicate IsCycle(g: Edges, p: seq<Id>) {
    IsPath(g, p) && |p| >= 2 && p[0] == Last(p)
  }

  ghost predicate Acyclic(g: Edges) {
    forall p :: !IsCycle(g, p)
  }

  /** Every edge leads to a node that has an adjacency list. */
  ghost predicate Closed(g: Edges) {
    forall id, next {:trigger next in Successors(g, id)} :: next in Successors(g, id) ==> next in g
  }

  ghost predicate Distinct(p: seq<Id>) {
    forall i, j :: 0 <= i < j < |p| ==> p[i] != p[j]
  }

  lemma {:induction false} PathSlice(g: Edges, p: seq<Id>, from: nat, to: nat)
    requires IsPath(g, p) && from < to <= |p|
    ensures IsPath(g, p[from..to])
  {
    if from > 0 {
      PathSlice(g, p[1..], from - 1, to - 1);
      assert p[1..][from-1..to-1] == p[from..to];
    } else if to > 1 {
      PathSlice(g, p[1..], 0, to - 1);
      assert p[0..to][1..] == p[1..][0..to-1];
    }
  }

  lemma {:induction false} PathAppend(g: Edges, p: seq<Id>, id: Id)
    requires IsPath(g, p) && id in Successors(g, Last(p))
    ensures IsPath(g, p + [id])
  {
    if |p| == 1 {
    } else {
      PathAppend(g, p[1..], id);
    }
    assert (p + [id])[1..] == p[1..] + [id];
  }

  /** In an acyclic graph no path visits a node twice. */
  lemma AcyclicPathsAreSimple(g: Edges, p: seq<Id>)
    requires Acyclic(g) && IsPath(g, p)
    ensures Distinct(p)
  {
    forall i, j | 0 <= i < j < |p| ensures p[i] != p[j] {
      PathSlice(g, p, i, j + 1);
      assert !IsCycle(g, p[i..j+1]);
    }
  }

  /** A ranking of some nodes under which every edge out of a ranked node leads to a lower rank. */
  ghost predicate Ranked(g: Edges, rank: map<Id, nat>) {
    forall id, next {:trigger next in Successors(g, id)} :: id in rank && next in Successors(g, id) ==> next in rank && rank[next] < rank[id]
  }

  lemma {:induction false} PathsDescend(g: Edges, rank: map<Id, nat>, p: seq<Id>)
    requires Ranked(g, rank) && IsPath(g, p) && |p| >= 2 && p[0] in rank
    ensures Last(p) in rank && rank[Last(p)] < rank[p[0]]
  {
    assert p[1] in Successors(g, p[0]);
    if |p| == 2 {
    } else {
      PathsDescend(g, rank, p[1..]);
    }
  }

  lemma RankedImpliesAcyclic(g: Edges, rank: map<Id, nat>)
    requires Ranked(g, rank) && g.Keys <= rank.Keys
    ensures Acyclic(g)
  {
    forall p | IsCycle(g, p) ensures false {
      assert p[1] in Successors(g, p[0]);
      PathsDescend(g, rank, p);
    }
  }
}
