/** Paths in a directed graph given by its list of edges, in insertion order. */
module Paths {
  datatype Edge = Edge(from: nat, to: nat)

  ghost predicate IsPath(edges: seq<Edge>, p: seq<nat>) {
    |p| > 0 && forall i :: 0 <= i < |p| - 1 ==> Edge(p[i], p[i + 1]) in edges
  }

  /** A path of any length, also of length zero. */
  ghost predicate Reaches(edges: seq<Edge>, a: nat, b: nat) {
    exists p :: IsPath(edges, p) && p[0] == a && p[|p| - 1] == b
  }

  /** No path of at least one edge returns to its start. */
  ghost predicate Acyclic(edges: seq<Edge>) {
    forall p :: IsPath(edges, p) && |p| > 1 ==> p[0] != p[|p| - 1]
  }

  /** `order` lists its nodes once each and every edge among them points forward. */
  ghost predicate Ordered(edges: seq<Edge>, order: seq<nat>) {
    && (forall i, j :: 0 <= i < j < |order| ==> order[i] != order[j])
    && (forall e :: e in edges ==> e.from in order && e.to in order)
    && (forall i, j :: 0 <= i < |order| && 0 <= j < |order| && Edge(order[i], order[j]) in edges ==> i < j)
  }

  lemma JoinPaths(edges: seq<Edge>, p: seq<nat>, q: seq<nat>)
    requires IsPath(edges, p) && IsPath(edges, q) && p[|p| - 1] == q[0]
    ensures IsPath(edges, p + q[1..])
    ensures (p + q[1..])[0] == p[0] && (p + q[1..])[|p + q[1..]| - 1] == q[|q| - 1]
  {
    var r := p + q[1..];
    forall i | 0 <= i < |r| - 1
      ensures Edge(r[i], r[i + 1]) in edges
    {
      if i >= |p| - 1 {
        assert r[i] == q[i - (|p| - 1)];
      }
    }
  }

  lemma ReachesTransitively(edges: seq<Edge>, a: nat, b: nat, c: nat)
    requires Reaches(edges, a, b) && Reaches(edges, b, c)
    ensures Reaches(edges, a, c)
  {
    var p :| IsPath(edges, p) && p[0] == a && p[|p| - 1] == b;
    var q :| IsPath(edges, q) && q[0] == b && q[|q| - 1] == c;
    JoinPaths(edges, p, q);
  }

  lemma ReachesItself(edges: seq<Edge>, a: nat)
    ensures Reaches(edges, a, a)
  {
    assert IsPath(edges, [a]);
  }

  lemma EdgeThenReaches(edges: seq<Edge>, a: nat, b: nat, c: nat)
    requires Edge(a, b) in edges && Reaches(edges, b, c)
    ensures Reaches(edges, a, c)
  {
    var p :| IsPath(edges, p) && p[0] == b && p[|p| - 1] == c;
    assert IsPath(edges, [a, b]);
    JoinPaths(edges, [a, b], p);
  }

  /** A closed walk is an edge followed by a path back. */
  lemma EdgeAndReturnIsCycle(edges: seq<Edge>, a: nat, b: nat)
    requires Edge(a, b) in edges && Reaches(edges, b, a)
    ensures !Acyclic(edges)
  {
    var p :| IsPath(edges, p) && p[0] == b && p[|p| - 1] == a;
    assert IsPath(edges, [a, b]);
    JoinPaths(edges, [a, b], p);
    var c := [a, b] + p[1..];
    assert |c| > 1 && c[0] == c[|c| - 1];
  }

  /** Along a path of an ordered graph the positions grow. */
  lemma {:induction false} OrderedPathsAdvance(edges: seq<Edge>, order: seq<nat>, p: seq<nat>, i: nat, j: nat)
    requires Ordered(edges, order) && IsPath(edges, p) && |p| > 1
    requires i < |order| && j < |order| && p[0] == order[i] && p[|p| - 1] == order[j]
    ensures i < j
  {
    assert Edge(p[0], p[1]) in edges;
    var k :| 0 <= k < |order| && order[k] == p[1];
    if |p| > 2 {
      assert IsPath(edges, p[1..]);
      OrderedPathsAdvance(edges, order, p[1..], k, j);
    } else {
      assert k == j;
    }
  }

  lemma OrderedIsAcyclic(edges: seq<Edge>, order: seq<nat>)
    requires Ordered(edges, order)
    ensures Acyclic(edges)
  {
    forall p | IsPath(edges, p) && |p| > 1
      ensures p[0] != p[|p| - 1]
    {
      assert Edge(p[0], p[1]) in edges && Edge(p[|p| - 2], p[|p| - 1]) in edges;
      var i :| 0 <= i < |order| && order[i] == p[0];
      var j :| 0 <= j < |order| && order[j] == p[|p| - 1];
      OrderedPathsAdvance(edges, order, p, i, j);
    }
  }

  /** A path of the graph with one more edge avoids that edge or runs up to it and on from it. */
  lemma {:induction false} PathWithNewEdge(edges: seq<Edge>, e: Edge, p: seq<nat>)
    requires IsPath(edges + [e], p)
    ensures IsPath(edges, p) || (Reaches(edges, p[0], e.from) && Reaches(edges, e.to, p[|p| - 1]))
  {
    if |p| > 1 {
      var rest := p[1..];
      assert IsPath(edges + [e], rest);
      PathWithNewEdge(edges, e, rest);
      if Edge(p[0], p[1]) in edges {
        if IsPath(edges, rest) {
          assert IsPath(edges, p);
        } else {
          EdgeThenReaches(edges, p[0], p[1], e.from);
        }
      } else {
        assert Edge(p[0], p[1]) == e;
        ReachesItself(edges, e.from);
        if IsPath(edges, rest) {
          assert Reaches(edges, e.to, p[|p| - 1]);
        }
      }
    }
  }

  /** Adding an edge to an acyclic graph closes a cycle exactly when its end reaches its start. */
  lemma NewEdgeCycle(edges: seq<Edge>, e: Edge)
    requires Acyclic(edges)
    ensures Acyclic(edges + [e]) <==> !Reaches(edges, e.to, e.from)
  {
    if Reaches(edges, e.to, e.from) {
      var p :| IsPath(edges, p) && p[0] == e.to && p[|p| - 1] == e.from;
      assert IsPath(edges + [e], p);
      EdgeAndReturnIsCycle(edges + [e], e.from, e.to);
    } else if !Acyclic(edges + [e]) {
      var c :| IsPath(edges + [e], c) && |c| > 1 && c[0] == c[|c| - 1];
      PathWithNewEdge(edges, e, c);
      if !IsPath(edges, c) {
        ReachesTransitively(edges, e.to, c[0], e.from);
      }
    }
  }

  lemma FewerEdgesStayAcyclic(edges: seq<Edge>, fewer: seq<Edge>)
    requires Acyclic(edges) && forall e :: e in fewer ==> e in edges
    ensures Acyclic(fewer)
  {
    forall p | IsPath(fewer, p) && |p| > 1
      ensures p[0] != p[|p| - 1]
    {
      assert IsPath(edges, p);
    }
  }

  // ----- Paths in a finite graph -----

  lemma {:induction false} DistinctFit(p: seq<nat>, nodes: set<nat>)
    requires forall i, j :: 0 <= i < j < |p| ==> p[i] != p[j]
    requires forall x :: x in p ==> x in nodes
    ensures |p| <= |nodes|
  {
    if p != [] {
      DistinctFit(p[1..], nodes - {p[0]});
    }
  }

  /** A path of an acyclic graph visits no node twice, so it is no longer than the node set. */
  lemma AcyclicPathsAreShort(edges: seq<Edge>, nodes: set<nat>, p: seq<nat>)
    requires Acyclic(edges) && IsPath(edges, p)
    requires forall x :: x in p ==> x in nodes
    ensures |p| <= |nodes|
  {
    forall i, j | 0 <= i < j < |p|
      ensures p[i] != p[j]
    {
      var q := p[i..j + 1];
      assert forall k :: 0 <= k < |q| ==> q[k] == p[i + k];
      assert IsPath(edges, q);
    }
    DistinctFit(p, nodes);
  }
}
