/** Depth-first search over the live nodes of a graph: the cycle test and the topological sort. */
module DepthFirst {
  import opened Paths

  /** The targets of the edges out of `i`, the newest edge first. */
  function Successors(edges: seq<Edge>, i: nat): (s: seq<nat>)
    ensures forall v :: v in s <==> Edge(i, v) in edges
  {
    if edges == [] then []
    else
      var last := edges[|edges| - 1];
      var rest := Successors(edges[..|edges| - 1], i);
      assert edges == edges[..|edges| - 1] + [last];
      if last.from == i then [last.to] + rest else rest
  }

  /** The sources of the edges into `i`, the newest edge first. */
  function Predecessors(edges: seq<Edge>, i: nat): (s: seq<nat>)
    ensures forall u :: u in s <==> Edge(u, i) in edges
  {
    if edges == [] then []
    else
      var last := edges[|edges| - 1];
      var rest := Predecessors(edges[..|edges| - 1], i);
      assert edges == edges[..|edges| - 1] + [last];
      if last.to == i then [last.from] + rest else rest
  }

  /** No node repeats, and every edge out of a listed node leads to an earlier one. */
  ghost predicate Finished(edges: seq<Edge>, done: seq<nat>) {
    && (forall i, j :: 0 <= i < j < |done| ==> done[i] != done[j])
    && (forall i, v :: 0 <= i < |done| && Edge(done[i], v) in edges ==> v in done[..i])
  }

  class Search {
    const edges: seq<Edge>
    var discovered: set<nat>
    var done: seq<nat> // nodes in the order in which they are finished

    constructor (edges: seq<Edge>)
      ensures this.edges == edges && discovered == {} && done == []
    {
      this.edges := edges;
      discovered, done := {}, [];
    }

    /** The nodes on the stack are exactly those discovered and not done. */
    ghost predicate Valid(stack: seq<nat>)
      reads this
    {
      && Finished(edges, done)
      && (forall v :: v in discovered <==> v in done || v in stack)
      && (forall v :: v in stack ==> v !in done)
    }

    /** Visits everything reachable from `u`; reports an edge back to the stack. */
    method Visit(u: nat, ghost stack: seq<nat>, ghost nodes: set<nat>) returns (cyclic: bool)
      requires Valid(stack) && u !in discovered
      requires IsPath(edges, stack + [u])
      requires u in nodes && forall e :: e in edges ==> e.to in nodes
      modifies this
      ensures cyclic ==> !Acyclic(edges)
      ensures !cyclic ==> Valid(stack) && u in done && old(done) <= done && old(discovered) <= discovered
      ensures !cyclic ==> forall v :: v in discovered ==> v in old(discovered) || v in nodes
      decreases nodes - discovered
    {
      discovered := discovered + {u};
      ghost var path := stack + [u];
      var next := Successors(edges, u);
      for k := 0 to |next|
        invariant Valid(path)
        invariant old(done) <= done && old(discovered) + {u} <= discovered
        invariant forall v :: v in discovered ==> v in old(discovered) || v in nodes
        invariant forall j :: 0 <= j < k ==> next[j] in done
      {
        var v := next[k];
        if v !in discovered {
          assert IsPath(edges, path + [v]) by {
            assert Edge(u, v) in edges;
            assert forall i :: 0 <= i < |path| - 1 ==> (path + [v])[i] == path[i];
          }
          var back := Visit(v, path, nodes);
          if back {
            return true;
          }
        } else if v !in done {
          BackEdge(edges, path, v);
          return true;
        }
      }
      FinishOne(edges, done, u);
      done := done + [u];
      return false;
    }
  }

  lemma FinishOne(edges: seq<Edge>, done: seq<nat>, u: nat)
    requires Finished(edges, done) && u !in done
    requires forall v :: Edge(u, v) in edges ==> v in done
    ensures Finished(edges, done + [u])
  {
    var longer := done + [u];
    forall i, v | 0 <= i < |longer| && Edge(longer[i], v) in edges
      ensures v in longer[..i]
    {
      assert longer[..i] == done[..i];
      if i == |done| {
        assert done[..i] == done;
      }
    }
  }

  lemma BackEdge(edges: seq<Edge>, path: seq<nat>, v: nat)
    requires IsPath(edges, path) && v in path && Edge(path[|path| - 1], v) in edges
    ensures !Acyclic(edges)
  {
    var i :| 0 <= i < |path| && path[i] == v;
    var q := path[i..];
    assert forall k :: 0 <= k < |q| ==> q[k] == path[i + k];
    assert IsPath(edges, q);
    EdgeAndReturnIsCycle(edges, path[|path| - 1], v);
  }

  function Reversed(s: seq<nat>): (r: seq<nat>)
    ensures |r| == |s| && forall i :: 0 <= i < |s| ==> r[i] == s[|s| - 1 - i]
    ensures forall x :: x in r <==> x in s
  {
    if s == [] then [] else
      assert s == [s[0]] + s[1..];
      Reversed(s[1..]) + [s[0]]
  }

  /** Searches from every node in turn. Without a cycle, the reversed finishing order is
      topological; with one, there is no such order. */
  method TopologicalOrder(edges: seq<Edge>, nodes: seq<nat>) returns (cyclic: bool, order: seq<nat>)
    requires forall e :: e in edges ==> e.from in nodes && e.to in nodes
    ensures cyclic <==> !Acyclic(edges)
    ensures !cyclic ==> Ordered(edges, order) && forall v :: v in order <==> v in nodes
  {
    var search := new Search(edges);
    ghost var all := set v | v in nodes;
    for k := 0 to |nodes|
      invariant search.edges == edges && search.Valid([])
      invariant forall v :: v in search.discovered ==> v in all
      invariant forall j :: 0 <= j < k ==> nodes[j] in search.done
    {
      if nodes[k] !in search.discovered {
        assert IsPath(edges, [] + [nodes[k]]);
        var back := search.Visit(nodes[k], [], all);
        if back {
          return true, [];
        }
      }
    }
    order := Reversed(search.done);
    FinishedIsOrdered(edges, search.done, nodes);
    OrderedIsAcyclic(edges, order);
    return false, order;
  }

  lemma FinishedIsOrdered(edges: seq<Edge>, done: seq<nat>, nodes: seq<nat>)
    requires Finished(edges, done)
    requires forall e :: e in edges ==> e.from in nodes && e.to in nodes
    requires forall v :: v in nodes ==> v in done
    ensures Ordered(edges, Reversed(done))
  {
    var order := Reversed(done);
    forall i, j | 0 <= i < j < |order|
      ensures order[i] != order[j]
    {
      assert done[|done| - 1 - j] != done[|done| - 1 - i];
    }
    forall i, j | 0 <= i < |order| && 0 <= j < |order| && Edge(order[i], order[j]) in edges
      ensures i < j
    {
      var x, y := |done| - 1 - i, |done| - 1 - j;
      assert done[x] == order[i] && done[y] == order[j];
      assert done[y] in done[..x];
      var k :| 0 <= k < x && done[k] == done[y];
    }
  }
}
