/** The DAG engine: nodes in stable slots, edges, and the lifecycle of a node. */
module Dag {
  import opened DepthFirst
  import opened Paths
  import opened Wrappers
  import Json

  type Payload = Json.Value

  datatype Status = Pending | Running | Completed | Failed | Skipped
  {
    predicate Terminal() { Completed? || Failed? || Skipped? }
  }

  datatype Node = Node(name: string, status: Status, claimedBy: Option<nat>,
                       inputs: Payload, outputs: Payload, errorMessage: Option<string>)

  function FreshNode(name: string, inputs: Payload): Node {
    Node(name, Pending, None, inputs, Json.Null, None)
  }

  datatype Error =
    | CycleDetected(from: nat, to: nat)
    | NodeNotFound(index: nat)
    | InvalidState(current: Status, expected: Status)
    | AlreadyClaimed(node: nat, byPid: nat)

  // ----- One node's lifecycle -----

  function ClaimNode(index: nat, n: Node, pid: nat): Result<Node, Error> {
    if n.claimedBy.Some? then
      if n.claimedBy.value != pid then Err(AlreadyClaimed(index, n.claimedBy.value)) else Ok(n)
    else if n.status != Pending then Err(InvalidState(n.status, Pending))
    else Ok(n.(claimedBy := Some(pid), status := Running))
  }

  function ReleaseNode(n: Node): Node {
    n.(claimedBy := None, status := if n.status == Running then Pending else n.status)
  }

  function CompleteNode(n: Node, output: Payload): Result<Node, Error> {
    if n.status == Completed then Ok(n)
    else if n.status != Running then Err(InvalidState(n.status, Running))
    else Ok(n.(status := Completed, outputs := output, claimedBy := None, errorMessage := None))
  }

  function FailNode(n: Node, message: string): Node {
    n.(status := Failed, errorMessage := Some(message), claimedBy := None)
  }

  function SkipNode(n: Node): Node {
    n.(status := Skipped, claimedBy := None)
  }

  // ----- The graph as a value -----

  /** `vacant` is the stack of removed slots, which new nodes reuse from the top. */
  datatype Graph = Graph(slots: seq<Option<Node>>, vacant: seq<nat>, edges: seq<Edge>)
  {
    predicate Has(i: nat) { i < |slots| && slots[i].Some? }

    function At(i: nat): Node
      requires Has(i)
    {
      slots[i].value
    }

    function Put(i: nat, n: Node): (g: Graph)
      requires Has(i)
      ensures g.Has(i) && g.At(i) == n
      ensures forall j :: g.Has(j) <==> Has(j)
      ensures forall j :: Has(j) && j != i ==> g.At(j) == At(j)
    {
      this.(slots := slots[i := Some(n)])
    }

    /** Structure: vacant slots are empty and distinct, edges join live nodes, no cycle. */
    ghost predicate Valid() {
      && (forall v :: v in vacant ==> v < |slots| && slots[v].None?)
      && (forall v :: 0 <= v < |slots| && slots[v].None? ==> v in vacant)
      && (forall a, b :: 0 <= a < b < |vacant| ==> vacant[a] != vacant[b])
      && (forall e :: e in edges ==> Has(e.from) && Has(e.to))
      && Acyclic(edges)
    }

    /** Pending, with every predecessor Completed. */
    ghost predicate Ready(i: nat) {
      && Has(i) && At(i).status == Pending
      && forall p :: Edge(p, i) in edges ==> Has(p) && At(p).status == Completed
    }

    /** The live indices, ascending. */
    function Live(): (s: seq<nat>)
      ensures forall i: nat :: i in s <==> Has(i)
    {
      LiveBelow(|slots|)
    }

    function LiveBelow(n: nat): (s: seq<nat>)
      requires n <= |slots|
      ensures forall i: nat :: i in s <==> i < n && Has(i)
    {
      if n == 0 then [] else if Has(n - 1) then LiveBelow(n - 1) + [n - 1] else LiveBelow(n - 1)
    }
  }

  const EMPTY := Graph([], [], [])

  // ----- What each operation does to the graph -----

  /** The index the next node gets: the slot vacated last, or a new one. */
  function NextIndex(g: Graph): nat {
    if g.vacant == [] then |g.slots| else g.vacant[|g.vacant| - 1]
  }

  ghost function AfterAddNode(g: Graph, n: Node): Graph
    requires g.Valid()
  {
    assert g.vacant != [] ==> NextIndex(g) in g.vacant;
    if g.vacant == [] then g.(slots := g.slots + [Some(n)])
    else g.(slots := g.slots[NextIndex(g) := Some(n)], vacant := g.vacant[..|g.vacant| - 1])
  }

  /** Edges that do not touch `i`, in their order. */
  function WithoutNode(edges: seq<Edge>, i: nat): (rest: seq<Edge>)
    ensures forall e :: e in rest <==> e in edges && e.from != i && e.to != i
  {
    if edges == [] then []
    else
      assert edges == [edges[0]] + edges[1..];
      if edges[0].from == i || edges[0].to == i then WithoutNode(edges[1..], i)
      else [edges[0]] + WithoutNode(edges[1..], i)
  }

  function AfterRemoveNode(g: Graph, i: nat): Graph {
    if !g.Has(i) then g
    else Graph(g.slots[i := None], g.vacant + [i], WithoutNode(g.edges, i))
  }

  /** Why `add_edge` refuses an edge, or None. */
  ghost function EdgeRefusal(g: Graph, from: nat, to: nat): Option<Error> {
    if from == to then Some(CycleDetected(from, to))
    else if !g.Has(from) then Some(NodeNotFound(from))
    else if !g.Has(to) then Some(NodeNotFound(to))
    else if Reaches(g.edges, to, from) then Some(CycleDetected(from, to))
    else None
  }

  ghost function AfterAddEdge(g: Graph, from: nat, to: nat): Graph {
    if EdgeRefusal(g, from, to).None? then g.(edges := g.edges + [Edge(from, to)]) else g
  }

  function ClaimResult(g: Graph, i: nat, pid: nat): Result<Node, Error> {
    if !g.Has(i) then Err(NodeNotFound(i)) else ClaimNode(i, g.At(i), pid)
  }

  function CompleteResult(g: Graph, i: nat, output: Payload): Result<Node, Error> {
    if !g.Has(i) then Err(NodeNotFound(i)) else CompleteNode(g.At(i), output)
  }

  function AfterClaim(g: Graph, i: nat, pid: nat): Graph {
    var r := ClaimResult(g, i, pid);
    if r.Ok? then g.Put(i, r.value) else g
  }

  function AfterComplete(g: Graph, i: nat, output: Payload): Graph {
    var r := CompleteResult(g, i, output);
    if r.Ok? then g.Put(i, r.value) else g
  }

  function AfterRelease(g: Graph, i: nat): Graph {
    if g.Has(i) then g.Put(i, ReleaseNode(g.At(i))) else g
  }

  function AfterFail(g: Graph, i: nat, message: string): Graph {
    if g.Has(i) then g.Put(i, FailNode(g.At(i), message)) else g
  }

  function AfterSkip(g: Graph, i: nat): Graph {
    if g.Has(i) then g.Put(i, SkipNode(g.At(i))) else g
  }

  /** The first edge equal to `e` is taken out: among parallel edges, the oldest. */
  function RemoveOldest(edges: seq<Edge>, e: Edge): seq<Edge> {
    if edges == [] then []
    else if edges[0] == e then edges[1..]
    else [edges[0]] + RemoveOldest(edges[1..], e)
  }

  lemma {:induction false} RemoveOnlyOccurrence(edges: seq<Edge>, e: Edge)
    requires e !in edges
    ensures RemoveOldest(edges + [e], e) == edges
  {
    if edges != [] {
      assert (edges + [e])[1..] == edges[1..] + [e];
      RemoveOnlyOccurrence(edges[1..], e);
    }
  }

  /** When the tentative edge closes a cycle there was no parallel edge before it, so the rollback
      that removes the oldest edge between the two nodes removes the tentative one. */
  lemma RollbackIsExact(edges: seq<Edge>, e: Edge)
    requires Acyclic(edges) && !Acyclic(edges + [e])
    ensures RemoveOldest(edges + [e], e) == edges
  {
    NewEdgeCycle(edges, e);
    if e in edges {
      EdgeAndReturnIsCycle(edges, e.from, e.to);
    }
    RemoveOnlyOccurrence(edges, e);
  }

  /** The node first in some topological order among the ready ones. */
  ghost predicate FirstReady(g: Graph, i: nat) {
    exists order, k ::
      && Ordered(g.edges, order) && (forall v :: v in order <==> g.Has(v))
      && 0 <= k < |order| && order[k] == i && g.Ready(i)
      && forall j :: 0 <= j < k ==> !g.Ready(order[j])
  }

  lemma AddNodeKeepsValid(g: Graph, n: Node)
    requires g.Valid()
    ensures AfterAddNode(g, n).Valid()
    ensures !g.Has(NextIndex(g)) && AfterAddNode(g, n).Has(NextIndex(g))
    ensures AfterAddNode(g, n).At(NextIndex(g)) == n
    ensures forall j: nat :: j != NextIndex(g) ==> (AfterAddNode(g, n).Has(j) <==> g.Has(j))
    ensures forall j: nat :: g.Has(j) ==> AfterAddNode(g, n).Has(j) && AfterAddNode(g, n).At(j) == g.At(j)
  {
    var h := AfterAddNode(g, n);
    if g.vacant != [] {
      var top := |g.vacant| - 1;
      assert g.vacant[top] in g.vacant;
      assert forall v :: v in g.vacant <==> v in h.vacant || v == g.vacant[top] by {
        assert g.vacant == h.vacant + [g.vacant[top]];
      }
    }
  }

  // ----- The engine -----

  class DagGraph {
    var slots: seq<Option<Node>>
    var vacant: seq<nat>
    var edges: seq<Edge>

    function View(): Graph
      reads this
    {
      Graph(slots, vacant, edges)
    }

    ghost predicate Valid()
      reads this
    {
      View().Valid()
    }

    constructor ()
      ensures Valid() && View() == EMPTY
    {
      slots, vacant, edges := [], [], [];
      new;
      OrderedIsAcyclic([], []);
    }

    method AddNode(n: Node) returns (i: nat)
      requires Valid()
      modifies this
      ensures Valid() && View() == AfterAddNode(old(View()), n)
      ensures i == NextIndex(old(View())) && !old(View()).Has(i)
    {
      i := NextIndex(View());
      AddNodeKeepsValid(View(), n);
      assert vacant != [] ==> i in vacant;
      if vacant == [] {
        slots := slots + [Some(n)];
      } else {
        slots, vacant := slots[i := Some(n)], vacant[..|vacant| - 1];
      }
    }

    /** Adds the edge, tests for a cycle and takes the edge back if there is one. */
    method AddEdge(from: nat, to: nat) returns (r: Result<(), Error>)
      requires Valid()
      modifies this
      ensures Valid() && View() == AfterAddEdge(old(View()), from, to)
      ensures r == match EdgeRefusal(old(View()), from, to) case None => Ok(()) case Some(e) => Err(e)
    {
      if from == to {
        return Err(CycleDetected(from, to));
      }
      if !View().Has(from) || !View().Has(to) {
        return Err(NodeNotFound(if !View().Has(from) then from else to));
      }
      var e := Edge(from, to);
      NewEdgeCycle(edges, e);
      edges := edges + [e];
      var cyclic, _ := TopologicalOrder(edges, View().Live());
      if cyclic {
        RollbackIsExact(old(edges), e);
        edges := RemoveOldest(edges, e);
        return Err(CycleDetected(from, to));
      }
      return Ok(());
    }

    method Toposort() returns (r: Result<seq<nat>, Error>)
      requires forall e :: e in edges ==> View().Has(e.from) && View().Has(e.to)
      ensures r.Ok? <==> Acyclic(edges)
      ensures r.Ok? ==> Ordered(edges, r.value) && forall v :: v in r.value <==> View().Has(v)
      ensures r.Err? ==> r.error == CycleDetected(0, 0)
    {
      var cyclic, order := TopologicalOrder(edges, View().Live());
      return if cyclic then Err(CycleDetected(0, 0)) else Ok(order);
    }

    /** The test of `next_ready` on one node: its status, then its predecessors one by one. */
    method IsReady(i: nat) returns (ready: bool)
      requires Valid() && View().Has(i)
      ensures ready <==> View().Ready(i)
    {
      if View().At(i).status != Pending {
        return false;
      }
      var before := Predecessors(edges, i);
      for p := 0 to |before|
        invariant forall q :: 0 <= q < p ==> View().Has(before[q]) && View().At(before[q]).status == Completed
      {
        assert before[p] in before;
        if View().At(before[p]).status != Completed {
          return false;
        }
      }
      return true;
    }

    /** The earliest ready node of a topological order, or None when no node is ready. */
    method NextReady() returns (r: Option<nat>)
      requires Valid()
      ensures r.Some? ==> FirstReady(View(), r.value)
      ensures r.None? ==> forall i :: !View().Ready(i)
    {
      var sorted := Toposort();
      var order := sorted.value;
      for k := 0 to |order|
        invariant forall j :: 0 <= j < k ==> !View().Ready(order[j])
      {
        var ready := IsReady(order[k]);
        if ready {
          return Some(order[k]);
        }
      }
      return None;
    }

    method Claim(i: nat, pid: nat) returns (r: Result<(), Error>)
      modifies this`slots
      ensures View() == AfterClaim(old(View()), i, pid)
      ensures r == match ClaimResult(old(View()), i, pid) case Ok(_) => Ok(()) case Err(e) => Err(e)
    {
      if !View().Has(i) {
        return Err(NodeNotFound(i));
      }
      var node := View().At(i);
      if node.claimedBy.Some? {
        if node.claimedBy.value != pid {
          return Err(AlreadyClaimed(i, node.claimedBy.value));
        }
        return Ok(());
      }
      if node.status != Pending {
        return Err(InvalidState(node.status, Pending));
      }
      slots := slots[i := Some(node.(claimedBy := Some(pid), status := Running))];
      return Ok(());
    }

    method Release(i: nat)
      modifies this`slots
      ensures View() == AfterRelease(old(View()), i)
    {
      if View().Has(i) {
        var node := View().At(i).(claimedBy := None);
        if node.status == Running {
          node := node.(status := Pending);
        }
        slots := slots[i := Some(node)];
      }
    }

    method Complete(i: nat, output: Payload) returns (r: Result<(), Error>)
      modifies this`slots
      ensures View() == AfterComplete(old(View()), i, output)
      ensures r == match CompleteResult(old(View()), i, output) case Ok(_) => Ok(()) case Err(e) => Err(e)
    {
      if !View().Has(i) {
        return Err(NodeNotFound(i));
      }
      var node := View().At(i);
      if node.status == Completed {
        return Ok(());
      }
      if node.status != Running {
        return Err(InvalidState(node.status, Running));
      }
      slots := slots[i := Some(node.(status := Completed, outputs := output, claimedBy := None, errorMessage := None))];
      return Ok(());
    }

    method Fail(i: nat, message: string)
      modifies this`slots
      ensures View() == AfterFail(old(View()), i, message)
    {
      if View().Has(i) {
        var node := View().At(i);
        slots := slots[i := Some(node.(status := Failed, errorMessage := Some(message), claimedBy := None))];
      }
    }

    method Skip(i: nat)
      modifies this`slots
      ensures View() == AfterSkip(old(View()), i)
    {
      if View().Has(i) {
        slots := slots[i := Some(View().At(i).(status := Skipped, claimedBy := None))];
      }
    }

    method RemoveNode(i: nat) returns (r: Option<Node>)
      requires Valid()
      modifies this
      ensures Valid() && View() == AfterRemoveNode(old(View()), i)
      ensures r == if old(View()).Has(i) then Some(old(View()).At(i)) else None
    {
      if !View().Has(i) {
        return None;
      }
      r := slots[i];
      FewerEdgesStayAcyclic(edges, WithoutNode(edges, i));
      slots, vacant, edges := slots[i := None], vacant + [i], WithoutNode(edges, i);
    }
  }
}
