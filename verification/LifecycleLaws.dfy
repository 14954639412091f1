/** The lifecycle of a node and the edges a graph takes, operation by operation. */
module LifecycleLaws {
  import opened Dag
  import opened DagLaws
  import opened Paths
  import opened Wrappers

  /** Node `i` of `h` is that of `g` with this status, claim, outputs and message; all else is the same. */
  predicate Becomes(g: Graph, h: Graph, i: nat, status: Status, claim: Option<nat>, outputs: Payload, message: Option<string>) {
    && g.Has(i) && h.Has(i) && h.edges == g.edges && h.vacant == g.vacant && |h.slots| == |g.slots|
    && (forall j :: 0 <= j < |g.slots| && j != i ==> h.slots[j] == g.slots[j])
    && h.At(i) == Node(g.At(i).name, status, claim, g.At(i).inputs, outputs, message)
  }

  /** A claim succeeds exactly on the caller's own node, which it leaves as it is, and on a pending node of
      nobody, which then runs for the caller. It is refused for a missing node, for the other owner, or for
      the status, in this order. */
  lemma ClaimExactly(g: Graph, i: nat, pid: nat)
    ensures ClaimResult(g, i, pid).Ok? <==>
              g.Has(i) && (g.At(i).claimedBy == Some(pid) || (g.At(i).claimedBy == None && g.At(i).status == Pending))
    ensures ClaimResult(g, i, pid).Ok? && g.At(i).claimedBy == Some(pid) ==> AfterClaim(g, i, pid) == g
    ensures ClaimResult(g, i, pid).Ok? && g.At(i).claimedBy == None ==>
              Becomes(g, AfterClaim(g, i, pid), i, Running, Some(pid), g.At(i).outputs, g.At(i).errorMessage)
    ensures ClaimResult(g, i, pid).Err? ==>
              && AfterClaim(g, i, pid) == g
              && ClaimResult(g, i, pid).error ==
                   if !g.Has(i) then NodeNotFound(i)
                   else if g.At(i).claimedBy.Some? then AlreadyClaimed(i, g.At(i).claimedBy.value)
                   else InvalidState(g.At(i).status, Pending)
  {
  }

  /** A completion succeeds exactly on a running node, which gets the outputs, and on a completed one, which
      keeps its own. */
  lemma CompleteExactly(g: Graph, i: nat, output: Payload)
    ensures CompleteResult(g, i, output).Ok? <==> g.Has(i) && (g.At(i).status == Running || g.At(i).status == Completed)
    ensures g.Has(i) && g.At(i).status == Completed ==> AfterComplete(g, i, output) == g
    ensures g.Has(i) && g.At(i).status == Running ==> Becomes(g, AfterComplete(g, i, output), i, Completed, None, output, None)
    ensures CompleteResult(g, i, output).Err? ==>
              && AfterComplete(g, i, output) == g
              && CompleteResult(g, i, output).error == if !g.Has(i) then NodeNotFound(i) else InvalidState(g.At(i).status, Running)
  {
  }

  /** Failing and skipping end any node and free it; releasing frees it and stops it from running. A missing
      node changes nothing. */
  lemma EndAndRelease(g: Graph, i: nat, message: string)
    ensures g.Has(i) ==> Becomes(g, AfterFail(g, i, message), i, Failed, None, g.At(i).outputs, Some(message))
    ensures g.Has(i) ==> Becomes(g, AfterSkip(g, i), i, Skipped, None, g.At(i).outputs, g.At(i).errorMessage)
    ensures g.Has(i) ==>
              Becomes(g, AfterRelease(g, i), i, if g.At(i).status == Running then Pending else g.At(i).status, None,
                      g.At(i).outputs, g.At(i).errorMessage)
    ensures !g.Has(i) ==> AfterFail(g, i, message) == AfterSkip(g, i) == AfterRelease(g, i) == g
  {
  }

  /** Claiming a pending node and releasing it again leaves the graph as it was, ready to be claimed. */
  lemma ClaimThenRelease(g: Graph, i: nat, pid: nat)
    requires g.Has(i) && g.At(i).status == Pending && g.At(i).claimedBy == None
    ensures AfterClaim(g, i, pid) != g && AfterRelease(AfterClaim(g, i, pid), i) == g
  {
    var h := AfterClaim(g, i, pid);
    assert h.At(i).status == Running;
    assert AfterRelease(h, i).slots == g.slots;
  }

  /** While a node is claimed nobody else gets it. */
  lemma ClaimKeepsOthersOut(g: Graph, i: nat, pid: nat, other: nat)
    requires ClaimResult(g, i, pid).Ok? && other != pid
    ensures ClaimResult(AfterClaim(g, i, pid), i, other) == Err(AlreadyClaimed(i, pid))
    ensures ClaimResult(AfterRelease(AfterClaim(g, i, pid), i), i, other).Ok? <==>
              g.At(i).status == Pending || g.At(i).status == Running
  {
  }

  /** A new edge is taken exactly when it joins two nodes of the graph and closes no cycle, and then stands
      behind the others. Else the graph stays, and the refusal names the first missing node or the edge. */
  lemma AddEdgeExactly(g: Graph, from: nat, to: nat)
    requires g.Valid()
    ensures EdgeRefusal(g, from, to) == None <==> g.Has(from) && g.Has(to) && Acyclic(g.edges + [Edge(from, to)])
    ensures EdgeRefusal(g, from, to) == None ==> AfterAddEdge(g, from, to) == Graph(g.slots, g.vacant, g.edges + [Edge(from, to)])
    ensures EdgeRefusal(g, from, to).Some? ==>
              && AfterAddEdge(g, from, to) == g
              && EdgeRefusal(g, from, to).value ==
                   if from == to || (g.Has(from) && g.Has(to)) then CycleDetected(from, to)
                   else NodeNotFound(if g.Has(from) then to else from)
  {
    NewEdgeCycle(g.edges, Edge(from, to));
    if from == to {
      var loop := [from, to];
      assert Edge(from, to) in g.edges + [Edge(from, to)];
      assert IsPath(g.edges + [Edge(from, to)], loop) && |loop| > 1;
    }
  }
}
