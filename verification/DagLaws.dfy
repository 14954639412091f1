/** What holds of every graph an operation sequence can reach, and of every scheduling run. */
module DagLaws {
  import opened Dag
  import opened DepthFirst
  import opened Paths
  import opened Wrappers

  // ----- Operation sequences -----

  datatype Op =
    | AddNode(name: string, inputs: Payload)
    | AddEdge(from: nat, to: nat)
    | RemoveNode(i: nat)
    | Claim(i: nat, pid: nat)
    | Release(i: nat)
    | Complete(i: nat, output: Payload)
    | Fail(i: nat, message: string)
    | Skip(i: nat)

  ghost function Step(g: Graph, op: Op): Graph
    requires g.Valid()
  {
    match op
    case AddNode(name, inputs) => AfterAddNode(g, FreshNode(name, inputs))
    case AddEdge(from, to) => AfterAddEdge(g, from, to)
    case RemoveNode(i) => AfterRemoveNode(g, i)
    case Claim(i, pid) => AfterClaim(g, i, pid)
    case Release(i) => AfterRelease(g, i)
    case Complete(i, output) => AfterComplete(g, i, output)
    case Fail(i, message) => AfterFail(g, i, message)
    case Skip(i) => AfterSkip(g, i)
  }

  /** A node is claimed exactly while it runs. */
  ghost predicate ClaimsMatch(g: Graph) {
    forall i: nat :: g.Has(i) ==> (g.At(i).claimedBy.Some? <==> g.At(i).status == Running)
  }

  lemma PutKeepsValid(g: Graph, i: nat, n: Node)
    requires g.Valid() && g.Has(i)
    ensures g.Put(i, n).Valid()
  {
  }

  lemma RemoveKeepsValid(g: Graph, i: nat)
    requires g.Valid()
    ensures AfterRemoveNode(g, i).Valid()
  {
    if g.Has(i) {
      var h := AfterRemoveNode(g, i);
      FewerEdgesStayAcyclic(g.edges, h.edges);
      assert i !in g.vacant;
      forall v: nat | v in h.vacant
        ensures v < |h.slots| && h.slots[v].None?
      {
        assert v in g.vacant || v == i;
      }
    }
  }

  lemma StepKeepsValid(g: Graph, op: Op)
    requires g.Valid()
    ensures Step(g, op).Valid()
  {
    match op
    case AddNode(name, inputs) => AddNodeKeepsValid(g, FreshNode(name, inputs));
    case AddEdge(from, to) => NewEdgeCycle(g.edges, Edge(from, to));
    case RemoveNode(i) => RemoveKeepsValid(g, i);
    case _ => if g.Has(op.i) { PutKeepsValid(g, op.i, Step(g, op).At(op.i)); }
  }

  lemma StepKeepsClaims(g: Graph, op: Op)
    requires g.Valid() && ClaimsMatch(g)
    ensures ClaimsMatch(Step(g, op))
  {
    var h := Step(g, op);
    if op.AddNode? {
      AddNodeKeepsValid(g, FreshNode(op.name, op.inputs));
    }
    forall j: nat | h.Has(j)
      ensures h.At(j).claimedBy.Some? <==> h.At(j).status == Running
    {
      if op.AddNode? {
        assert g.Has(j) || j == NextIndex(g);
      } else {
        assert g.Has(j);
        assert op.AddEdge? || op.i != j ==> h.At(j) == g.At(j);
      }
    }
  }

  ghost function Run(g: Graph, ops: seq<Op>): Graph
    requires g.Valid()
    decreases |ops|
  {
    if ops == [] then g
    else
      StepKeepsValid(g, ops[0]);
      Run(Step(g, ops[0]), ops[1..])
  }

  /** Every graph reached from the empty one is structurally sound and acyclic, and its claims
      mark exactly the running nodes. */
  lemma {:induction false} ReachableGraphs(g: Graph, ops: seq<Op>)
    requires g.Valid() && ClaimsMatch(g)
    ensures Run(g, ops).Valid() && Acyclic(Run(g, ops).edges)
    ensures ClaimsMatch(Run(g, ops))
    decreases |ops|
  {
    if ops != [] {
      StepKeepsValid(g, ops[0]);
      StepKeepsClaims(g, ops[0]);
      ReachableGraphs(Step(g, ops[0]), ops[1..]);
    }
  }

  lemma EmptyIsValid()
    ensures EMPTY.Valid() && ClaimsMatch(EMPTY)
  {
    OrderedIsAcyclic([], []);
  }

  /** A lifecycle operation on one node, and any structural operation, leaves every other live
      node at its index with its contents. */
  lemma OthersUntouched(g: Graph, op: Op, j: nat)
    requires g.Valid() && g.Has(j)
    requires !op.AddNode? && !op.AddEdge? ==> op.i != j
    ensures Step(g, op).Has(j) && Step(g, op).At(j) == g.At(j)
  {
    if op.AddNode? {
      AddNodeKeepsValid(g, FreshNode(op.name, op.inputs));
    }
  }

  /** An index does not survive the removal of its own node: the next node added takes it. */
  lemma RemovedIndexIsReused(g: Graph, i: nat, name: string, inputs: Payload)
    requires g.Valid() && g.Has(i)
    ensures var removed := Step(g, RemoveNode(i));
            && removed.Valid() && !removed.Has(i)
            && Step(removed, AddNode(name, inputs)).Has(i)
            && Step(removed, AddNode(name, inputs)).At(i) == FreshNode(name, inputs)
  {
    RemoveKeepsValid(g, i);
    AddNodeKeepsValid(Step(g, RemoveNode(i)), FreshNode(name, inputs));
  }

  /** A terminal status is left by `fail`, `skip` and removal only. */
  lemma TerminalStays(g: Graph, op: Op, j: nat)
    requires g.Valid() && g.Has(j) && g.At(j).status.Terminal() && g.At(j).claimedBy.None?
    ensures (Step(g, op).Has(j) && Step(g, op).At(j) == g.At(j))
            <==> match op
                 case RemoveNode(i) => i != j
                 case Fail(i, m) => i == j ==> g.At(j) == FailNode(g.At(j), m)
                 case Skip(i) => i == j ==> g.At(j).status == Skipped
                 case _ => true
  {
    if op.AddNode? {
      AddNodeKeepsValid(g, FreshNode(op.name, op.inputs));
    }
  }

  // ----- Replayed completions -----

  datatype Completion = Completion(node: nat, output: Payload)

  function Deliver(g: Graph, events: seq<Completion>): Graph
    decreases |events|
  {
    if events == [] then g else Deliver(AfterComplete(g, events[0].node, events[0].output), events[1..])
  }

  function Excluding(events: seq<Completion>, node: nat): (r: seq<Completion>)
    ensures |r| <= |events|
  {
    if events == [] then []
    else if events[0].node == node then Excluding(events[1..], node)
    else [events[0]] + Excluding(events[1..], node)
  }

  /** The first event for each node, in order. */
  function FirstPerNode(events: seq<Completion>): seq<Completion>
    decreases |events|
  {
    if events == [] then [] else [events[0]] + FirstPerNode(Excluding(events[1..], events[0].node))
  }

  /** Events for a node that `complete` no longer changes can be dropped. */
  lemma {:induction false} DropSettled(g: Graph, events: seq<Completion>, node: nat)
    requires g.Has(node) ==> g.At(node).status != Running
    ensures Deliver(g, events) == Deliver(g, Excluding(events, node))
    decreases |events|
  {
    if events != [] {
      var h := AfterComplete(g, events[0].node, events[0].output);
      if events[0].node == node {
        if g.Has(node) {
          assert g.slots[node := Some(g.At(node))] == g.slots;
        }
        assert h == g;
      } else {
        var rest := Excluding(events[1..], node);
        assert ([events[0]] + rest)[1..] == rest;
      }
      DropSettled(h, events[1..], node);
    }
  }

  /** Replaying completions, in any number and with any outputs, gives the graph that the first
      completion of each node gives. */
  lemma {:induction false} ReplayIsIdempotent(g: Graph, events: seq<Completion>)
    ensures Deliver(g, events) == Deliver(g, FirstPerNode(events))
    decreases |events|
  {
    if events != [] {
      var e := events[0];
      var h := AfterComplete(g, e.node, e.output);
      var rest := Excluding(events[1..], e.node);
      DropSettled(h, events[1..], e.node);
      ReplayIsIdempotent(h, rest);
      assert ([e] + FirstPerNode(rest))[1..] == FirstPerNode(rest);
    }
  }

  // ----- Scheduling -----

  predicate Blocking(s: Status) { s == Running || s == Failed || s == Skipped }

  /** Some strict ancestor of `i` is Running, Failed or Skipped. */
  ghost predicate Blocked(g: Graph, i: nat) {
    exists a :: g.Has(a) && Blocking(g.At(a).status) && Reaches(g.edges, a, i) && a != i
  }

  /** `p` leads from a blocking node through pending ones only. */
  ghost predicate IsWait(g: Graph, p: seq<nat>) {
    && IsPath(g.edges, p) && |p| > 1
    && g.Has(p[0]) && Blocking(g.At(p[0]).status)
    && forall k :: 1 <= k < |p| ==> g.Has(p[k]) && g.At(p[k]).status == Pending
  }

  /** Every node between a blocking ancestor and `i` is itself still pending. */
  ghost predicate Waits(g: Graph, i: nat) {
    exists p :: IsWait(g, p) && p[|p| - 1] == i
  }

  /** Walks up through pending predecessors until it meets a blocking one. */
  lemma FindBlocker(g: Graph, p: seq<nat>)
    requires g.Valid() && IsPath(g.edges, p)
    requires forall x :: x in p ==> g.Has(x) && g.At(x).status == Pending
    requires forall i: nat :: !g.Ready(i)
    ensures Waits(g, p[|p| - 1])
    decreases |g.slots| + 1 - |p|
  {
    var all := set i | 0 <= i < |g.slots| && g.Has(i);
    AcyclicPathsAreShort(g.edges, all, p);
    BoundedSetSize(all, |g.slots|);
    assert p[0] in p && !g.Ready(p[0]);
    var q :| Edge(q, p[0]) in g.edges && !(g.Has(q) && g.At(q).status == Completed);
    var longer := [q] + p;
    assert IsPath(g.edges, longer) by {
      assert forall k :: 0 < k < |longer| ==> longer[k] == p[k - 1];
    }
    if g.At(q).status == Pending {
      FindBlocker(g, longer);
    } else {
      assert IsWait(g, longer) by {
        assert forall k :: 1 <= k < |longer| ==> longer[k] == p[k - 1] && p[k - 1] in p;
      }
    }
  }

  /** A node that waits is not ready. */
  lemma WaitsIsNotReady(g: Graph, i: nat)
    requires Waits(g, i)
    ensures !g.Ready(i)
  {
    var p :| IsWait(g, p) && p[|p| - 1] == i;
    assert Edge(p[|p| - 2], p[|p| - 1]) in g.edges;
  }

  /** In every sound graph `next_ready` finds nothing exactly when every pending node waits for a
      running, failed or skipped one through pending ones. */
  lemma NothingReady(g: Graph)
    requires g.Valid()
    ensures (forall i: nat :: !g.Ready(i))
            <==> (forall i: nat :: g.Has(i) && g.At(i).status == Pending ==> Waits(g, i))
  {
    if forall i: nat :: !g.Ready(i) {
      forall i: nat | g.Has(i) && g.At(i).status == Pending
        ensures Waits(g, i)
      {
        FindBlocker(g, [i]);
      }
    } else {
      var i: nat :| g.Ready(i);
      if Waits(g, i) {
        WaitsIsNotReady(g, i);
      }
    }
  }

  lemma {:induction false} BoundedSetSize(nodes: set<nat>, n: nat)
    requires forall i :: i in nodes ==> i < n
    ensures |nodes| <= n
  {
    if n == 0 {
      assert nodes == {};
    } else {
      BoundedSetSize(nodes - {n - 1}, n - 1);
    }
  }

  /** Completed nodes have only completed predecessors. */
  ghost predicate CompletedDownward(g: Graph) {
    forall a, b :: Edge(a, b) in g.edges && g.Has(a) && g.Has(b) && g.At(b).status == Completed
      ==> g.At(a).status == Completed
  }

  lemma {:induction false} PathIntoCompleted(g: Graph, p: seq<nat>)
    requires g.Valid() && CompletedDownward(g) && IsPath(g.edges, p)
    requires g.Has(p[|p| - 1]) && g.At(p[|p| - 1]).status == Completed
    ensures g.Has(p[0]) && g.At(p[0]).status == Completed
  {
    if |p| > 1 {
      assert IsPath(g.edges, p[1..]);
      PathIntoCompleted(g, p[1..]);
      assert Edge(p[0], p[1]) in g.edges;
    }
  }

  /** Waiting and having a blocking ancestor are the same where completed nodes have only completed
      predecessors. */
  lemma BlockedIsWaiting(g: Graph)
    requires g.Valid() && CompletedDownward(g)
    ensures (forall i: nat :: !g.Ready(i))
            <==> (forall i: nat :: g.Has(i) && g.At(i).status == Pending ==> Blocked(g, i))
  {
    NothingReady(g);
    forall i: nat | g.Has(i) && g.At(i).status == Pending && Waits(g, i)
      ensures Blocked(g, i)
    {
      var p :| IsWait(g, p) && p[|p| - 1] == i;
      assert Reaches(g.edges, p[0], i);
    }
    forall i: nat | Blocked(g, i)
      ensures !g.Ready(i)
    {
      BlockedIsNotReady(g, i);
    }
  }

  lemma BlockedIsNotReady(g: Graph, i: nat)
    requires g.Valid() && CompletedDownward(g) && Blocked(g, i)
    ensures !g.Ready(i)
  {
    var a :| g.Has(a) && Blocking(g.At(a).status) && Reaches(g.edges, a, i) && a != i;
    var p :| IsPath(g.edges, p) && p[0] == a && p[|p| - 1] == i;
    var q := p[..|p| - 1];
    assert Edge(p[|p| - 2], p[|p| - 1]) in g.edges;
    assert IsPath(g.edges, q);
    if g.Ready(i) {
      PathIntoCompleted(g, q);
    }
  }

  /** Three nodes in a row. */
  function Chain(a: Node, b: Node, c: Node): Graph {
    Graph([Some(a), Some(b), Some(c)], [], [Edge(0, 1), Edge(1, 2)])
  }

  lemma ChainIsValid(a: Node, b: Node, c: Node)
    ensures Chain(a, b, c).Valid()
  {
    OrderedIsAcyclic(Chain(a, b, c).edges, [0, 1, 2]);
  }

  lemma BlockedInChain(a: Node, b: Node, c: Node)
    requires a.status == Failed && b.status == Completed && c.status == Pending
    ensures Blocked(Chain(a, b, c), 2) && Chain(a, b, c).Ready(2)
  {
    var h := Chain(a, b, c);
    assert IsPath(h.edges, [0, 1, 2]);
    assert Reaches(h.edges, 0, 2);
    assert h.Has(0) && h.At(0) == a && h.At(1) == b;
  }

  /** In general they are not: `claim` does not ask for readiness, so a node can complete before its
      predecessor, and a node below it is ready although the predecessor has failed. */
  lemma BlockedYetReady(inputs: Payload) returns (ops: seq<Op>)
    ensures var n := FreshNode("n", inputs);
            && Chain(n, n, n).Valid()
            && var h := Run(Chain(n, n, n), ops);
               h.Valid() && Blocked(h, 2) && h.Ready(2)
  {
    hide Graph.Valid, Graph.Ready, Blocked;
    var n := FreshNode("n", inputs);
    var b := n.(status := Running, claimedBy := Some(7));
    var c := n.(status := Completed, outputs := inputs);
    var f := n.(status := Failed, errorMessage := Some(""));
    ChainIsValid(n, n, n);
    ChainIsValid(n, b, n);
    ChainIsValid(n, c, n);
    ChainIsValid(f, c, n);
    ops := [Op.Claim(1, 7), Op.Complete(1, inputs), Op.Fail(0, "")];
    ThreeSteps(Chain(n, n, n), ops[0], ops[1], ops[2]);
    assert Step(Chain(n, n, n), ops[0]) == Chain(n, b, n);
    assert Step(Chain(n, b, n), ops[1]) == Chain(n, c, n);
    assert Step(Chain(n, c, n), ops[2]) == Chain(f, c, n);
    BlockedInChain(f, c, n);
  }

  lemma ThreeSteps(g: Graph, a: Op, b: Op, c: Op)
    requires g.Valid()
    ensures Step(g, a).Valid() && Step(Step(g, a), b).Valid() && Step(Step(Step(g, a), b), c).Valid()
    ensures Run(g, [a, b, c]) == Step(Step(Step(g, a), b), c)
  {
    hide Step, Graph.Valid;
    StepKeepsValid(g, a);
    StepKeepsValid(Step(g, a), b);
    StepKeepsValid(Step(Step(g, a), b), c);
    assert [a, b, c][1..] == [b, c] && [b, c][1..] == [c] && [c][1..] == [];
    assert Run(Step(g, a), [b, c]) == Run(Step(Step(g, a), b), [c]);
    assert Run(Step(Step(g, a), b), [c]) == Run(Step(Step(Step(g, a), b), c), []);
  }

  // ----- Scheduling runs: next_ready, claim, then complete or fail -----

  datatype Round = Round(node: nat, pid: nat, outcome: Result<Payload, string>)

  function AfterRound(g: Graph, r: Round): Graph {
    var claimed := AfterClaim(g, r.node, r.pid);
    if r.outcome.Ok? then AfterComplete(claimed, r.node, r.outcome.value)
    else AfterFail(claimed, r.node, r.outcome.error)
  }

  function After(g: Graph, rounds: seq<Round>): Graph {
    if rounds == [] then g
    else AfterRound(After(g, rounds[..|rounds| - 1]), rounds[|rounds| - 1])
  }

  /** Every round takes a node that is ready in the graph reached so far, as `next_ready` does;
      it may be any ready node, not only the first in topological order. */
  ghost predicate IsRun(g: Graph, rounds: seq<Round>) {
    rounds == [] ||
    var n := |rounds| - 1;
    IsRun(g, rounds[..n]) && After(g, rounds[..n]).Ready(rounds[n].node)
  }

  ghost predicate AllPending(g: Graph) {
    forall i: nat :: g.Has(i) ==> g.At(i).status == Pending && g.At(i).claimedBy.None?
  }

  /** The status a node has after the rounds, by its own last round. */
  function StatusAfter(rounds: seq<Round>, i: nat): Status {
    if rounds == [] then Pending
    else
      var r := rounds[|rounds| - 1];
      if r.node == i then (if r.outcome.Ok? then Completed else Failed)
      else StatusAfter(rounds[..|rounds| - 1], i)
  }

  /** The graph after the rounds: same shape, and each node as its last round left it. */
  ghost predicate Tracks(g0: Graph, rounds: seq<Round>, g: Graph) {
    && g.edges == g0.edges && (forall i: nat :: g.Has(i) <==> g0.Has(i))
    && (forall i: nat :: g.Has(i) ==> g.At(i).status == StatusAfter(rounds, i) && g.At(i).claimedBy.None?)
    && g.Valid() && CompletedDownward(g)
  }

  lemma RoundTracks(g0: Graph, rounds: seq<Round>, g: Graph, r: Round)
    requires Tracks(g0, rounds, g) && g.Ready(r.node)
    ensures Tracks(g0, rounds + [r], AfterRound(g, r))
  {
    assert (rounds + [r])[..|rounds|] == rounds;
    var h := AfterRound(g, r);
    var claimed := AfterClaim(g, r.node, r.pid);
    PutKeepsValid(g, r.node, claimed.At(r.node));
    PutKeepsValid(claimed, r.node, h.At(r.node));
  }

  lemma NoRoundsYet(g: Graph)
    requires g.Valid() && AllPending(g)
    ensures Tracks(g, [], g)
  {
  }

  lemma {:induction false} RunTracks(g: Graph, rounds: seq<Round>)
    requires g.Valid() && AllPending(g) && IsRun(g, rounds)
    ensures Tracks(g, rounds, After(g, rounds))
  {
    if rounds == [] {
      NoRoundsYet(g);
    } else {
      var n := |rounds| - 1;
      RunTracks(g, rounds[..n]);
      RoundTracks(g, rounds[..n], After(g, rounds[..n]), rounds[n]);
      assert rounds[..n] + [rounds[n]] == rounds;
    }
  }

  lemma {:induction false} RunPrefix(g: Graph, rounds: seq<Round>, k: nat)
    requires IsRun(g, rounds) && k <= |rounds|
    ensures IsRun(g, rounds[..k])
    ensures k < |rounds| ==> After(g, rounds[..k]).Ready(rounds[k].node)
  {
    if k < |rounds| {
      var n := |rounds| - 1;
      RunPrefix(g, rounds[..n], k);
      assert rounds[..n][..k] == rounds[..k];
      assert k < n ==> rounds[..n][k] == rounds[k];
    } else {
      assert rounds[..k] == rounds;
    }
  }

  lemma {:induction false} StatusAfterRounds(rounds: seq<Round>, i: nat)
    ensures StatusAfter(rounds, i) == Pending <==> forall j :: 0 <= j < |rounds| ==> rounds[j].node != i
    ensures StatusAfter(rounds, i) == Completed ==>
              exists j :: 0 <= j < |rounds| && rounds[j].node == i && rounds[j].outcome.Ok?
    ensures StatusAfter(rounds, i) in {Pending, Completed, Failed}
    ensures StatusAfter(rounds, i) == Failed ==>
              exists j :: 0 <= j < |rounds| && rounds[j].node == i && rounds[j].outcome.Err?
  {
    if rounds != [] {
      var n := |rounds| - 1;
      StatusAfterRounds(rounds[..n], i);
      assert forall j :: 0 <= j < n ==> rounds[..n][j] == rounds[j];
    }
  }

  /** No node is taken twice, and a node is taken only after every predecessor was taken in an
      earlier round and completed there. */
  lemma RunRespectsEdges(g: Graph, rounds: seq<Round>, k: nat)
    requires g.Valid() && AllPending(g) && IsRun(g, rounds) && k < |rounds|
    ensures g.Has(rounds[k].node)
    ensures forall j :: 0 <= j < k ==> rounds[j].node != rounds[k].node
    ensures forall a :: Edge(a, rounds[k].node) in g.edges ==>
              exists j :: 0 <= j < k && rounds[j].node == a && rounds[j].outcome.Ok?
  {
    var before := rounds[..k];
    RunPrefix(g, rounds, k);
    RunTracks(g, before);
    var h := After(g, before);
    assert h.Ready(rounds[k].node);
    StatusAfterRounds(before, rounds[k].node);
    assert forall j :: 0 <= j < k ==> before[j] == rounds[j];
    forall a | Edge(a, rounds[k].node) in g.edges
      ensures exists j :: 0 <= j < k && rounds[j].node == a && rounds[j].outcome.Ok?
    {
      StatusAfterRounds(before, a);
    }
  }

  /** Every run ends: it has at most one round for each live node. */
  lemma RunIsBounded(g: Graph, rounds: seq<Round>)
    requires g.Valid() && AllPending(g) && IsRun(g, rounds)
    ensures |rounds| <= |set i | 0 <= i < |g.slots| && g.Has(i)|
  {
    var taken := seq(|rounds|, k requires 0 <= k < |rounds| => rounds[k].node);
    forall j, k | 0 <= j < k < |taken|
      ensures taken[j] != taken[k]
    {
      RunRespectsEdges(g, rounds, k);
    }
    forall x | x in taken
      ensures x in set i | 0 <= i < |g.slots| && g.Has(i)
    {
      var k :| 0 <= k < |taken| && taken[k] == x;
      RunRespectsEdges(g, rounds, k);
    }
    DistinctFit(taken, set i | 0 <= i < |g.slots| && g.Has(i));
  }

  /** A run stops with None exactly when every node still pending has a failed ancestor. */
  lemma RunStops(g: Graph, rounds: seq<Round>)
    requires g.Valid() && AllPending(g) && IsRun(g, rounds)
    ensures var h := After(g, rounds);
            && h.Valid()
            && ((forall i: nat :: !h.Ready(i)) <==>
                (forall i: nat :: h.Has(i) && h.At(i).status == Pending ==> Blocked(h, i)))
            && (forall a: nat :: h.Has(a) && Blocking(h.At(a).status) ==> h.At(a).status == Failed)
  {
    RunTracks(g, rounds);
    var h := After(g, rounds);
    BlockedIsWaiting(h);
    forall a: nat | h.Has(a) && Blocking(h.At(a).status)
      ensures h.At(a).status == Failed
    {
      StatusAfterRounds(rounds, a);
    }
  }

  /** When no round fails, a run that stops has completed every node. */
  lemma RunWithoutFailureCompletesAll(g: Graph, rounds: seq<Round>)
    requires g.Valid() && AllPending(g) && IsRun(g, rounds)
    requires forall k :: 0 <= k < |rounds| ==> rounds[k].outcome.Ok?
    requires forall i: nat :: !After(g, rounds).Ready(i)
    ensures forall i: nat :: g.Has(i) ==> After(g, rounds).Has(i) && After(g, rounds).At(i).status == Completed
  {
    RunTracks(g, rounds);
    RunStops(g, rounds);
    var h := After(g, rounds);
    forall a: nat | h.Has(a)
      ensures h.At(a).status != Failed
    {
      StatusAfterRounds(rounds, a);
    }
    forall i: nat | g.Has(i)
      ensures h.Has(i) && h.At(i).status == Completed
    {
      StatusAfterRounds(rounds, i);
    }
  }
}
