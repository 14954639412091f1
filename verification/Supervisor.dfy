/** One supervisor turn: plan, execute and critique, at most three times, on a shared DAG.

    The replies of the planner, of the executor and of the critic are arbitrary: `World` holds the
    reply to the k-th call of each, errors included. */
module Supervisor {
  import opened Dag
  import opened DagLaws
  import opened Paths
  import opened Wrappers

  const MAX_REFLECTIONS := 3
  const MAX_STEPS := 16

  datatype PlanStep = PlanStep(name: string, inputs: Payload)

  datatype Decision = Accept | Reflect(feedback: string) | Reject(reason: string)

  datatype AgentError =
    | Provider(detail: string)
    | Planning(reason: string)
    | Execution(detail: string)
    | DagFailure(error: Error)

  datatype TurnOutcome = Success(value: Payload) | TurnFailed(failure: FailureReason) | ReflectionsExhausted

  datatype FailureReason = ExecutionError(error: AgentError) | CriticRejected(reason: string)

  /** What the outside answers to the k-th request of each kind. */
  datatype World = World(
    plans: nat -> Result<seq<PlanStep>, AgentError>,
    executions: nat -> Result<Payload, string>,
    critiques: nat -> Result<Decision, AgentError>)

  // ----- One step -----

  /** The first pending node with the name, by index. */
  ghost predicate IsFirstPending(g: Graph, name: string, i: nat) {
    && g.Has(i) && g.At(i).name == name && g.At(i).status == Pending
    && forall j: nat :: j < i && g.Has(j) && g.At(j).name == name ==> g.At(j).status != Pending
  }

  /** The first pending node with the name from slot `k` on, or the index a new node gets. */
  function PickFrom(g: Graph, name: string, k: nat): nat
    decreases |g.slots| - k
  {
    if k >= |g.slots| then NextIndex(g)
    else if g.slots[k].Some? && g.slots[k].value.name == name && g.slots[k].value.status == Pending then k
    else PickFrom(g, name, k + 1)
  }

  /** The node that a step with the name runs. */
  function Pick(g: Graph, name: string): nat {
    PickFrom(g, name, 0)
  }

  predicate HasPending(g: Graph, name: string) {
    exists i: nat :: i < |g.slots| && g.Has(i) && g.At(i).name == name && g.At(i).status == Pending
  }

  lemma {:induction false} PickFromIs(g: Graph, name: string, k: nat)
    requires forall j: nat :: j < k && g.Has(j) && g.At(j).name == name ==> g.At(j).status != Pending
    ensures IsFirstPending(g, name, PickFrom(g, name, k)) || (!HasPending(g, name) && PickFrom(g, name, k) == NextIndex(g))
    decreases |g.slots| - k
  {
    if k < |g.slots| && !(g.Has(k) && g.At(k).name == name && g.At(k).status == Pending) {
      PickFromIs(g, name, k + 1);
    }
  }

  /** Nodes are picked by name: the first pending one, or a new one exactly when none is pending. */
  lemma PickIs(g: Graph, name: string)
    ensures HasPending(g, name) ==> IsFirstPending(g, name, Pick(g, name))
    ensures !HasPending(g, name) ==> Pick(g, name) == NextIndex(g) && forall i: nat :: !IsFirstPending(g, name, i)
  {
    PickFromIs(g, name, 0);
  }

  /** The graph in which the picked node is claimed. */
  ghost function WithPick(g: Graph, step: PlanStep): Graph
    requires g.Valid()
  {
    if HasPending(g, step.name) then g else AfterAddNode(g, FreshNode(step.name, step.inputs))
  }

  /** `h` is `g` with the pending, unclaimed node `i`, found in it or added to it. */
  ghost predicate Picked(g: Graph, h: Graph, i: nat) {
    && h.Valid() && ClaimsMatch(h) && h.edges == g.edges
    && h.Has(i) && h.At(i).status == Pending && h.At(i).claimedBy.None?
    && (g.Has(i) ==> g.At(i).status == Pending)
    && (forall j: nat :: g.Has(j) ==> h.Has(j))
    && (forall j: nat :: h.Has(j) && j != i ==> g.Has(j) && h.At(j) == g.At(j))
  }

  lemma AddedIsPicked(g: Graph, n: Node)
    requires g.Valid() && ClaimsMatch(g) && n.status == Pending && n.claimedBy.None?
    ensures Picked(g, AfterAddNode(g, n), NextIndex(g)) && AfterAddNode(g, n).At(NextIndex(g)) == n
  {
    AddNodeKeepsValid(g, n);
  }

  /** Claiming the picked node and then finishing it succeeds, and touches nothing else. */
  lemma ClaimThenFinish(g: Graph, h: Graph, i: nat, pid: nat, outcome: Result<Payload, string>)
    requires Picked(g, h, i)
    ensures ClaimResult(h, i, pid).Ok?
    ensures outcome.Ok? ==> CompleteResult(AfterClaim(h, i, pid), i, outcome.value).Ok?
    ensures var k := AfterRound(h, Round(i, pid, outcome));
            && k.Valid() && ClaimsMatch(k) && OnlyRan(g, k, [i])
            && k.At(i).name == h.At(i).name
            && match outcome
               case Ok(output) => k.At(i).status == Completed && k.At(i).outputs == output
               case Err(message) => k.At(i).status == Failed && k.At(i).errorMessage == Some(message)
  {
    var k := AfterRound(h, Round(i, pid, outcome));
    assert k == h.Put(i, k.At(i));
    PutKeepsValid(h, i, k.At(i));
  }

  lemma PickIsPicked(g: Graph, step: PlanStep)
    requires g.Valid() && ClaimsMatch(g)
    ensures var i, h := Pick(g, step.name), WithPick(g, step);
            Picked(g, h, i) && h.At(i).name == step.name
  {
    PickIs(g, step.name);
    AddedIsPicked(g, FreshNode(step.name, step.inputs));
  }

  /** The graph after a step whose execution ends in `outcome`. */
  ghost function Stepped(g: Graph, step: PlanStep, pid: nat, outcome: Result<Payload, string>): (h: Graph)
    requires g.Valid() && ClaimsMatch(g)
    ensures h.Valid() && ClaimsMatch(h)
  {
    PickIsPicked(g, step);
    ClaimThenFinish(g, WithPick(g, step), Pick(g, step.name), pid, outcome);
    AfterRound(WithPick(g, step), Round(Pick(g, step.name), pid, outcome))
  }

  // ----- Many steps -----

  /** Graph and nodes after steps whose executions end as the world says, counted from `base`. */
  ghost function Ran(g: Graph, steps: seq<PlanStep>, pid: nat, world: World, base: nat): (r: (Graph, seq<nat>))
    requires g.Valid() && ClaimsMatch(g)
    ensures r.0.Valid() && ClaimsMatch(r.0) && |r.1| == |steps|
  {
    if steps == [] then (g, [])
    else
      var n := |steps| - 1;
      var (h, ran) := Ran(g, steps[..n], pid, world, base);
      (Stepped(h, steps[n], pid, world.executions(base + n)), ran + [Pick(h, steps[n].name)])
  }

  lemma RanOneMore(g: Graph, steps: seq<PlanStep>, step: PlanStep, pid: nat, world: World, base: nat)
    requires g.Valid() && ClaimsMatch(g)
    ensures var (h, ran) := Ran(g, steps, pid, world, base);
            Ran(g, steps + [step], pid, world, base) ==
              (Stepped(h, step, pid, world.executions(base + |steps|)), ran + [Pick(h, step.name)])
  {
    hide Stepped, Pick, Graph.Valid, ClaimsMatch;
    assert (steps + [step])[..|steps|] == steps;
  }

  /** Steps in two parts are the first part and then the second. */
  lemma {:induction false} RanThen(g: Graph, first: seq<PlanStep>, second: seq<PlanStep>, pid: nat, world: World, base: nat)
    requires g.Valid() && ClaimsMatch(g)
    ensures var (h, a) := Ran(g, first, pid, world, base);
            var (k, b) := Ran(h, second, pid, world, base + |first|);
            Ran(g, first + second, pid, world, base) == (k, a + b)
  {
    hide *;
    var h := Ran(g, first, pid, world, base).0;
    if second == [] {
      RanNothing(h, pid, world, base + |first|);
      assert first + second == first;
      var a := Ran(g, first, pid, world, base).1;
      assert a + [] == a;
    } else {
      var n := |second| - 1;
      RanThen(g, first, second[..n], pid, world, base);
      RanOneMore(g, first + second[..n], second[n], pid, world, base);
      RanOneMore(h, second[..n], second[n], pid, world, base + |first|);
      assert second == second[..n] + [second[n]];
      assert first + second == first + second[..n] + [second[n]];
      var a := Ran(g, first, pid, world, base).1;
      var (k, b) := Ran(h, second[..n], pid, world, base + |first|);
      assert a + b + [Pick(k, second[n].name)] == a + (b + [Pick(k, second[n].name)]);
      assert base + |first + second[..n]| == base + |first| + |second[..n]|;
    }
  }

  /** How many of the next executions are made: up to the first that fails. */
  function Calls(steps: nat, base: nat, world: World): (n: nat)
    ensures n <= steps
    ensures forall j :: base <= j < base + n - 1 ==> world.executions(j).Ok?
    ensures n < steps ==> n > 0 && world.executions(base + n - 1).Err?
  {
    if steps == 0 then 0
    else if world.executions(base).Err? then 1
    else 1 + Calls(steps - 1, base + 1, world)
  }

  /** Such a number is the only one. */
  lemma {:induction false} CallsIs(steps: nat, base: nat, world: World, n: nat)
    requires n <= steps && forall j :: base <= j < base + n - 1 ==> world.executions(j).Ok?
    requires n < steps ==> n > 0 && world.executions(base + n - 1).Err?
    ensures Calls(steps, base, world) == n
  {
    if steps > 0 && world.executions(base).Ok? {
      CallsIs(steps - 1, base + 1, world, n - 1);
    }
  }

  // ----- What a turn may do to the graph -----

  /** The k-th node of `ran` ended as the k-th execution (counted from `base`) did. */
  ghost predicate Recorded(g: Graph, ran: seq<nat>, base: nat, world: World) {
    forall k :: 0 <= k < |ran| ==>
      && g.Has(ran[k])
      && match world.executions(base + k)
         case Ok(output) => g.At(ran[k]).status == Completed && g.At(ran[k]).outputs == output
         case Err(message) => g.At(ran[k]).status == Failed && g.At(ran[k]).errorMessage == Some(message)
  }

  /** From `g` to `h` only the nodes in `ran` changed or appeared, each once. They were pending in
      `g` or not there, and are done in `h`. */
  ghost predicate OnlyRan(g: Graph, h: Graph, ran: seq<nat>) {
    && h.edges == g.edges
    && (forall j, k :: 0 <= j < k < |ran| ==> ran[j] != ran[k])
    && (forall i: nat :: i in ran ==> h.Has(i) && h.At(i).status.Terminal())
    && (forall i: nat :: i in ran && g.Has(i) ==> g.At(i).status == Pending)
    && (forall i: nat :: g.Has(i) ==> h.Has(i))
    && (forall i: nat :: h.Has(i) && i !in ran ==> g.Has(i) && h.At(i) == g.At(i))
  }

  lemma OnlyRanThen(g: Graph, h: Graph, k: Graph, first: seq<nat>, second: seq<nat>)
    requires OnlyRan(g, h, first) && OnlyRan(h, k, second)
    ensures OnlyRan(g, k, first + second)
  {
    var ran := first + second;
    assert forall i: nat :: i in ran <==> i in first || i in second;
    forall a, b | 0 <= a < b < |ran|
      ensures ran[a] != ran[b]
    {
      if a < |first| <= b {
        assert ran[a] in first && ran[b] in second;
      }
    }
  }

  lemma RecordedThen(h: Graph, k: Graph, first: seq<nat>, second: seq<nat>, base: nat, world: World)
    requires Recorded(h, first, base, world) && Recorded(k, second, base + |first|, world)
    requires OnlyRan(h, k, second) && forall i :: i in first ==> h.Has(i) && h.At(i).status.Terminal()
    ensures Recorded(k, first + second, base, world)
  {
    var ran := first + second;
    forall n | 0 <= n < |ran|
      ensures k.Has(ran[n])
      ensures match world.executions(base + n)
              case Ok(output) => k.At(ran[n]).status == Completed && k.At(ran[n]).outputs == output
              case Err(message) => k.At(ran[n]).status == Failed && k.At(ran[n]).errorMessage == Some(message)
    {
      if n < |first| {
        assert ran[n] in first;
      } else {
        assert ran[n] == second[n - |first|] && base + n == base + |first| + (n - |first|);
      }
    }
  }

  /** A sound graph `h` in which exactly the nodes `ran` were taken to their recorded end. */
  ghost predicate Progress(g: Graph, h: Graph, ran: seq<nat>, base: nat, world: World) {
    h.Valid() && ClaimsMatch(h) && OnlyRan(g, h, ran) && Recorded(h, ran, base, world)
  }

  lemma NoProgress(g: Graph, base: nat, world: World)
    requires g.Valid() && ClaimsMatch(g)
    ensures Progress(g, g, [], base, world)
  {
  }

  lemma ProgressKeepsValid(g: Graph, h: Graph, ran: seq<nat>, base: nat, world: World)
    requires Progress(g, h, ran, base, world)
    ensures h.Valid() && ClaimsMatch(h)
  {
  }

  lemma ProgressThen(g: Graph, h: Graph, k: Graph, first: seq<nat>, second: seq<nat>, base: nat, world: World)
    requires Progress(g, h, first, base, world) && Progress(h, k, second, base + |first|, world)
    ensures Progress(g, k, first + second, base, world)
  {
    OnlyRanThen(g, h, k, first, second);
    RecordedThen(h, k, first, second, base, world);
  }

  /** The k-th node of `ran` carries the k-th name. */
  ghost predicate Named(g: Graph, ran: seq<nat>, names: seq<string>) {
    |ran| <= |names| && forall k :: 0 <= k < |ran| ==> g.Has(ran[k]) && g.At(ran[k]).name == names[k]
  }

  lemma NamedThen(g: Graph, h: Graph, first: seq<nat>, second: seq<nat>, names: seq<string>, more: seq<string>)
    requires Named(g, first, names) && |first| == |names| && Named(h, second, more) && OnlyRan(g, h, second)
    requires forall i :: i in first ==> g.Has(i) && g.At(i).status.Terminal()
    ensures Named(h, first + second, names + more)
  {
    var ran := first + second;
    forall k | 0 <= k < |ran|
      ensures h.Has(ran[k]) && h.At(ran[k]).name == (names + more)[k]
    {
      if k < |first| {
        assert ran[k] in first && ran[k] !in second;
      }
    }
  }

  function StepNames(plan: seq<PlanStep>): (names: seq<string>)
    ensures |names| == |plan|
  {
    seq(|plan|, k requires 0 <= k < |plan| => plan[k].name)
  }

  lemma StepProgress(g: Graph, step: PlanStep, pid: nat, world: World, call: nat)
    requires g.Valid() && ClaimsMatch(g)
    ensures var h, i := Stepped(g, step, pid, world.executions(call)), Pick(g, step.name);
            Progress(g, h, [i], call, world) && h.Has(i) && h.At(i).name == step.name
  {
    PickIsPicked(g, step);
    ClaimThenFinish(g, WithPick(g, step), Pick(g, step.name), pid, world.executions(call));
  }

  /** What steps do to the graph: exactly their nodes are taken to the end their executions say, they
      carry the names of the steps, and nothing else changes. */
  lemma {:induction false} RanIsProgress(g: Graph, steps: seq<PlanStep>, pid: nat, world: World, base: nat)
    requires g.Valid() && ClaimsMatch(g)
    ensures var (h, ran) := Ran(g, steps, pid, world, base);
            Progress(g, h, ran, base, world) && Named(h, ran, StepNames(steps))
  {
    hide Progress, Named, StepNames, Graph.Valid, ClaimsMatch, Stepped, Pick;
    if steps == [] {
      NoProgress(g, base, world);
      NothingNamed(g);
    } else {
      var n := |steps| - 1;
      RanIsProgress(g, steps[..n], pid, world, base);
      var (h, ran) := Ran(g, steps[..n], pid, world, base);
      StepProgress(h, steps[n], pid, world, base + n);
      OneMore(g, h, Ran(g, steps, pid, world, base).0, ran, Pick(h, steps[n].name), base, world, steps, n);
      assert steps[..n + 1] == steps;
    }
  }

  lemma NothingNamed(g: Graph)
    ensures Named(g, [], StepNames([]))
  {
  }

  /** One more step of a plan. */
  lemma OneMore(start: Graph, before: Graph, after: Graph, ran: seq<nat>, i: nat, base: nat, world: World, plan: seq<PlanStep>, n: nat)
    requires n < |plan| && |ran| == n
    requires Progress(start, before, ran, base, world) && Named(before, ran, StepNames(plan[..n]))
    requires Progress(before, after, [i], base + n, world) && after.Has(i) && after.At(i).name == plan[n].name
    ensures Progress(start, after, ran + [i], base, world)
    ensures Named(after, ran + [i], StepNames(plan[..n + 1]))
  {
    hide *;
    ProgressThen(start, before, after, ran, [i], base, world);
    RanIsDone(start, before, ran, base, world);
    RanIsDone(before, after, [i], base + n, world);
    OneNamed(after, i, plan[n].name);
    NamedThen(before, after, ran, [i], StepNames(plan[..n]), [plan[n].name]);
    NamesGrow(plan, n);
  }

  lemma OneNamed(g: Graph, i: nat, name: string)
    requires g.Has(i) && g.At(i).name == name
    ensures Named(g, [i], [name])
  {
  }

  lemma NamesGrow(plan: seq<PlanStep>, n: nat)
    requires n < |plan|
    ensures StepNames(plan[..n + 1]) == StepNames(plan[..n]) + [plan[n].name]
  {
  }

  lemma RanIsDone(g: Graph, h: Graph, ran: seq<nat>, base: nat, world: World)
    requires Progress(g, h, ran, base, world)
    ensures forall i :: i in ran ==> h.Has(i) && h.At(i).status.Terminal()
    ensures OnlyRan(g, h, ran)
  {
  }

  // ----- The turn on values -----

  predicate GoodPlan(reply: Result<seq<PlanStep>, AgentError>) {
    reply.Ok? && 1 <= |reply.value| <= MAX_STEPS
  }

  /** The error that ends a turn at a plan that is not good. */
  function PlanError(reply: Result<seq<PlanStep>, AgentError>): AgentError
    requires !GoodPlan(reply)
  {
    if reply.Err? then reply.error
    else Planning(if reply.value == [] then "planner returned an empty plan" else "planner returned too many steps")
  }

  /** The outcome that ends a turn after a plan whose last execution was number `calls`: a failed step, or
      what the critic says; None when the critic reflects. */
  function Verdict(world: World, plan: nat, calls: nat): Option<Result<TurnOutcome, AgentError>>
    requires calls > 0
  {
    match world.executions(calls - 1)
    case Err(message) => Some(Ok(TurnFailed(ExecutionError(Execution(message)))))
    case Ok(last) =>
      match world.critiques(plan)
      case Err(e) => Some(Err(e))
      case Ok(Accept) => Some(Ok(Success(last)))
      case Ok(Reject(reason)) => Some(Ok(TurnFailed(CriticRejected(reason))))
      case Ok(Reflect(_)) => None
  }

  /** Outcome, number of plans and number of executions of a turn that has made `plans` plans and
      `calls` executions. */
  function Turn(world: World, plans: nat, calls: nat): (r: (Result<TurnOutcome, AgentError>, nat, nat))
    requires plans <= MAX_REFLECTIONS
    decreases MAX_REFLECTIONS - plans
  {
    if plans == MAX_REFLECTIONS then (Ok(ReflectionsExhausted), plans, calls)
    else
      var reply := world.plans(plans);
      if !GoodPlan(reply) then (Err(PlanError(reply)), plans + 1, calls)
      else
        var more := calls + Calls(|reply.value|, calls, world);
        var verdict := Verdict(world, plans, more);
        if verdict.Some? then (verdict.value, plans + 1, more) else Turn(world, plans + 1, more)
  }

  /** The steps of the first `n` plans, in order; a plan that is refused has none. */
  function PlannedSteps(world: World, n: nat): (steps: seq<PlanStep>)
    ensures |steps| <= n * MAX_STEPS
  {
    if n == 0 then []
    else PlannedSteps(world, n - 1) + if GoodPlan(world.plans(n - 1)) then world.plans(n - 1).value else []
  }

  // ----- The turn -----

  /** The planner's own check of the reply it got. */
  method Plan(reply: Result<seq<PlanStep>, AgentError>) returns (r: Result<seq<PlanStep>, AgentError>)
    ensures r.Ok? <==> reply.Ok? && 1 <= |reply.value| <= MAX_STEPS
    ensures r.Ok? ==> r == reply
    ensures reply.Err? ==> r == reply
    ensures reply.Ok? && r.Err? ==> r.error.Planning?
    ensures r.Ok? <==> GoodPlan(reply)
    ensures r.Err? ==> r.error == PlanError(reply)
  {
    if reply.Err? {
      return reply;
    }
    if |reply.value| == 0 {
      return Err(Planning("planner returned an empty plan"));
    }
    if |reply.value| > MAX_STEPS {
      return Err(Planning("planner returned too many steps"));
    }
    return reply;
  }

  method FindOrAddNode(dag: DagGraph, name: string, inputs: Payload) returns (i: nat)
    requires dag.Valid()
    modifies dag
    ensures dag.Valid()
    ensures IsFirstPending(old(dag.View()), name, i) ==> dag.View() == old(dag.View())
    ensures !IsFirstPending(old(dag.View()), name, i) ==>
              && (forall j: nat :: !IsFirstPending(old(dag.View()), name, j))
              && i == NextIndex(old(dag.View()))
              && dag.View() == AfterAddNode(old(dag.View()), FreshNode(name, inputs))
  {
    for k := 0 to |dag.slots|
      invariant dag.View() == old(dag.View())
      invariant forall j: nat :: j < k && dag.View().Has(j) && dag.View().At(j).name == name ==>
                  dag.View().At(j).status != Pending
    {
      if dag.slots[k].Some? && dag.slots[k].value.name == name && dag.slots[k].value.status == Pending {
        return k;
      }
    }
    AddNodeKeepsValid(dag.View(), FreshNode(name, inputs));
    i := dag.AddNode(FreshNode(name, inputs));
  }

  lemma FoundIsPick(g: Graph, name: string, i: nat)
    requires IsFirstPending(g, name, i) || ((forall j: nat :: !IsFirstPending(g, name, j)) && i == NextIndex(g))
    ensures i == Pick(g, name)
    ensures HasPending(g, name) <==> IsFirstPending(g, name, i)
  {
    PickIs(g, name);
  }

  /** One step: pick the node, claim it, execute, then complete or fail it. With claims that match
      the running nodes, neither the claim nor the completion can be refused. */
  method ExecuteStep(step: PlanStep, dag: DagGraph, pid: nat, world: World, call: nat)
    returns (r: Result<Payload, AgentError>, i: nat)
    requires dag.Valid() && ClaimsMatch(dag.View())
    modifies dag
    ensures dag.View() == Stepped(old(dag.View()), step, pid, world.executions(call))
    ensures i == Pick(old(dag.View()), step.name)
    ensures IsFirstPending(old(dag.View()), step.name, i)
            || ((forall j: nat :: !IsFirstPending(old(dag.View()), step.name, j)) && i == NextIndex(old(dag.View())))
    ensures Progress(old(dag.View()), dag.View(), [i], call, world)
    ensures dag.View().Has(i) && dag.View().At(i).name == step.name
    ensures r == match world.executions(call) case Ok(v) => Ok(v) case Err(m) => Err(Execution(m))
  {
    hide Progress;
    ghost var before := dag.View();
    StepProgress(before, step, pid, world, call);
    PickIsPicked(before, step);
    i := FindOrAddNode(dag, step.name, step.inputs);
    ghost var picked := dag.View();
    FoundIsPick(before, step.name, i);
    assert picked == WithPick(before, step);
    ClaimThenFinish(before, picked, i, pid, world.executions(call));
    var claimed := dag.Claim(i, pid);
    if claimed.Err? {
      assert false;
    }
    match world.executions(call) {
      case Ok(output) =>
        var completed := dag.Complete(i, output);
        if completed.Err? {
          assert false;
        }
        r := Ok(output);
      case Err(message) =>
        dag.Fail(i, message);
        r := Err(Execution(message));
    }
    assert dag.View() == AfterRound(picked, Round(i, pid, world.executions(call)));
  }

  /** Every step in order, up to the first that fails. */
  method ExecutePlan(plan: seq<PlanStep>, dag: DagGraph, pid: nat, world: World, base: nat)
    returns (r: Result<seq<Payload>, AgentError>, ran: seq<nat>)
    requires dag.Valid() && ClaimsMatch(dag.View())
    modifies dag
    ensures |ran| == Calls(|plan|, base, world)
    ensures forall j :: base <= j < base + |ran| - 1 ==> world.executions(j).Ok?
    ensures (dag.View(), ran) == Ran(old(dag.View()), plan[..|ran|], pid, world, base)
    ensures Progress(old(dag.View()), dag.View(), ran, base, world)
    ensures Named(dag.View(), ran, StepNames(plan[..|ran|]))
    ensures r.Ok? ==>
              && |r.value| == |ran| == |plan|
              && forall k :: 0 <= k < |plan| ==> world.executions(base + k) == Ok(r.value[k])
    ensures r.Err? ==>
              && ran != [] && r.error.Execution?
              && world.executions(base + |ran| - 1) == Err(r.error.detail)
  {
    hide Progress, Named, StepNames, Graph.Valid, ClaimsMatch, Stepped, Pick, Ran, Calls;
    ghost var start := dag.View();
    var results := [];
    ran := [];
    RanNothing(start, pid, world, base);
    for n := 0 to |plan|
      invariant |results| == |ran| == n && (dag.View(), ran) == Ran(start, plan[..n], pid, world, base)
      invariant forall k :: 0 <= k < n ==> world.executions(base + k) == Ok(results[k])
    {
      RanOneMore(start, plan[..n], plan[n], pid, world, base);
      var reply, i := ExecuteStep(plan[n], dag, pid, world, base + n);
      ran := ran + [i];
      assert plan[..n] + [plan[n]] == plan[..n + 1];
      if reply.Err? {
        RanIsProgress(start, plan[..n + 1], pid, world, base);
        AllBefore(world, base, results);
        CallsIs(|plan|, base, world, n + 1);
        return Err(reply.error), ran;
      }
      results := results + [reply.value];
    }
    RanIsProgress(start, plan, pid, world, base);
    assert plan[..|plan|] == plan;
    AllBefore(world, base, results);
    CallsIs(|plan|, base, world, |plan|);
    return Ok(results), ran;
  }

  lemma RanNothing(g: Graph, pid: nat, world: World, base: nat)
    requires g.Valid() && ClaimsMatch(g)
    ensures Ran(g, [], pid, world, base) == (g, [])
  {
  }

  lemma AllBefore(world: World, base: nat, results: seq<Payload>)
    requires forall k :: 0 <= k < |results| ==> world.executions(base + k) == Ok(results[k])
    ensures forall j :: base <= j < base + |results| ==> world.executions(j).Ok?
  {
    forall j | base <= j < base + |results|
      ensures world.executions(j).Ok?
    {
      assert world.executions(base + (j - base)) == Ok(results[j - base]);
    }
  }

  /** From `g` to `h` the turn has run the first steps of the first plans: `ran` are their nodes. */
  ghost predicate Followed(g: Graph, h: Graph, ran: seq<nat>, pid: nat, world: World, plans: nat)
    requires g.Valid() && ClaimsMatch(g)
  {
    && |ran| <= |PlannedSteps(world, plans)|
    && var steps := PlannedSteps(world, plans)[..|ran|];
       && (h, ran) == Ran(g, steps, pid, world, 0)
       && Progress(g, h, ran, 0, world) && Named(h, ran, StepNames(steps))
  }

  lemma NothingFollowed(g: Graph, pid: nat, world: World)
    requires g.Valid() && ClaimsMatch(g)
    ensures Followed(g, g, [], pid, world, 0) && PlannedSteps(world, 0) == []
  {
    hide Progress, Named, StepNames, Graph.Valid, ClaimsMatch;
    NoProgress(g, 0, world);
    NothingNamed(g);
  }

  /** A plan that is not good adds no steps. */
  lemma NothingMoreFollowed(g: Graph, h: Graph, ran: seq<nat>, pid: nat, world: World, plans: nat)
    requires g.Valid() && ClaimsMatch(g) && Followed(g, h, ran, pid, world, plans) && !GoodPlan(world.plans(plans))
    ensures Followed(g, h, ran, pid, world, plans + 1)
  {
    hide Progress, Named, StepNames, Graph.Valid, ClaimsMatch, Ran;
    MorePlanned(world, plans);
    var steps := PlannedSteps(world, plans);
    assert steps + [] == steps;
  }

  /** All steps so far, and then the first steps of one more plan. */
  lemma MoreFollowed(g: Graph, h: Graph, k: Graph, ran: seq<nat>, more: seq<nat>, pid: nat, world: World, plans: nat)
    requires g.Valid() && ClaimsMatch(g) && h.Valid() && ClaimsMatch(h)
    requires Followed(g, h, ran, pid, world, plans) && |ran| == |PlannedSteps(world, plans)|
    requires GoodPlan(world.plans(plans)) && |more| <= |world.plans(plans).value|
    requires (k, more) == Ran(h, world.plans(plans).value[..|more|], pid, world, |ran|)
    ensures Followed(g, k, ran + more, pid, world, plans + 1)
    ensures |PlannedSteps(world, plans + 1)| == |PlannedSteps(world, plans)| + |world.plans(plans).value|
  {
    hide Progress, Named, StepNames, Graph.Valid, ClaimsMatch, Ran;
    var steps, first := PlannedSteps(world, plans), world.plans(plans).value[..|more|];
    MorePlanned(world, plans);
    assert steps[..|ran|] == steps;
    assert PlannedSteps(world, plans + 1)[..|ran + more|] == steps + first;
    RanThen(g, steps, first, pid, world, 0);
    RanIsProgress(g, steps + first, pid, world, 0);
  }

  lemma FollowedIsBounded(g: Graph, h: Graph, ran: seq<nat>, pid: nat, world: World, plans: nat)
    requires g.Valid() && ClaimsMatch(g) && Followed(g, h, ran, pid, world, plans)
    ensures |ran| <= |PlannedSteps(world, plans)| <= plans * MAX_STEPS && h.Valid() && ClaimsMatch(h)
  {
    hide Graph.Valid, ClaimsMatch, OnlyRan, Recorded, Named, Ran;
  }

  /** What the turn is after one more plan has run. */
  lemma RoundFollowed(g: Graph, h: Graph, k: Graph, ran: seq<nat>, more: seq<nat>, pid: nat, world: World, plans: nat)
    requires g.Valid() && ClaimsMatch(g) && h.Valid() && ClaimsMatch(h) && plans < MAX_REFLECTIONS
    requires Followed(g, h, ran, pid, world, plans) && |ran| == |PlannedSteps(world, plans)|
    requires GoodPlan(world.plans(plans)) && |more| == Calls(|world.plans(plans).value|, |ran|, world)
    requires (k, more) == Ran(h, world.plans(plans).value[..|more|], pid, world, |ran|)
    ensures Followed(g, k, ran + more, pid, world, plans + 1) && k.Valid() && ClaimsMatch(k)
    ensures 0 < |ran + more| <= MAX_REFLECTIONS * MAX_STEPS
    ensures |more| == |world.plans(plans).value| ==> |ran + more| == |PlannedSteps(world, plans + 1)|
    ensures var verdict := Verdict(world, plans, |ran + more|);
            Turn(world, plans, |ran|) ==
              if verdict.Some? then (verdict.value, plans + 1, |ran + more|) else Turn(world, plans + 1, |ran + more|)
  {
    hide Followed, Graph.Valid, ClaimsMatch, Ran, Calls, PlannedSteps, Turn, GoodPlan, Verdict;
    TurnWithPlan(world, plans, |ran|);
    MoreFollowed(g, h, k, ran, more, pid, world, plans);
    FollowedIsBounded(g, k, ran + more, pid, world, plans + 1);
  }

  /** Plan, execute, critique. `plans` and `ran` count the requests made.

      Outcome and counts are the function `Turn` of the replies, and the graph is what the steps of the
      plans make of it in order. The turn never fails on a claim, a lookup or a completion. */
  method RunTurn(dag: DagGraph, pid: nat, world: World)
    returns (r: Result<TurnOutcome, AgentError>, plans: nat, ran: seq<nat>)
    requires dag.Valid() && ClaimsMatch(dag.View())
    modifies dag
    ensures (r, plans, |ran|) == Turn(world, 0, 0)
    ensures 1 <= plans <= MAX_REFLECTIONS && |ran| <= MAX_REFLECTIONS * MAX_STEPS
    ensures Followed(old(dag.View()), dag.View(), ran, pid, world, plans)
    ensures dag.Valid() && ClaimsMatch(dag.View())
  {
    hide Followed, Graph.Valid, ClaimsMatch, Ran, Calls, PlannedSteps, Turn, PlanError, GoodPlan, Progress, Named, StepNames, DagGraph.View;
    ghost var start := dag.View();
    var iteration := 0;
    plans, ran := 0, [];
    NothingFollowed(start, pid, world);
    while true
      invariant iteration == plans <= MAX_REFLECTIONS && |ran| == |PlannedSteps(world, plans)|
      invariant Turn(world, 0, 0) == Turn(world, plans, |ran|)
      invariant Followed(start, dag.View(), ran, pid, world, plans)
      decreases MAX_REFLECTIONS - iteration
    {
      ghost var before := dag.View();
      FollowedIsBounded(start, before, ran, pid, world, plans);
      iteration := iteration + 1;
      if iteration > MAX_REFLECTIONS {
        TurnExhausted(world, |ran|);
        return Ok(ReflectionsExhausted), plans, ran;
      }
      var plan := Plan(world.plans(plans));
      if plan.Err? {
        TurnWithoutPlan(world, plans, |ran|);
        NothingMoreFollowed(start, before, ran, pid, world, plans);
        return Err(plan.error), plans + 1, ran;
      }
      var results, more := ExecutePlan(plan.value, dag, pid, world, |ran|);
      RoundFollowed(start, before, dag.View(), ran, more, pid, world, plans);
      plans, ran := plans + 1, ran + more;
      if results.Err? {
        return Ok(TurnFailed(ExecutionError(results.error))), plans, ran;
      }
      assert world.executions(|ran| - 1) == Ok(results.value[|more| - 1]);
      var critique := world.critiques(plans - 1);
      if critique.Err? {
        return Err(critique.error), plans, ran;
      }
      match critique.value {
        case Accept =>
          return Ok(Success(results.value[|results.value| - 1])), plans, ran;
        case Reject(reason) =>
          return Ok(TurnFailed(CriticRejected(reason))), plans, ran;
        case Reflect(_) =>
      }
    }
  }

  lemma TurnExhausted(world: World, calls: nat)
    ensures Turn(world, MAX_REFLECTIONS, calls) == (Ok(ReflectionsExhausted), MAX_REFLECTIONS, calls)
  {
  }

  lemma TurnWithoutPlan(world: World, plans: nat, calls: nat)
    requires plans < MAX_REFLECTIONS && !GoodPlan(world.plans(plans))
    ensures Turn(world, plans, calls) == (Err(PlanError(world.plans(plans))), plans + 1, calls)
  {
  }

  lemma TurnWithPlan(world: World, plans: nat, calls: nat)
    requires plans < MAX_REFLECTIONS && GoodPlan(world.plans(plans))
    ensures var more := calls + Calls(|world.plans(plans).value|, calls, world);
            && more > calls
            && var verdict := Verdict(world, plans, more);
               Turn(world, plans, calls) == if verdict.Some? then (verdict.value, plans + 1, more) else Turn(world, plans + 1, more)
  {
    hide Verdict, PlanError, Calls;
  }

  lemma NothingPlanned(world: World)
    ensures PlannedSteps(world, 0) == []
  {
  }

  lemma MorePlanned(world: World, n: nat)
    ensures PlannedSteps(world, n + 1) == PlannedSteps(world, n) + if GoodPlan(world.plans(n)) then world.plans(n).value else []
  {
  }
}
