/** What the replies decide in a supervisor turn, and what a turn does to the order of the graph. */
module SupervisorLaws {
  import opened Dag
  import opened DagLaws
  import opened Paths
  import opened Supervisor
  import opened Wrappers
  import Json

  // ----- The outcome follows the replies -----

  /** The turn goes as far as plan `k`: all plans before are good, all their steps succeed, and the
      critic reflects on each. */
  ghost predicate Reached(world: World, k: nat) {
    && (forall j :: 0 <= j < k ==> GoodPlan(world.plans(j)) && world.critiques(j).Ok? && world.critiques(j).value.Reflect?)
    && (forall j :: 0 <= j < |PlannedSteps(world, k)| ==> world.executions(j).Ok?)
  }

  /** The reply ends the turn with error `e`: the planner's own, or for a plan of the wrong size. */
  predicate PlanRefused(reply: Result<seq<PlanStep>, AgentError>, e: AgentError) {
    if reply.Err? then e == reply.error
    else if |reply.value| == 0 then e == Planning("planner returned an empty plan")
    else |reply.value| > 16 && e == Planning("planner returned too many steps")
  }

  /** The critic's answer ends the turn with `r`, after a last step with result `last`. */
  predicate CriticEnds(answer: Result<Decision, AgentError>, last: Payload, r: Result<TurnOutcome, AgentError>) {
    && (answer.Err? ==> r == Err(answer.error))
    && (answer.Ok? && answer.value.Accept? ==> r == Ok(Success(last)))
    && (answer.Ok? && answer.value.Reject? ==> r == Ok(TurnFailed(CriticRejected(answer.value.reason))))
    && !(answer.Ok? && answer.value.Reflect?)
  }

  /** The turn has gone as far as plan `k` and ends there, after `calls` executions: the reflections are
      used up, the plan is refused, its last step that ran failed, or the critic ends it. */
  ghost predicate EndsAt(world: World, k: nat, r: Result<TurnOutcome, AgentError>, calls: nat) {
    var before := |PlannedSteps(world, k)|;
    if k == MAX_REFLECTIONS then r == Ok(ReflectionsExhausted) && calls == before
    else if !GoodPlan(world.plans(k)) then r.Err? && PlanRefused(world.plans(k), r.error) && calls == before
    else
      && before < calls <= before + |world.plans(k).value|
      && (forall j :: before <= j < calls - 1 ==> world.executions(j).Ok?)
      && match world.executions(calls - 1)
         case Err(message) => r == Ok(TurnFailed(ExecutionError(Execution(message))))
         case Ok(last) => calls == before + |world.plans(k).value| && CriticEnds(world.critiques(k), last, r)
  }

  lemma {:induction false} ReachedTurn(world: World, k: nat)
    requires k <= MAX_REFLECTIONS && Reached(world, k)
    ensures Turn(world, 0, 0) == Turn(world, k, |PlannedSteps(world, k)|)
  {
    hide Turn, Reached;
    if k == 0 {
      NothingPlanned(world);
    } else {
      ReachedBefore(world, k - 1);
      ReachedTurn(world, k - 1);
      var before, n := |PlannedSteps(world, k - 1)|, |world.plans(k - 1).value|;
      MorePlanned(world, k - 1);
      CallsIs(n, before, world, n);
      TurnWithPlan(world, k - 1, before);
    }
  }

  lemma ReachedBefore(world: World, k: nat)
    requires Reached(world, k + 1)
    ensures Reached(world, k) && GoodPlan(world.plans(k)) && world.critiques(k).Ok? && world.critiques(k).value.Reflect?
    ensures forall j :: 0 <= j < |PlannedSteps(world, k + 1)| ==> world.executions(j).Ok?
  {
    MorePlanned(world, k);
  }

  lemma EndIsTurn(world: World, k: nat, r: Result<TurnOutcome, AgentError>, calls: nat)
    requires k <= MAX_REFLECTIONS && EndsAt(world, k, r, calls)
    ensures Turn(world, k, |PlannedSteps(world, k)|) == (r, if k == MAX_REFLECTIONS then k else k + 1, calls)
  {
    hide Turn, PlannedSteps;
    var before := |PlannedSteps(world, k)|;
    if k == MAX_REFLECTIONS {
      TurnExhausted(world, before);
    } else if !GoodPlan(world.plans(k)) {
      TurnWithoutPlan(world, k, before);
    } else {
      CallsIs(|world.plans(k).value|, before, world, calls - before);
      TurnWithPlan(world, k, before);
    }
  }

  lemma {:induction false} TurnEndsSomewhere(world: World, k: nat)
    requires k <= MAX_REFLECTIONS && Reached(world, k)
    ensures var (r, _, calls) := Turn(world, k, |PlannedSteps(world, k)|);
            exists j: nat :: j <= MAX_REFLECTIONS && Reached(world, j) && EndsAt(world, j, r, calls)
    decreases MAX_REFLECTIONS - k
  {
    hide Turn, PlannedSteps, Reached;
    var before := |PlannedSteps(world, k)|;
    var (r, _, calls) := Turn(world, k, before);
    if k == MAX_REFLECTIONS {
      TurnExhausted(world, before);
      assert EndsAt(world, k, r, calls);
    } else if !GoodPlan(world.plans(k)) {
      TurnWithoutPlan(world, k, before);
      assert EndsAt(world, k, r, calls);
    } else {
      TurnWithPlan(world, k, before);
      var n := Calls(|world.plans(k).value|, before, world);
      if world.executions(before + n - 1).Ok? && world.critiques(k).Ok? && world.critiques(k).value.Reflect? {
        ReachedNext(world, k);
        MorePlanned(world, k);
        TurnEndsSomewhere(world, k + 1);
      } else {
        assert EndsAt(world, k, r, calls);
      }
    }
  }

  lemma ReachedNext(world: World, k: nat)
    requires Reached(world, k) && GoodPlan(world.plans(k)) && world.critiques(k).Ok? && world.critiques(k).value.Reflect?
    requires var before, n := |PlannedSteps(world, k)|, |world.plans(k).value|;
             var calls := Calls(n, before, world);
             calls > 0 && world.executions(before + calls - 1).Ok?
    ensures Reached(world, k + 1)
  {
    MorePlanned(world, k);
  }

  /** For all replies: a turn has an outcome after so many plans and executions exactly when it gets as
      far as some plan and ends there with that outcome. */
  lemma TurnExactly(world: World, r: Result<TurnOutcome, AgentError>, plans: nat, calls: nat)
    ensures Turn(world, 0, 0) == (r, plans, calls) <==>
            exists k: nat :: k <= MAX_REFLECTIONS && Reached(world, k) && EndsAt(world, k, r, calls)
                             && plans == if k == MAX_REFLECTIONS then k else k + 1
  {
    hide Turn, Reached, EndsAt;
    forall k: nat | k <= MAX_REFLECTIONS && Reached(world, k) && EndsAt(world, k, r, calls)
      ensures Turn(world, 0, 0) == (r, if k == MAX_REFLECTIONS then k else k + 1, calls)
    {
      ReachedTurn(world, k);
      EndIsTurn(world, k, r, calls);
    }
    if Turn(world, 0, 0) == (r, plans, calls) {
      NothingReached(world);
      TurnEndsSomewhere(world, 0);
    }
  }

  lemma NothingReached(world: World)
    ensures Reached(world, 0) && |PlannedSteps(world, 0)| == 0
  {
  }

  // ----- One law for each outcome -----

  /** Plan `k` is good and its steps succeed, so that the critic is asked. */
  ghost predicate Judged(world: World, k: nat) {
    && GoodPlan(world.plans(k))
    && forall j :: 0 <= j < |PlannedSteps(world, k + 1)| ==> world.executions(j).Ok?
  }

  lemma JudgedIsEnd(world: World, k: nat, r: Result<TurnOutcome, AgentError>)
    requires k < MAX_REFLECTIONS && Reached(world, k) && Judged(world, k)
    ensures |PlannedSteps(world, k + 1)| > 0
    ensures CriticEnds(world.critiques(k), world.executions(|PlannedSteps(world, k + 1)| - 1).value, r) ==>
              Turn(world, 0, 0).0 == r
  {
    hide Turn, CriticEnds;
    MorePlanned(world, k);
    var all := |PlannedSteps(world, k + 1)|;
    assert world.executions(all - 1).Ok?;
    if CriticEnds(world.critiques(k), world.executions(all - 1).value, r) {
      assert EndsAt(world, k, r, all);
      TurnExactly(world, r, k + 1, all);
    }
  }

  /** Where and how a turn ends. */
  lemma TheEnd(world: World) returns (k: nat, calls: nat)
    ensures k <= MAX_REFLECTIONS && Reached(world, k) && EndsAt(world, k, Turn(world, 0, 0).0, calls)
    ensures k < MAX_REFLECTIONS && GoodPlan(world.plans(k)) ==>
              && |PlannedSteps(world, k)| < calls <= |PlannedSteps(world, k + 1)|
              && (world.executions(calls - 1).Ok? ==>
                    && Judged(world, k) && calls == |PlannedSteps(world, k + 1)|
                    && CriticEnds(world.critiques(k), world.executions(calls - 1).value, Turn(world, 0, 0).0))
  {
    hide Turn, CriticEnds, PlanRefused;
    var (r, plans, n) := Turn(world, 0, 0);
    TurnExactly(world, r, plans, n);
    k :| k <= MAX_REFLECTIONS && Reached(world, k) && EndsAt(world, k, r, n);
    calls := n;
    if k < MAX_REFLECTIONS {
      MorePlanned(world, k);
    }
  }

  /** Plan `k` is good, its steps succeed, the last with `v`, and the critic accepts. */
  ghost predicate SucceedsAt(world: World, k: nat, v: Payload) {
    && Judged(world, k) && world.critiques(k) == Ok(Accept) && |PlannedSteps(world, k + 1)| > 0
    && world.executions(|PlannedSteps(world, k + 1)| - 1) == Ok(v)
  }

  /** A turn succeeds with `v` exactly when one of the plans is reached and succeeds with `v`. */
  lemma SuccessExactly(world: World, v: Payload)
    ensures Turn(world, 0, 0).0 == Ok(Success(v)) <==>
            exists k: nat :: k < MAX_REFLECTIONS && Reached(world, k) && SucceedsAt(world, k, v)
  {
    hide Turn, Reached, Judged;
    if Turn(world, 0, 0).0 == Ok(Success(v)) {
      var k, calls := TheEnd(world);
      assert SucceedsAt(world, k, v);
    }
    if k: nat :| k < MAX_REFLECTIONS && Reached(world, k) && SucceedsAt(world, k, v) {
      JudgedIsEnd(world, k, Ok(Success(v)));
    }
  }

  /** A turn is rejected for a reason exactly when a plan is reached and good, all its steps succeed and
      the critic rejects it for that reason. */
  lemma RejectedExactly(world: World, reason: string)
    ensures Turn(world, 0, 0).0 == Ok(TurnFailed(CriticRejected(reason))) <==>
            exists k: nat :: k < MAX_REFLECTIONS && Reached(world, k) && Judged(world, k) && world.critiques(k) == Ok(Reject(reason))
  {
    hide Turn, Reached, Judged;
    if Turn(world, 0, 0).0 == Ok(TurnFailed(CriticRejected(reason))) {
      var k, calls := TheEnd(world);
      assert Judged(world, k);
    }
    if k: nat :| k < MAX_REFLECTIONS && Reached(world, k) && Judged(world, k) && world.critiques(k) == Ok(Reject(reason)) {
      JudgedIsEnd(world, k, Ok(TurnFailed(CriticRejected(reason))));
    }
  }

  /** Execution `n` is for a step of the good plan `k`, it is the first that fails, and this is its message. */
  ghost predicate FailsAt(world: World, k: nat, n: nat, message: string) {
    && GoodPlan(world.plans(k))
    && |PlannedSteps(world, k)| <= n < |PlannedSteps(world, k + 1)|
    && (forall j :: 0 <= j < n ==> world.executions(j).Ok?)
    && world.executions(n) == Err(message)
  }

  /** A turn fails with an execution's message exactly when that execution is the first that fails, for a
      step of a good plan that is reached. */
  lemma ExecutionFailedExactly(world: World, e: AgentError)
    ensures Turn(world, 0, 0).0 == Ok(TurnFailed(ExecutionError(e))) <==>
            exists k: nat, n: nat, message: string ::
              k < MAX_REFLECTIONS && Reached(world, k) && FailsAt(world, k, n, message) && e == Execution(message)
  {
    hide Turn;
    if Turn(world, 0, 0).0 == Ok(TurnFailed(ExecutionError(e))) {
      var k, calls := TheEnd(world);
      assert FailsAt(world, k, calls - 1, e.detail);
    }
    if k: nat, n: nat, message: string :|
      k < MAX_REFLECTIONS && Reached(world, k) && FailsAt(world, k, n, message) && e == Execution(message)
    {
      MorePlanned(world, k);
      assert EndsAt(world, k, Ok(TurnFailed(ExecutionError(e))), n + 1);
      TurnExactly(world, Ok(TurnFailed(ExecutionError(e))), k + 1, n + 1);
    }
  }

  /** A turn ends in an error exactly when a plan is reached and refused with it, or good and executed
      and the critic fails with it. */
  lemma ErrorExactly(world: World, e: AgentError)
    ensures Turn(world, 0, 0).0 == Err(e) <==>
            exists k: nat :: k < MAX_REFLECTIONS && Reached(world, k)
                             && (PlanRefused(world.plans(k), e) || (Judged(world, k) && world.critiques(k) == Err(e)))
  {
    hide Turn, Reached;
    if Turn(world, 0, 0).0 == Err(e) {
      var k, calls := TheEnd(world);
      assert k < MAX_REFLECTIONS;
    }
    if k: nat :| k < MAX_REFLECTIONS && Reached(world, k)
                 && (PlanRefused(world.plans(k), e) || (Judged(world, k) && world.critiques(k) == Err(e)))
    {
      if PlanRefused(world.plans(k), e) {
        assert EndsAt(world, k, Err(e), |PlannedSteps(world, k)|);
        TurnExactly(world, Err(e), k + 1, |PlannedSteps(world, k)|);
      } else {
        JudgedIsEnd(world, k, Err(e));
      }
    }
  }

  /** A turn exhausts its reflections exactly when the critic reflects on three good plans whose steps all
      succeed. */
  lemma ExhaustedExactly(world: World)
    ensures Turn(world, 0, 0).0 == Ok(ReflectionsExhausted) <==> Reached(world, 3)
  {
    hide Turn, Reached, Judged;
    if Turn(world, 0, 0).0 == Ok(ReflectionsExhausted) {
      var k, calls := TheEnd(world);
      assert k == 3;
    }
    if Reached(world, 3) {
      assert EndsAt(world, 3, Ok(ReflectionsExhausted), |PlannedSteps(world, 3)|);
      TurnExactly(world, Ok(ReflectionsExhausted), 3, |PlannedSteps(world, 3)|);
    }
  }

  /** All executions of a turn but the last succeeded. */
  lemma TurnStopsAtFailure(world: World)
    ensures var (_, plans, calls) := Turn(world, 0, 0);
            && calls <= |PlannedSteps(world, plans)|
            && forall j :: 0 <= j < calls - 1 ==> world.executions(j).Ok?
  {
    hide Turn, PlannedSteps, PlanError;
    var (r, plans, calls) := Turn(world, 0, 0);
    TurnExactly(world, r, plans, calls);
    var k: nat :| k <= MAX_REFLECTIONS && Reached(world, k) && EndsAt(world, k, r, calls)
                  && plans == if k == MAX_REFLECTIONS then k else k + 1;
    if k < MAX_REFLECTIONS {
      MorePlanned(world, k);
    }
  }

  // ----- The node of a step -----

  /** The node a step leaves: a node that was found keeps its inputs, a new one has those of the step. A
      success sets the outputs and clears the message, a failure sets the message alone. */
  lemma StepNode(g: Graph, step: PlanStep, pid: nat, outcome: Result<Payload, string>)
    requires g.Valid() && ClaimsMatch(g)
    ensures var h, i := Stepped(g, step, pid, outcome), Pick(g, step.name);
            var found := g.Has(i) && IsFirstPending(g, step.name, i);
            && h.Has(i) && h.At(i).name == step.name && h.At(i).claimedBy == None
            && h.At(i).inputs == (if found then g.At(i).inputs else step.inputs)
            && (outcome.Ok? ==> h.At(i).status == Completed && h.At(i).outputs == outcome.value && h.At(i).errorMessage == None)
            && (outcome.Err? ==> h.At(i).status == Failed && h.At(i).errorMessage == Some(outcome.error)
                                 && h.At(i).outputs == if found then g.At(i).outputs else Json.Null)
  {
    PickIs(g, step.name);
    PickIsPicked(g, step);
    AddNodeKeepsValid(g, FreshNode(step.name, step.inputs));
    ClaimThenFinish(g, WithPick(g, step), Pick(g, step.name), pid, outcome);
  }

  // ----- What a turn leaves alone -----

  /** What `OnlyRan` means for a caller: nothing new is left running, and no node that was
      running or done before the turn has changed. */
  lemma TurnLeavesOthersAlone(g: Graph, h: Graph, ran: seq<nat>)
    requires OnlyRan(g, h, ran)
    ensures forall i: nat :: h.Has(i) && h.At(i).status == Running ==> g.Has(i) && g.At(i) == h.At(i)
    ensures forall i: nat :: g.Has(i) && g.At(i).status != Pending ==> h.Has(i) && h.At(i) == g.At(i)
  {
  }

  // ----- Predecessors -----

  /** Node `p` is done before the nodes after `ran`: it ran, or it was completed from the start. */
  predicate DoneBefore(g: Graph, ran: seq<nat>, p: nat) {
    p in ran || (g.Has(p) && g.At(p).status == Completed)
  }

  lemma {:induction false} RanInParts(g: Graph, steps: seq<PlanStep>, pid: nat, world: World, base: nat, k: nat)
    requires g.Valid() && ClaimsMatch(g) && k < |steps|
    ensures var (h, before) := Ran(g, steps[..k], pid, world, base);
            var ran := Ran(g, steps, pid, world, base).1;
            before == ran[..k] && Pick(h, steps[k].name) == ran[k]
  {
    hide *;
    var h := Ran(g, steps[..k], pid, world, base).0;
    RanOneMore(g, steps[..k], steps[k], pid, world, base);
    RanThen(g, steps[..k] + [steps[k]], steps[k + 1..], pid, world, base);
    assert steps == steps[..k] + [steps[k]] + steps[k + 1..];
  }

  /** A step whose predecessors in the run succeeded runs its node after all the node's predecessors
      exactly when each of them is among the nodes that ran before or was completed from the start. */
  lemma PickIsReadyExactly(g: Graph, steps: seq<PlanStep>, pid: nat, world: World, base: nat, k: nat)
    requires g.Valid() && ClaimsMatch(g) && k < |steps|
    requires forall j :: base <= j < base + k ==> world.executions(j).Ok?
    ensures var h, ran := Ran(g, steps[..k], pid, world, base).0, Ran(g, steps, pid, world, base).1;
            WithPick(h, steps[k]).Ready(ran[k]) <==>
            forall p: nat :: Edge(p, ran[k]) in g.edges ==> DoneBefore(g, ran[..k], p)
  {
    hide Ran, Pick, WithPick;
    RanInParts(g, steps, pid, world, base, k);
    var (h, before) := Ran(g, steps[..k], pid, world, base);
    RanIsProgress(g, steps[..k], pid, world, base);
    PickIsPicked(h, steps[k]);
    PickedIsReady(g, h, before, base, world, WithPick(h, steps[k]), Pick(h, steps[k].name));
  }

  lemma PickedIsReady(g: Graph, h: Graph, ran: seq<nat>, base: nat, world: World, picked: Graph, i: nat)
    requires g.Valid() && Progress(g, h, ran, base, world) && Picked(h, picked, i)
    requires forall j :: base <= j < base + |ran| ==> world.executions(j).Ok?
    ensures picked.Ready(i) <==> forall p: nat :: Edge(p, i) in g.edges ==> DoneBefore(g, ran, p)
  {
    forall p: nat | Edge(p, i) in g.edges
      ensures (picked.Has(p) && picked.At(p).status == Completed) <==> DoneBefore(g, ran, p)
    {
      assert g.Has(p) && h.Has(p) && picked.Has(p);
      assert p != i ==> picked.At(p) == h.At(p);
      if p in ran {
        var k :| 0 <= k < |ran| && ran[k] == p;
        assert world.executions(base + k).Ok?;
      }
    }
  }

  /** For the nodes of a turn, in the order in which they run: `ran[k]` is claimed with all its
      predecessors completed exactly when each of them is in `ran[..k]` or was completed before the
      turn. The replies of the executor do not matter. */
  lemma TurnPicksReadyExactly(g: Graph, pid: nat, world: World, k: nat)
    requires g.Valid() && ClaimsMatch(g) && k < Turn(world, 0, 0).2
    ensures var (_, plans, calls) := Turn(world, 0, 0);
            && calls <= |PlannedSteps(world, plans)|
            && var steps := PlannedSteps(world, plans)[..calls];
               var h, ran := Ran(g, steps[..k], pid, world, 0).0, Ran(g, steps, pid, world, 0).1;
               WithPick(h, steps[k]).Ready(ran[k]) <==>
               forall p: nat :: Edge(p, ran[k]) in g.edges ==> DoneBefore(g, ran[..k], p)
  {
    hide Turn, PlannedSteps, Ran, Pick, WithPick, DoneBefore, Graph.Valid, ClaimsMatch;
    TurnStopsAtFailure(world);
    var (_, plans, calls) := Turn(world, 0, 0);
    PickIsReadyExactly(g, PlannedSteps(world, plans)[..calls], pid, world, 0, k);
  }

  /** Nodes are picked by name alone: here a step runs a node that waits for a pending predecessor. */
  lemma PickIgnoresEdges(a: Payload, pid: nat, world: World) returns (g: Graph)
    ensures g.Valid() && ClaimsMatch(g) && g.edges == [Edge(0, 1)] && g.Has(0) && g.At(0).status == Pending
    ensures IsFirstPending(g, "b", 1) && !g.Ready(1)
    ensures Ran(g, [PlanStep("b", a)], pid, world, 0).1 == [1] && WithPick(g, PlanStep("b", a)) == g
  {
    g := Graph([Some(FreshNode("a", a)), Some(FreshNode("b", a))], [], [Edge(0, 1)]);
    OrderedIsAcyclic(g.edges, [0, 1]);
    assert HasPending(g, "b") by {
      assert g.Has(1) && g.At(1).name == "b";
    }
    PickIs(g, "b");
    RanNothing(g, pid, world, 0);
    RanOneMore(g, [], PlanStep("b", a), pid, world, 0);
    assert [] + [PlanStep("b", a)] == [PlanStep("b", a)];
  }
}
