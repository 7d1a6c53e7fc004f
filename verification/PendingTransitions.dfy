/** A node that shuts down or boots waits for its scheduled transition. In every reachable world
    such a node has one that leads the right way, and the only one that never fires is a
    transition that was scheduled at time zero without delay. */
module PendingTransitions {
  import opened Sequences
  import opened ShutdownCalendar
  import opened ClusterState
  import opened ClusterInvariant
  import opened ShutdownPolicy
  import opened PowerSafety
  import opened AgreementMaps
  import opened SchedulingRound
  import opened RoundInvariant
  import opened RoundProperties
  import opened Scheduler
  import opened Runs

  /** At some time, checking the scheduled transition changes the node. */
  ghost predicate CanFire(v: NodeView) {
    exists later: real :: v.CheckScheduledTransition(later) != v
  }

  /** A scheduled transition fires from its time on, and never if that time is not positive. */
  lemma FiresExactlyIfPositive(v: NodeView, to: NodeState, delaySeconds: int, now: real, later: real)
    ensures var w, time := v.ScheduleTransition(to, delaySeconds, now), now + delaySeconds as real;
      && (w.CheckScheduledTransition(later) != w <==> 0.0 < time <= later)
      && (0.0 < time <= later ==> w.CheckScheduledTransition(later).state == to)
      && (CanFire(w) <==> time > 0.0)
  {
    var w, time := v.ScheduleTransition(to, delaySeconds, now), now + delaySeconds as real;
    if time > 0.0 { assert w.CheckScheduledTransition(time) != w; }
  }

  /** The transition was scheduled with the given delay at an instant of the past. */
  ghost predicate ScheduledBefore(v: NodeView, delaySeconds: int, clock: real) {
    0.0 <= v.transitionTime - delaySeconds as real <= clock
  }

  ghost predicate OnItsWay(cfg: PolicyConfig, v: NodeView, clock: real) {
    && (v.target.NodeOff? || v.target.NodeFree?)
    && (v.state.NodeShuttingDown? ==> cfg.loaded && v.target.NodeOff? && ScheduledBefore(v, cfg.downSeconds, clock))
    && (v.state.NodeBooting? ==> cfg.loaded && v.target.NodeFree? && ScheduledBefore(v, cfg.bootSeconds, clock))
  }

  ghost predicate AllOnTheirWay(cfg: PolicyConfig, nodes: seq<NodeView>, clock: real) {
    forall i :: 0 <= i < |nodes| ==> OnItsWay(cfg, nodes[i], clock)
  }

  lemma OperationsKeepTransitions(cfg: PolicyConfig, nodes: seq<NodeView>, ns: seq<int>, op: NodeOp, j: int, clock: real)
    requires AllOnTheirWay(cfg, nodes, clock)
    ensures AllOnTheirWay(cfg, AtNodes(nodes, ns, op, j), clock)
  {
  }

  lemma TimePasses(cfg: PolicyConfig, nodes: seq<NodeView>, clock: real, now: real)
    requires AllOnTheirWay(cfg, nodes, clock) && clock <= now
    ensures AllOnTheirWay(cfg, nodes, now)
  {
  }

  lemma {:induction false} WalkKeepsTransitions(cfg: PolicyConfig, st: PolicyState, nodes: seq<NodeView>, now: real, k: nat)
    requires now >= 0.0 && cfg.loaded && k <= |nodes| && AllOnTheirWay(cfg, nodes, now)
    ensures AllOnTheirWay(cfg, UpdateNodesUpTo(cfg, st, nodes, now, k).1, now)
  {
    if k > 0 {
      WalkKeepsTransitions(cfg, st, nodes, now, k - 1);
      var (st1, nodes1) := UpdateNodesUpTo(cfg, st, nodes, now, k - 1);
      StepKeepsTransition(cfg, st1, nodes1[k - 1], k - 1, now);
      hide StepNode;
      hide OnItsWay;
    }
  }

  lemma StepKeepsTransition(cfg: PolicyConfig, st: PolicyState, v: NodeView, i: int, now: real)
    requires now >= 0.0 && cfg.loaded && OnItsWay(cfg, v, now)
    ensures OnItsWay(cfg, StepNode(cfg, st, v, i, now).1, now)
  {
  }

  lemma UpdateKeepsTransitions(cfg: PolicyConfig, st: PolicyState, nodes: seq<NodeView>, now: real)
    requires now >= 0.0 && AllOnTheirWay(cfg, nodes, now)
    ensures AllOnTheirWay(cfg, Update(cfg, st, nodes, now).1, now)
    ensures cfg.loaded ==> AllOnTheirWay(cfg, UpdateNodeStates(cfg, st, nodes, now).1, now)
  {
    hide StepNode;
    hide Retarget;
    hide OnItsWay;
    if cfg.loaded {
      WalkKeepsTransitions(cfg, st, nodes, now, |nodes|);
      WalkKeepsTransitions(cfg, Retarget(cfg, st, |nodes|, now), nodes, now, |nodes|);
    }
  }

  lemma {:induction false} ShrinkingKeepsTransitions(cfg: PolicyConfig, st: PolicyState, s: Sys, order: seq<int>, now: real)
    requires AllOnTheirWay(cfg, s.nodes, now) && forall j :: j in order ==> 0 <= j < |s.jobs|
    ensures AllOnTheirWay(cfg, ShrinkTargeted(st, s, order).nodes, now)
    decreases |order|
  {
    hide OnItsWay;
    if order != [] {
      assert order[0] in order && forall j :: j in order[1..] ==> j in order;
      var ns := TargetedSurplus(st, s.jobs[order[0]]);
      OperationsKeepTransitions(cfg, s.nodes, ns, RemoveExpected, order[0], now);
      ShrinkingKeepsTransitions(cfg, st, if ns == [] then s else s.ShrinkBy(order[0], ns), order[1..], now);
    }
  }

  lemma MakingRoomKeepsTransitions(cfg: PolicyConfig, st: PolicyState, s: Sys, now: real)
    requires now >= 0.0 && AllOnTheirWay(cfg, s.nodes, now)
    ensures AllOnTheirWay(cfg, ApplyMalleablePolicy(cfg, st, s, now).1.nodes, now)
  {
    hide AllOnTheirWay;
    hide UpdateNodeStates;
    hide ShrinkTargeted;
    hide ShrinksAny;
    hide TargetsFor;
    var w := if cfg.loaded && cfg.malleableShrinkToTarget && cfg.IsActiveAt(now) then ShrinkWindowFrom(cfg, now, 0) else -1;
    if w != -1 {
      var st1 := if st.targeted == map[] then st.(targeted := TargetsFor(|s.nodes|, cfg.windows[w].targetFraction)) else st;
      var order := ShrinkOrder(cfg, s);
      ShrinkingKeepsTransitions(cfg, st1, s, order, now);
      UpdateKeepsTransitions(cfg, st1, ShrinkTargeted(st1, s, order).nodes, now);
    }
  }

  lemma FiringKeepsTransitions(cfg: PolicyConfig, nodes: seq<NodeView>, now: real)
    requires AllOnTheirWay(cfg, nodes, now)
    ensures AllOnTheirWay(cfg, FireTransitions(nodes, now), now)
  {
  }

  lemma PrepareKeepsTransitions(cfg: PolicyConfig, policy: PolicyState, s: Sys, now: real)
    requires now >= 0.0 && AllOnTheirWay(cfg, s.nodes, now)
    ensures AllOnTheirWay(cfg, Prepare(cfg, policy, s, now).1.nodes, now)
  {
    hide AllOnTheirWay;
    hide Update;
    hide ApplyMalleablePolicy;
    hide FireTransitions;
    var s1 := UpdateRunningPredictions(s, now);
    var (policy1, nodes1) := Update(cfg, policy, s1.nodes, now);
    UpdateKeepsTransitions(cfg, policy, s1.nodes, now);
    MakingRoomKeepsTransitions(cfg, policy1, s1.(nodes := nodes1), now);
    FiringKeepsTransitions(cfg, ApplyMalleablePolicy(cfg, policy1, s1.(nodes := nodes1), now).1.nodes, now);
  }

  lemma RoundKeepsTransitions(cfg: PolicyConfig, s0: Sys, t: Sys, now: real)
    requires Evolves(s0, t) && AllOnTheirWay(cfg, s0.nodes, now)
    ensures AllOnTheirWay(cfg, t.nodes, now)
  {
    forall i | 0 <= i < |t.nodes| ensures OnItsWay(cfg, t.nodes[i], now) {
      assert NodeEvolves(s0.nodes[i], t.nodes[i]) && OnItsWay(cfg, s0.nodes[i], now);
    }
  }

  lemma {:induction false} ForwardingKeepsTransitions(cfg: PolicyConfig, s: Sys, started: seq<int>, now: real)
    requires AllOnTheirWay(cfg, s.nodes, now)
    ensures AllOnTheirWay(cfg, ForwardAll(s, started, now).nodes, now)
    decreases |started|
  {
    hide OnItsWay;
    if started != [] {
      var j := started[0];
      if 0 <= j < |s.jobs| {
        OperationsKeepTransitions(cfg, s.nodes, s.jobs[j].SetState(Running, now).executingNodes, Allocate, j, now);
      }
      ForwardingKeepsTransitions(cfg, ForwardOne(s, j, now), started[1..], now);
    }
  }

  // ---- Over whole runs ---------------------------------------------------------------------

  ghost predicate WorldOnItsWay(cfg: SchedulerConfig, w: World) {
    Settled(cfg.strategy, cfg.policy.loaded, w.sys, w.agreements) && AllOnTheirWay(cfg.policy, w.sys.nodes, w.clock)
  }

  lemma ScheduleKeepsTransitions(cfg: SchedulerConfig, w: World, now: real, requester: int := -1)
    requires now >= 0.0 && w.clock <= now && WorldOnItsWay(cfg, w)
    ensures WorldOnItsWay(cfg, Schedule(cfg, w, now, requester))
  {
    hide Settled;
    hide AllOnTheirWay;
    hide Prepare;
    hide ScheduleRound;
    TimePasses(cfg.policy, w.sys.nodes, w.clock, now);
    InvokeKeepsSettled(cfg, w, now, requester);
    var (policy, s) := Prepare(cfg.policy, w.policy, w.sys, now);
    PrepareKeepsTransitions(cfg.policy, w.policy, w.sys, now);
    PrepareKeepsSettled(cfg.strategy, cfg.policy, w.policy, w.sys, w.agreements, now);
    var ctx := Context(cfg.policy, policy, now);
    var t := ScheduleRound(cfg.strategy, ctx, s, w.agreements);
    RoundIsSafe(cfg.strategy, ctx, s, w.agreements);
    RoundKeepsTransitions(cfg.policy, s, t.sys, now);
    if 0 <= requester < |t.sys.jobs| { MessageKeepsTransitions(cfg.policy, t.sys, requester, now); }
    ForwardingKeepsTransitions(cfg.policy, Answer(t.sys, requester, now), t.started, now);
  }

  lemma MessageKeepsTransitions(cfg: PolicyConfig, s: Sys, j: int, now: real)
    requires 0 <= j < |s.jobs| && AllOnTheirWay(cfg, s.nodes, now)
    ensures AllOnTheirWay(cfg, s.SchedulingPoint(j, now).nodes, now) && AllOnTheirWay(cfg, s.ProcessedWorkload(j, now).nodes, now)
  {
    hide OnItsWay;
    var v := s.jobs[j];
    var previous, next := v.executingNodes, v.SetState(InReconfiguration, now).executingNodes;
    OperationsKeepTransitions(cfg, s.nodes, v.assignedNodes, RemoveExpected, j, now);
    var released := AtNodes(s.nodes, v.assignedNodes, RemoveExpected, j);
    OperationsKeepTransitions(cfg, released, Without(next, previous), Expand, j, now);
    OperationsKeepTransitions(cfg, AtNodes(released, Without(next, previous), Expand, j), Without(previous, next), Complete, j, now);
    OperationsKeepTransitions(cfg, s.nodes, v.executingNodes, Complete, j, now);
    OperationsKeepTransitions(cfg, AtNodes(s.nodes, v.executingNodes, Complete, j), v.assignedNodes, RemoveExpected, j, now);
  }

  lemma HandleKeepsTransitions(cfg: SchedulerConfig, w: World, e: Event)
    requires Possible(w, e) && WorldOnItsWay(cfg, w)
    ensures WorldOnItsWay(cfg, Handle(cfg, w, e))
  {
    hide Settled;
    hide AllOnTheirWay;
    hide Schedule;
    hide Sys.SchedulingPoint;
    hide Sys.ProcessedWorkload;
    HandleKeepsSettled(cfg, w, e);
    TimePasses(cfg.policy, w.sys.nodes, w.clock, e.at);
    match e.message
    case InvokeScheduling => ScheduleKeepsTransitions(cfg, w, e.at);
    case JobSubmit(v) =>
      SubmitKeepsSettled(cfg.strategy, cfg.policy.loaded, w.sys, w.agreements, v);
      ScheduleKeepsTransitions(cfg, w.(sys := w.sys.Submit(v), clock := e.at), e.at);
    case SchedulingPointReached(j) =>
      MessageKeepsTransitions(cfg.policy, w.sys, j, e.at);
      PointKeepsSettled(cfg, w, j, e.at);
      ScheduleKeepsTransitions(cfg, w.(sys := w.sys.SchedulingPoint(j, e.at), clock := e.at), e.at);
      ScheduleKeepsTransitions(cfg, w, e.at, j);
    case WorkloadProcessed(j) =>
      MessageKeepsTransitions(cfg.policy, w.sys, j, e.at);
      ProcessedKeepsSettled(cfg.strategy, cfg.policy.loaded, w.sys, w.agreements, j, e.at);
      ScheduleKeepsTransitions(cfg, w.(sys := w.sys.ProcessedWorkload(j, e.at), clock := e.at), e.at);
    case ApplicationRuns(j) =>
  }

  lemma PointKeepsSettled(cfg: SchedulerConfig, w: World, j: int, now: real)
    requires Settled(cfg.strategy, cfg.policy.loaded, w.sys, w.agreements) && 0 <= j < |w.sys.jobs|
    ensures Settled(cfg.strategy, cfg.policy.loaded, w.sys.SchedulingPoint(j, now), w.agreements)
  {
    hide Settled;
    if w.sys.jobs[j].state.PendingReconfiguration? { ReconfigureKeepsSettled(cfg.strategy, cfg.policy.loaded, w.sys, w.agreements, j, now); }
  }

  lemma {:induction false} RunKeepsTransitions(cfg: SchedulerConfig, w: World, events: seq<Event>)
    requires PossibleRun(cfg, w, events) && WorldOnItsWay(cfg, w)
    ensures WorldOnItsWay(cfg, Run(cfg, w, events))
    decreases |events|
  {
    hide WorldOnItsWay;
    hide Handle;
    if events != [] {
      HandleKeepsTransitions(cfg, w, events[0]);
      RunKeepsTransitions(cfg, Handle(cfg, w, events[0]), events[1..]);
    }
  }

  lemma NewWorldIsOnItsWay(cfg: SchedulerConfig, nodeCount: nat)
    ensures WorldOnItsWay(cfg, NewWorld(nodeCount))
  {
    NewWorldIsSettled(cfg.strategy, cfg.policy.loaded, nodeCount);
    hide Settled;
  }

  /** In every reachable world, a node that shuts down was told so, at some instant up to now, to be
      off after the configured delay, and one that boots to be free; that transition can fire
      unless the instant was zero and there is no delay. */
  lemma TransitionsArePending(cfg: SchedulerConfig, nodeCount: nat, events: seq<Event>, i: int)
    requires PossibleRun(cfg, NewWorld(nodeCount), events) && cfg.policy.Valid()
    requires 0 <= i < |Run(cfg, NewWorld(nodeCount), events).sys.nodes|
    ensures var w := Run(cfg, NewWorld(nodeCount), events); var v := w.sys.nodes[i];
      v.state.NodeShuttingDown? || v.state.NodeBooting? ==>
        var (to, delaySeconds) := if v.state.NodeShuttingDown? then (NodeOff, cfg.policy.downSeconds) else (NodeFree, cfg.policy.bootSeconds);
        var at := v.transitionTime - delaySeconds as real;
        && 0.0 <= at <= w.clock && v == v.ScheduleTransition(to, delaySeconds, at)
        && (CanFire(v) <==> !(at == 0.0 && delaySeconds == 0))
  {
    NewWorldIsOnItsWay(cfg, nodeCount);
    RunKeepsTransitions(cfg, NewWorld(nodeCount), events);
    var w := Run(cfg, NewWorld(nodeCount), events);
    hide Settled;
    hide Run;
    hide PossibleRun;
    var v := w.sys.nodes[i];
    assert OnItsWay(cfg.policy, v, w.clock);
    if v.state.NodeShuttingDown? || v.state.NodeBooting? {
      var (to, delaySeconds) := if v.state.NodeShuttingDown? then (NodeOff, cfg.policy.downSeconds) else (NodeFree, cfg.policy.bootSeconds);
      FiresExactlyIfPositive(v, to, delaySeconds, v.transitionTime - delaySeconds as real, w.clock);
    }
  }

  // ---- The transition that never fires -----------------------------------------------------

  /** A window is open at time zero, and nodes go down without delay. */
  const AT_ONCE := SchedulerConfig(MinAgreement, PolicyConfig(true, [ShutdownWindow(0, 6, 0.5)], Simple, 0.0, 3600, 0, 0, 3600, false,
                                                              0, false, 0, 0, false, 0, ByMin, true), 0.0, false, false, false, false)

  lemma FirstNodeGoesDown()
    ensures var nodes := Prepare(AT_ONCE.policy, NO_POLICY_STATE, NewWorld(2).sys, 0.0).1.nodes;
      |nodes| == 2 && nodes[0].state.NodeShuttingDown? && nodes[0].transitionTime == 0.0
  {
    var cfg := AT_ONCE.policy;
    assert (0.0 as real).Floor == 0 && (2.0 * 0.5 as real).Floor == 1;
    assert cfg.windows[0].IsInWindow(0.0) && cfg.InAnyWindow(0.0);
    var st := Retarget(cfg, NO_POLICY_STATE, 2, 0.0);
    assert st.IsTargeted(0) by {
      assert !cfg.windows[0].IsInDrainLeadTime(0.0, 3600);
      assert TargetCount(2, 0.5) == 1;
      hide TargetCount;
    }
    hide Retarget;
    var s := UpdateRunningPredictions(NewWorld(2).sys, 0.0);
    assert s.nodes == NewWorld(2).sys.nodes;
    assert StepNode(cfg, st, NEW_NODE, 0, 0.0).1 == ShutDownNode(cfg, NEW_NODE, 0.0);
    hide StepNode;
    assert UpdateNodesUpTo(cfg, st, s.nodes, 0.0, 1).1[0] == ShutDownNode(cfg, NEW_NODE, 0.0);
    assert UpdateNodesUpTo(cfg, st, s.nodes, 0.0, 2).1[0] == ShutDownNode(cfg, NEW_NODE, 0.0);
    assert Update(cfg, NO_POLICY_STATE, s.nodes, 0.0).1[0] == ShutDownNode(cfg, NEW_NODE, 0.0);
  }

  lemma NobodyToForward(strategy: Strategy, loaded: bool, s0: Sys, t: Round)
    requires RoundOk(strategy, loaded, s0, t, -1) && s0.jobs == []
    ensures t.started == []
  {
    DistinctSize(t.started);
    SetEqualByMembers(SetOf(t.started), {});
  }

  lemma RoundKeepsGoingDown(strategy: Strategy, loaded: bool, s0: Sys, t: Round, i: int)
    requires RoundOk(strategy, loaded, s0, t, -1) && 0 <= i < |s0.nodes| && s0.nodes[i].state.NodeShuttingDown?
    ensures |t.sys.nodes| == |s0.nodes| && t.sys.nodes[i].state.NodeShuttingDown?
    ensures t.sys.nodes[i].transitionTime == s0.nodes[i].transitionTime && t.sys.nodes[i].target == s0.nodes[i].target
  {
    assert NodeEvolves(s0.nodes[i], t.sys.nodes[i]);
  }

  lemma GoesDownAtZero(w: World)
    requires w == NewWorld(2)
    ensures var t := Invoke(AT_ONCE, w, 0.0).sys;
      |t.nodes| == 2 && t.nodes[0].state.NodeShuttingDown? && t.nodes[0].transitionTime == 0.0
  {
    NewWorldIsSettled(MinAgreement, true, 2);
    FirstNodeGoesDown();
    assert w.sys.jobs == [] && w.policy == NO_POLICY_STATE;
    hide NewWorld;
    hide Settled;
    hide RoundOk;
    hide Prepare;
    hide ScheduleRound;
    PrepareKeepsSettled(MinAgreement, AT_ONCE.policy, w.policy, w.sys, w.agreements, 0.0);
    var (policy, s) := Prepare(AT_ONCE.policy, w.policy, w.sys, 0.0);
    var ctx := Context(AT_ONCE.policy, policy, 0.0);
    var t := ScheduleRound(MinAgreement, ctx, s, w.agreements);
    RoundIsSafe(MinAgreement, ctx, s, w.agreements);
    NobodyToForward(MinAgreement, true, s, t);
    RoundKeepsGoingDown(MinAgreement, true, s, t, 0);
  }

  /** The exception is real: in this run a node shuts down and is never off. */
  lemma TransitionAtZeroNeverFires()
    ensures AT_ONCE.policy.Valid() && PossibleRun(AT_ONCE, NewWorld(2), [Event(0.0, InvokeScheduling)])
    ensures var w := Run(AT_ONCE, NewWorld(2), [Event(0.0, InvokeScheduling)]);
      |w.sys.nodes| == 2 && w.sys.nodes[0].state.NodeShuttingDown? && !CanFire(w.sys.nodes[0])
  {
    hide Invoke;
    GoesDownAtZero(NewWorld(2));
    assert Handle(AT_ONCE, NewWorld(2), Event(0.0, InvokeScheduling)) == Invoke(AT_ONCE, NewWorld(2), 0.0);
  }
}
