/** With the simple draining strategy, the tail of the node list stays powered for ever: over
    whole runs, nodes beyond every window's target count are free, reserved or allocated. */
module PoweredFloorRuns {
  import opened Sequences
  import opened ClusterState
  import opened ClusterInvariant
  import opened ShutdownPolicy
  import opened PowerSafety
  import opened SchedulingRound
  import opened RoundInvariant
  import opened RoundProperties
  import opened Scheduler
  import opened Runs

  /** The invariant: targets lie below the bound, nodes from the bound on are powered. */
  ghost predicate Floor(cfg: PolicyConfig, policy: PolicyState, nodes: seq<NodeView>) {
    var bound := FloorIndex(cfg.windows, |nodes|);
    TargetsBelow(policy, bound) && PoweredFrom(nodes, bound)
  }

  lemma OperationsKeepPowered(nodes: seq<NodeView>, ns: seq<int>, op: NodeOp, j: int, bound: int)
    requires PoweredFrom(nodes, bound)
    ensures PoweredFrom(AtNodes(nodes, ns, op, j), bound)
  {
  }

  // ---- Before the round --------------------------------------------------------------------

  lemma UpdateKeepsFloorBound(cfg: PolicyConfig, policy: PolicyState, nodes: seq<NodeView>, now: real)
    requires now >= 0.0 && cfg.strategy.Simple? && Floor(cfg, policy, nodes)
    ensures Floor(cfg, Update(cfg, policy, nodes, now).0, Update(cfg, policy, nodes, now).1)
  {
    if cfg.loaded && cfg.IsActiveAt(now) {
      RetargetKeepsBound(cfg, policy, |nodes|, now);
      UpdateKeepsFloor(cfg, Retarget(cfg, policy, |nodes|, now), nodes, now, |nodes|, FloorIndex(cfg.windows, |nodes|));
    }
  }

  lemma {:induction false} ShrinkTargetedKeepsPowered(policy: PolicyState, s: Sys, order: seq<int>, bound: int)
    requires PoweredFrom(s.nodes, bound) && forall j :: j in order ==> 0 <= j < |s.jobs|
    ensures PoweredFrom(ShrinkTargeted(policy, s, order).nodes, bound)
    decreases |order|
  {
    if order != [] {
      assert order[0] in order && forall j :: j in order[1..] ==> j in order;
      var ns := TargetedSurplus(policy, s.jobs[order[0]]);
      OperationsKeepPowered(s.nodes, ns, RemoveExpected, order[0], bound);
      ShrinkTargetedKeepsPowered(policy, if ns == [] then s else s.ShrinkBy(order[0], ns), order[1..], bound);
    }
  }

  lemma MalleableKeepsFloor(cfg: PolicyConfig, policy: PolicyState, s: Sys, now: real)
    requires now >= 0.0 && cfg.strategy.Simple? && Floor(cfg, policy, s.nodes)
    ensures var r := ApplyMalleablePolicy(cfg, policy, s, now); Floor(cfg, r.0, r.1.nodes)
  {
    var bound := FloorIndex(cfg.windows, |s.nodes|);
    var w := if cfg.loaded && cfg.malleableShrinkToTarget && cfg.IsActiveAt(now) then ShrinkWindowFrom(cfg, now, 0) else -1;
    if w != -1 {
      var policy1 := if policy.targeted == map[] then policy.(targeted := TargetsFor(|s.nodes|, cfg.windows[w].targetFraction)) else policy;
      TargetsForBelow(cfg, |s.nodes|, w);
      assert TargetsBelow(policy1, bound);
      var order := ShrinkOrder(cfg, s);
      var t := ShrinkTargeted(policy1, s, order);
      ShrinkTargetedKeepsPowered(policy1, s, order, bound);
      UpdateKeepsFloor(cfg, policy1, t.nodes, now, |t.nodes|, bound);
    }
  }

  lemma FiringKeepsFloor(cfg: PolicyConfig, policy: PolicyState, s: Sys, now: real)
    requires Inv(s) && Floor(cfg, policy, s.nodes)
    ensures Floor(cfg, policy, FireTransitions(s.nodes, now))
  {
  }

  lemma PrepareKeepsFloor(strategy: Strategy, cfg: PolicyConfig, policy: PolicyState, w: World, now: real)
    requires now >= 0.0 && cfg.strategy.Simple? && Floor(cfg, policy, w.sys.nodes) && Settled(strategy, cfg.loaded, w.sys, w.agreements)
    ensures var r := Prepare(cfg, policy, w.sys, now); Floor(cfg, r.0, r.1.nodes)
  {
    var s1 := UpdateRunningPredictions(w.sys, now);
    var (policy1, nodes1) := Update(cfg, policy, s1.nodes, now);
    var s2 := s1.(nodes := nodes1);
    var (policy3, s3) := ApplyMalleablePolicy(cfg, policy1, s2, now);
    assert Inv(s3) by {
      hide Update;
      hide ApplyMalleablePolicy;
      ProgressKeepsSettled(strategy, cfg.loaded, w.sys, w.agreements, now);
      UpdateKeepsSettled(strategy, cfg, policy, s1, w.agreements, now);
      MalleableKeepsSettled(strategy, cfg, policy1, s2, w.agreements, now);
    }
    hide Settled;
    hide Floor;
    hide Inv;
    UpdateKeepsFloorBound(cfg, policy, s1.nodes, now);
    MalleableKeepsFloor(cfg, policy1, s2, now);
    FiringKeepsFloor(cfg, policy3, s3, now);
  }

  // ---- The round and the messages ----------------------------------------------------------

  lemma EvolvesKeepsPowered(s0: Sys, t: Sys, bound: int)
    requires Evolves(s0, t) && PoweredFrom(s0.nodes, bound)
    ensures PoweredFrom(t.nodes, bound)
  {
  }

  lemma {:induction false} ForwardAllKeepsPowered(s: Sys, started: seq<int>, now: real, bound: int)
    requires PoweredFrom(s.nodes, bound)
    ensures PoweredFrom(ForwardAll(s, started, now).nodes, bound)
    decreases |started|
  {
    if started != [] {
      var j := started[0];
      if 0 <= j < |s.jobs| {
        OperationsKeepPowered(s.nodes, s.jobs[j].SetState(Running, now).executingNodes, Allocate, j, bound);
      }
      ForwardAllKeepsPowered(ForwardOne(s, j, now), started[1..], now, bound);
    }
  }

  ghost predicate WorldFloor(cfg: SchedulerConfig, w: World) {
    Settled(cfg.strategy, cfg.policy.loaded, w.sys, w.agreements) && Floor(cfg.policy, w.policy, w.sys.nodes)
  }

  lemma ScheduleKeepsFloor(cfg: SchedulerConfig, w: World, now: real, requester: int := -1)
    requires now >= 0.0 && cfg.policy.strategy.Simple? && WorldFloor(cfg, w)
    ensures WorldFloor(cfg, Schedule(cfg, w, now, requester)) && |Schedule(cfg, w, now, requester).sys.nodes| == |w.sys.nodes|
  {
    hide Settled;
    hide Prepare;
    hide ScheduleRound;
    InvokeKeepsSettled(cfg, w, now, requester);
    var (policy, s) := Prepare(cfg.policy, w.policy, w.sys, now);
    PrepareKeepsFloor(cfg.strategy, cfg.policy, w.policy, w, now);
    PrepareKeepsSettled(cfg.strategy, cfg.policy, w.policy, w.sys, w.agreements, now);
    var ctx := Context(cfg.policy, policy, now);
    var t := ScheduleRound(cfg.strategy, ctx, s, w.agreements);
    RoundIsSafe(cfg.strategy, ctx, s, w.agreements);
    var bound := FloorIndex(cfg.policy.windows, |s.nodes|);
    EvolvesKeepsPowered(s, t.sys, bound);
    if 0 <= requester < |t.sys.jobs| { ReconfigureKeepsPowered(t.sys, requester, now, bound); }
    ForwardAllKeepsPowered(Answer(t.sys, requester, now), t.started, now, bound);
  }

  lemma ReconfigureKeepsPowered(s: Sys, j: int, now: real, bound: int)
    requires PoweredFrom(s.nodes, bound) && 0 <= j < |s.jobs|
    ensures PoweredFrom(s.Reconfigure(j, now).nodes, bound)
  {
  }

  lemma ProcessedKeepsPowered(s: Sys, j: int, now: real, bound: int)
    requires PoweredFrom(s.nodes, bound) && 0 <= j < |s.jobs|
    ensures PoweredFrom(s.ProcessedWorkload(j, now).nodes, bound)
  {
  }

  lemma HandleKeepsFloor(cfg: SchedulerConfig, w: World, e: Event)
    requires Possible(w, e) && cfg.policy.strategy.Simple? && WorldFloor(cfg, w)
    ensures WorldFloor(cfg, Handle(cfg, w, e)) && |Handle(cfg, w, e).sys.nodes| == |w.sys.nodes|
  {
    hide Settled;
    hide Invoke;
    hide FloorIndex;
    var strategy, loaded, bound := cfg.strategy, cfg.policy.loaded, FloorIndex(cfg.policy.windows, |w.sys.nodes|);
    match e.message
    case InvokeScheduling => ScheduleKeepsFloor(cfg, w, e.at);
    case JobSubmit(v) =>
      SubmitKeepsSettled(strategy, loaded, w.sys, w.agreements, v);
      ScheduleKeepsFloor(cfg, w.(sys := w.sys.Submit(v), clock := e.at), e.at);
    case SchedulingPointReached(j) =>
      if w.sys.jobs[j].state.PendingReconfiguration? {
        ReconfigureKeepsSettled(strategy, loaded, w.sys, w.agreements, j, e.at);
        ReconfigureKeepsPowered(w.sys, j, e.at, bound);
      }
      ScheduleKeepsFloor(cfg, w.(sys := w.sys.SchedulingPoint(j, e.at), clock := e.at), e.at);
      ScheduleKeepsFloor(cfg, w, e.at, j);
    case WorkloadProcessed(j) =>
      ProcessedKeepsSettled(strategy, loaded, w.sys, w.agreements, j, e.at);
      ProcessedKeepsPowered(w.sys, j, e.at, bound);
      ScheduleKeepsFloor(cfg, w.(sys := w.sys.ProcessedWorkload(j, e.at), clock := e.at), e.at);
    case ApplicationRuns(j) =>
      ReportKeepsSettled(strategy, loaded, w.sys, w.agreements, j, e.at);
  }

  lemma {:induction false} RunKeepsFloor(cfg: SchedulerConfig, w: World, events: seq<Event>)
    requires PossibleRun(cfg, w, events) && cfg.policy.strategy.Simple? && WorldFloor(cfg, w)
    ensures WorldFloor(cfg, Run(cfg, w, events)) && |Run(cfg, w, events).sys.nodes| == |w.sys.nodes|
    decreases |events|
  {
    hide WorldFloor;
    hide Handle;
    if events != [] {
      HandleKeepsFloor(cfg, w, events[0]);
      RunKeepsFloor(cfg, Handle(cfg, w, events[0]), events[1..]);
    }
  }

  /** The powered floor over whole runs: with the simple strategy and any set of windows, nodes
      from the largest target count on are powered in every reachable world, so at least the
      smallest target fraction of all nodes is. */
  lemma ReachableIsPowered(cfg: SchedulerConfig, nodeCount: nat, events: seq<Event>, minFraction: real)
    requires PossibleRun(cfg, NewWorld(nodeCount), events) && cfg.policy.strategy.Simple?
    requires minFraction <= 1.0 && forall k :: 0 <= k < |cfg.policy.windows| ==> minFraction <= cfg.policy.windows[k].targetFraction
    ensures var nodes := Run(cfg, NewWorld(nodeCount), events).sys.nodes;
      && |nodes| == nodeCount && PoweredFrom(nodes, FloorIndex(cfg.policy.windows, |nodes|))
      && CountPowered(nodes) as real >= |nodes| as real * minFraction
  {
    hide Settled;
    hide Run;
    hide PossibleRun;
    hide Handle;
    hide NewWorld;
    hide PoweredFrom;
    hide FloorIndex;
    hide CountPowered;
    NewWorldHasFloor(cfg, nodeCount);
    RunKeepsFloor(cfg, NewWorld(nodeCount), events);
    PoweredFloor(cfg.policy, Run(cfg, NewWorld(nodeCount), events).sys.nodes, minFraction);
  }

  lemma NewWorldHasFloor(cfg: SchedulerConfig, nodeCount: nat)
    ensures WorldFloor(cfg, NewWorld(nodeCount)) && |NewWorld(nodeCount).sys.nodes| == nodeCount
  {
  }
}
