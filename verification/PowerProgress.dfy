/** What power management must do: which nodes go down, drain, boot and come back, and when; and that
    nothing else in an invocation undoes it. */
module PowerProgress {
  import opened Sequences
  import opened ShutdownCalendar
  import opened ClusterState
  import opened ClusterInvariant
  import opened ShutdownPolicy
  import opened PowerSafety
  import opened AgreementMaps
  import opened SchedulingRound
  import opened RoundInvariant
  import opened RoundProperties
  import opened Scheduler
  import opened Runs

  // ---- One node --------------------------------------------------------------------------------

  /** The node is told to be off after the configured delay. */
  ghost function GoingDown(cfg: PolicyConfig, v: NodeView, now: real): NodeView {
    v.(state := NodeShuttingDown, target := NodeOff, transitionTime := now + cfg.downSeconds as real)
  }

  /** The node is told to be free after the configured delay. */
  ghost function Booting(cfg: PolicyConfig, v: NodeView, now: real): NodeView {
    v.(state := NodeBooting, target := NodeFree, transitionTime := now + cfg.bootSeconds as real)
  }

  /** Node `i` has been draining for the longest allowed time. */
  ghost predicate TimedOut(cfg: PolicyConfig, st: PolicyState, i: int, now: real) {
    i in st.drainStart && now - st.drainStart[i] >= cfg.maxDrainDuration as real
  }

  /** Some window is neither open nor within its lead time. */
  ghost predicate SomeWindowIsFar(cfg: PolicyConfig, now: real)
    requires now >= 0.0
  {
    exists k :: 0 <= k < |cfg.windows| && !cfg.windows[k].IsInWindow(now) && !cfg.windows[k].IsInDrainLeadTime(now, cfg.drainLeadTime)
  }

  /** The nodes that are to drain within a lead time: the targeted ones with the simple strategy,
      those outside the core pool with the flexible one. */
  ghost predicate IsToDrain(cfg: PolicyConfig, st: PolicyState, i: int) {
    (cfg.strategy.Simple? && st.IsTargeted(i)) || (cfg.strategy.FlexCorePool? && !st.IsCore(i))
  }

  ghost predicate Unchanged(st: PolicyState, st2: PolicyState, v: NodeView, w: NodeView, i: int) {
    w == v && SameDrainStart(st, st2, i)
  }

  ghost predicate SameDrainStart(st: PolicyState, st2: PolicyState, i: int) {
    (i in st2.drainStart <==> i in st.drainStart) && (i in st.drainStart && i in st2.drainStart ==> st2.drainStart[i] == st.drainStart[i])
  }

  /** What happens to a free, allocated or reserved node. */
  ghost predicate PoweredLaw(cfg: PolicyConfig, st: PolicyState, st2: PolicyState, v: NodeView, w: NodeView, i: int, now: real)
    requires now >= 0.0
  {
    if v.IsIdle() && st.IsTargeted(i) && cfg.InAnyWindow(now) then w == GoingDown(cfg, v, now) && SameDrainStart(st, st2, i)
    else if v.IsIdle() && cfg.InAnyDrainLeadTime(now) && IsToDrain(cfg, st, i) then
      w == v.(state := NodeDraining) && i in st2.drainStart && st2.drainStart[i] == now
    else Unchanged(st, st2, v, w, i)
  }

  /** What happens to a draining node. */
  ghost predicate DrainingLaw(cfg: PolicyConfig, st: PolicyState, st2: PolicyState, v: NodeView, w: NodeView, i: int, now: real)
    requires now >= 0.0
  {
    if TimedOut(cfg, st, i, now) then w == v.(state := NodeFree) && i !in st2.drainStart
    else if v.IsIdle() && cfg.InAnyWindow(now) then w == GoingDown(cfg, v, now) && SameDrainStart(st, st2, i)
    else if cfg.forceClearOnWindowEnd && !cfg.InAnyWindow(now) && !cfg.InAnyDrainLeadTime(now) then
      w == v.(state := NodeFree) && i !in st2.drainStart
    else Unchanged(st, st2, v, w, i)
  }

  ghost predicate NodeLaw(cfg: PolicyConfig, st: PolicyState, st2: PolicyState, v: NodeView, w: NodeView, i: int, now: real)
    requires now >= 0.0
  {
    && (Powered(v) ==> PoweredLaw(cfg, st, st2, v, w, i, now))
    && (v.state.NodeDraining? ==> DrainingLaw(cfg, st, st2, v, w, i, now))
    && (v.state.NodeOff? ==> SameDrainStart(st, st2, i) && w == if SomeWindowIsFar(cfg, now) then Booting(cfg, v, now) else v)
    && (v.state.NodeShuttingDown? || v.state.NodeBooting? ==> Unchanged(st, st2, v, w, i))
  }

  lemma StepObeysLaw(cfg: PolicyConfig, st: PolicyState, v: NodeView, i: int, now: real)
    requires now >= 0.0
    ensures var (st2, w) := StepNode(cfg, st, v, i, now); NodeLaw(cfg, st, st2, v, w, i, now)
  {
    hide PolicyConfig.InAnyWindow;
    hide PolicyConfig.InAnyDrainLeadTime;
  }

  // ---- The walk over the nodes -----------------------------------------------------------------

  /** Both states say the same about node `i`. */
  ghost predicate SameFor(st: PolicyState, st2: PolicyState, i: int) {
    && (st2.IsTargeted(i) <==> st.IsTargeted(i)) && (st2.IsCore(i) <==> st.IsCore(i)) && SameDrainStart(st, st2, i)
  }

  /** A step changes nothing that the maps say about other nodes. */
  lemma StepLeavesOthers(cfg: PolicyConfig, st: PolicyState, v: NodeView, k: int, now: real, i: int)
    requires now >= 0.0 && i != k
    ensures SameFor(st, StepNode(cfg, st, v, k, now).0, i)
  {
    hide PolicyConfig.InAnyWindow;
    hide PolicyConfig.InAnyDrainLeadTime;
    hide ShouldBootNode;
    hide ShouldDrainNode;
    hide ShutDownNode;
    hide NodeView.ScheduleTransition;
    hide NodeView.IsIdle;
    hide SameFor;
    var st2 := StepNode(cfg, st, v, k, now).0;
    assert st2.targeted == st.targeted || st2.targeted == Touch(st.targeted, k);
    assert st2.inCorePool == st.inCorePool || st2.inCorePool == Touch(st.inCorePool, k);
    assert st2.drainStart == st.drainStart || st2.drainStart == st.drainStart[k := now] || st2.drainStart == st.drainStart - {k};
    hide StepNode;
    OtherKeysStay(st, st2, k, now, i);
  }

  lemma OtherKeysStay(st: PolicyState, st2: PolicyState, k: int, now: real, i: int)
    requires i != k
    requires st2.targeted == st.targeted || st2.targeted == Touch(st.targeted, k)
    requires st2.inCorePool == st.inCorePool || st2.inCorePool == Touch(st.inCorePool, k)
    requires st2.drainStart == st.drainStart || st2.drainStart == st.drainStart[k := now] || st2.drainStart == st.drainStart - {k}
    ensures SameFor(st, st2, i)
  {
  }

  lemma SameForTransitive(st: PolicyState, st1: PolicyState, st2: PolicyState, i: int)
    requires SameFor(st, st1, i) && SameFor(st1, st2, i)
    ensures SameFor(st, st2, i)
  {
  }

  lemma WalkOneMore(cfg: PolicyConfig, st: PolicyState, nodes: seq<NodeView>, now: real, k: nat)
    requires now >= 0.0 && 0 < k <= |nodes|
    ensures var before := UpdateNodesUpTo(cfg, st, nodes, now, k - 1); var step := StepNode(cfg, before.0, nodes[k - 1], k - 1, now);
      UpdateNodesUpTo(cfg, st, nodes, now, k) == (step.0, before.1[k - 1 := step.1])
  {
    hide StepNode;
  }

  lemma {:induction false} WalkBefore(cfg: PolicyConfig, st: PolicyState, nodes: seq<NodeView>, now: real, k: nat, i: int)
    requires now >= 0.0 && k <= |nodes| && k <= i
    ensures SameFor(st, UpdateNodesUpTo(cfg, st, nodes, now, k).0, i)
  {
    hide StepNode;
    if k > 0 {
      WalkOneMore(cfg, st, nodes, now, k);
      hide UpdateNodesUpTo;
      hide SameFor;
      WalkBefore(cfg, st, nodes, now, k - 1, i);
      var before := UpdateNodesUpTo(cfg, st, nodes, now, k - 1).0;
      StepLeavesOthers(cfg, before, nodes[k - 1], k - 1, now, i);
      SameForTransitive(st, before, StepNode(cfg, before, nodes[k - 1], k - 1, now).0, i);
    }
  }

  lemma LawFromSame(cfg: PolicyConfig, st: PolicyState, st1: PolicyState, st2: PolicyState, v: NodeView, w: NodeView, i: int, now: real)
    requires now >= 0.0 && SameFor(st, st1, i) && NodeLaw(cfg, st1, st2, v, w, i, now)
    ensures NodeLaw(cfg, st, st2, v, w, i, now)
  {
  }

  lemma LawToSame(cfg: PolicyConfig, st: PolicyState, st1: PolicyState, st2: PolicyState, v: NodeView, w: NodeView, i: int, now: real)
    requires now >= 0.0 && SameFor(st1, st2, i) && NodeLaw(cfg, st, st1, v, w, i, now)
    ensures NodeLaw(cfg, st, st2, v, w, i, now)
  {
  }

  lemma {:induction false} WalkObeysLaw(cfg: PolicyConfig, st: PolicyState, nodes: seq<NodeView>, now: real, k: nat, i: nat)
    requires now >= 0.0 && i < k <= |nodes|
    ensures var r := UpdateNodesUpTo(cfg, st, nodes, now, k); NodeLaw(cfg, st, r.0, nodes[i], r.1[i], i, now)
  {
    hide StepNode;
    WalkOneMore(cfg, st, nodes, now, k);
    hide UpdateNodesUpTo;
    hide NodeLaw;
    hide SameFor;
    var before := UpdateNodesUpTo(cfg, st, nodes, now, k - 1);
    var step := StepNode(cfg, before.0, nodes[k - 1], k - 1, now);
    if i == k - 1 {
      WalkBefore(cfg, st, nodes, now, k - 1, i);
      StepObeysLaw(cfg, before.0, nodes[i], i, now);
      LawFromSame(cfg, st, before.0, step.0, nodes[i], step.1, i, now);
    } else {
      WalkObeysLaw(cfg, st, nodes, now, k - 1, i);
      StepLeavesOthers(cfg, before.0, nodes[k - 1], k - 1, now, i);
      LawToSame(cfg, st, before.0, step.0, nodes[i], before.1[i], i, now);
    }
  }

  /** While the policy is active, an update treats every node by the law, with the targets and the
      core pool of this update. */
  lemma UpdateObeysLaw(cfg: PolicyConfig, st: PolicyState, nodes: seq<NodeView>, now: real, i: nat)
    requires now >= 0.0 && cfg.loaded && cfg.IsActiveAt(now) && i < |nodes|
    ensures var (st2, nodes2) := Update(cfg, st, nodes, now); NodeLaw(cfg, Retarget(cfg, st, |nodes|, now), st2, nodes[i], nodes2[i], i, now)
  {
    hide NodeLaw;
    hide Retarget;
    WalkObeysLaw(cfg, Retarget(cfg, st, |nodes|, now), nodes, now, |nodes|, i);
  }

  // ---- An invocation ---------------------------------------------------------------------------

  /** The node is off or on its way, and nobody waits for it. */
  ghost predicate IsDown(v: NodeView) {
    (v.state.NodeShuttingDown? || v.state.NodeOff? || v.state.NodeBooting?) && v.expected == {}
  }

  lemma {:induction false} ShrinkingLeavesDown(st: PolicyState, s: Sys, order: seq<int>, i: int)
    requires 0 <= i < |s.nodes| && IsDown(s.nodes[i]) && forall j :: j in order ==> 0 <= j < |s.jobs|
    ensures ShrinkTargeted(st, s, order).nodes[i] == s.nodes[i]
    decreases |order|
  {
    hide TargetedSurplus;
    if order != [] {
      assert order[0] in order && forall j :: j in order[1..] ==> j in order;
      var ns := TargetedSurplus(st, s.jobs[order[0]]);
      var t := if ns == [] then s else s.ShrinkBy(order[0], ns);
      assert t.nodes[i] == s.nodes[i] by { assert s.nodes[i].RemoveExpectedJob(order[0]).expected == {}; }
      ShrinkingLeavesDown(st, t, order[1..], i);
    }
  }

  lemma WalkLeavesDown(cfg: PolicyConfig, st: PolicyState, nodes: seq<NodeView>, now: real, i: int)
    requires now >= 0.0 && 0 <= i < |nodes| && IsDown(nodes[i]) && (nodes[i].state.NodeOff? ==> !SomeWindowIsFar(cfg, now))
    ensures UpdateNodeStates(cfg, st, nodes, now).1[i] == nodes[i]
  {
    WalkObeysLaw(cfg, st, nodes, now, |nodes|, i);
  }

  /** Making room for a window leaves a node alone that is down. */
  lemma MakingRoomLeavesDown(cfg: PolicyConfig, st: PolicyState, s: Sys, now: real, i: int)
    requires now >= 0.0 && 0 <= i < |s.nodes| && IsDown(s.nodes[i]) && (s.nodes[i].state.NodeOff? ==> !SomeWindowIsFar(cfg, now))
    ensures ApplyMalleablePolicy(cfg, st, s, now).1.nodes[i] == s.nodes[i]
  {
    hide IsDown;
    hide SomeWindowIsFar;
    hide UpdateNodeStates;
    hide ShrinkTargeted;
    hide ShrinksAny;
    hide TargetsFor;
    var w := if cfg.loaded && cfg.malleableShrinkToTarget && cfg.IsActiveAt(now) then ShrinkWindowFrom(cfg, now, 0) else -1;
    if w != -1 {
      var st1 := if st.targeted == map[] then st.(targeted := TargetsFor(|s.nodes|, cfg.windows[w].targetFraction)) else st;
      var order := ShrinkOrder(cfg, s);
      ShrinkingLeavesDown(st1, s, order, i);
      WalkLeavesDown(cfg, st1, ShrinkTargeted(st1, s, order).nodes, now, i);
    }
  }

  /** A node that is down after the update only checks its scheduled transition before the round. */
  lemma PrepareChecksDown(cfg: PolicyConfig, policy: PolicyState, s: Sys, now: real, i: int)
    requires now >= 0.0 && 0 <= i < |s.nodes|
    requires var v := Update(cfg, policy, s.nodes, now).1[i]; IsDown(v) && (v.state.NodeOff? ==> !SomeWindowIsFar(cfg, now))
    ensures Prepare(cfg, policy, s, now).1.nodes[i] == Update(cfg, policy, s.nodes, now).1[i].CheckScheduledTransition(now)
  {
    hide Update;
    hide ApplyMalleablePolicy;
    var s1 := UpdateRunningPredictions(s, now);
    var (policy1, nodes1) := Update(cfg, policy, s1.nodes, now);
    MakingRoomLeavesDown(cfg, policy1, s1.(nodes := nodes1), now, i);
  }

  lemma RoundLeavesDown(strategy: Strategy, loaded: bool, s: Sys, t: Round, i: int)
    requires Inv(s) && RoundOk(strategy, loaded, s, t, -1) && 0 <= i < |s.nodes| && IsDown(s.nodes[i])
    ensures |t.sys.nodes| == |s.nodes| && t.sys.nodes[i] == s.nodes[i]
  {
    assert NodeEvolves(s.nodes[i], t.sys.nodes[i]) && NodeOk(s.jobs, s.nodes[i], i) && NodeOk(t.sys.jobs, t.sys.nodes[i], i);
  }

  /** A node that is down is on no active or starting job's lists. */
  lemma DownIsUnclaimed(s: Sys, i: int, j: int)
    requires Inv(s) && 0 <= i < |s.nodes| && IsDown(s.nodes[i]) && 0 <= j < |s.jobs|
    ensures s.jobs[j].Active() ==> i !in s.jobs[j].assignedNodes && i !in s.jobs[j].executingNodes
    ensures s.jobs[j].state.PendingAllocation? ==> i !in s.jobs[j].assignedNodes
  {
    assert NodeOk(s.jobs, s.nodes[i], i);
  }

  lemma AnswerLeavesDown(s: Sys, requester: int, now: real, i: int)
    requires Inv(s) && 0 <= i < |s.nodes| && IsDown(s.nodes[i])
    ensures Answer(s, requester, now).nodes[i] == s.nodes[i]
  {
    if 0 <= requester < |s.jobs| && s.jobs[requester].state.PendingReconfiguration? {
      DownIsUnclaimed(s, i, requester);
      hide Inv;
    }
  }

  lemma {:induction false} ForwardingLeavesDown(strategy: Strategy, loaded: bool, s: Sys, a: Agreements, started: seq<int>, now: real, i: int)
    requires Forwarding(strategy, loaded, s, a, started) && 0 <= i < |s.nodes| && IsDown(s.nodes[i])
    ensures ForwardAll(s, started, now).nodes[i] == s.nodes[i]
    decreases |started|
  {
    if started != [] {
      var j := started[0];
      ForwardStep(strategy, loaded, s, a, started, now);
      DownIsUnclaimed(s, i, j);
      hide Forwarding;
      ForwardingLeavesDown(strategy, loaded, s.ForwardAllocation(j, now), a, started[1..], now, i);
    }
  }

  /** The rest of an invocation leaves a node alone that is down when the strategy is asked. */
  lemma InvocationLeavesDown(cfg: SchedulerConfig, w: World, now: real, requester: int, i: int)
    requires now >= 0.0 && Settled(cfg.strategy, cfg.policy.loaded, w.sys, w.agreements)
    requires 0 <= i < |w.sys.nodes| && IsDown(Prepare(cfg.policy, w.policy, w.sys, now).1.nodes[i])
    ensures |Invoke(cfg, w, now, requester).sys.nodes| == |w.sys.nodes|
    ensures Invoke(cfg, w, now, requester).sys.nodes[i] == Prepare(cfg.policy, w.policy, w.sys, now).1.nodes[i]
  {
    PrepareKeepsSettled(cfg.strategy, cfg.policy, w.policy, w.sys, w.agreements, now);
    var (policy, s) := Prepare(cfg.policy, w.policy, w.sys, now);
    assert Inv(s);
    hide Inv;
    hide IsDown;
    hide Settled;
    hide RoundOk;
    hide Prepare;
    hide ScheduleRound;
    hide ForwardAll;
    hide Answer;
    var ctx, loaded := Context(cfg.policy, policy, now), cfg.policy.loaded;
    var t := ScheduleRound(cfg.strategy, ctx, s, w.agreements);
    RoundIsSafe(cfg.strategy, ctx, s, w.agreements);
    RoundLeavesDown(cfg.strategy, loaded, s, t, i);
    RoundEndsForwarding(cfg.strategy, loaded, s, t);
    AnswerKeepsForwarding(cfg.strategy, loaded, t.sys, t.agreements, t.started, requester, now);
    assert Inv(t.sys);
    hide Forwarding;
    AnswerLeavesDown(t.sys, requester, now, i);
    ForwardingLeavesDown(cfg.strategy, loaded, Answer(t.sys, requester, now), t.agreements, t.started, now, i);
  }

  lemma RetargetKeepsDrainStart(cfg: PolicyConfig, st: PolicyState, nodeCount: nat, now: real)
    requires now >= 0.0
    ensures Retarget(cfg, st, nodeCount, now).drainStart == st.drainStart
  {
  }

  lemma UnusedIsIdle(strategy: Strategy, loaded: bool, s: Sys, a: Agreements, i: int)
    requires Settled(strategy, loaded, s, a) && 0 <= i < |s.nodes| && !s.nodes[i].state.NodeAllocated? && !s.nodes[i].state.NodeReserved?
    ensures s.nodes[i].IsIdle() && s.nodes[i].expected == {}
    ensures s.nodes[i].state.NodeOff? ==> s.nodes[i].transitionTime <= 0.0
    ensures s.nodes[i].transitionTime > 0.0 ==> s.nodes[i].target == if s.nodes[i].state.NodeShuttingDown? then NodeOff else NodeFree
  {
    assert NodeOk(s.jobs, s.nodes[i], i);
  }

  /** What the update makes of a node is what it is after the invocation, once the scheduled
      transition was checked. */
  lemma InvocationKeepsUpdate(cfg: SchedulerConfig, w: World, now: real, requester: int, i: int)
    requires now >= 0.0 && Settled(cfg.strategy, cfg.policy.loaded, w.sys, w.agreements) && 0 <= i < |w.sys.nodes|
    requires var v := Update(cfg.policy, w.policy, w.sys.nodes, now).1[i];
      IsDown(v) && IsDown(v.CheckScheduledTransition(now)) && (v.state.NodeOff? ==> !SomeWindowIsFar(cfg.policy, now))
    ensures |Invoke(cfg, w, now, requester).sys.nodes| == |w.sys.nodes|
    ensures Invoke(cfg, w, now, requester).sys.nodes[i] == Update(cfg.policy, w.policy, w.sys.nodes, now).1[i].CheckScheduledTransition(now)
  {
    hide IsDown;
    hide SomeWindowIsFar;
    hide Settled;
    hide Update;
    hide Invoke;
    hide Prepare;
    PrepareChecksDown(cfg.policy, w.policy, w.sys, now, i);
    InvocationLeavesDown(cfg, w, now, requester, i);
  }

  /** While a window is open, an invocation shuts down every draining node that has not timed out. */
  lemma InvocationShutsDownDraining(cfg: SchedulerConfig, w: World, now: real, requester: int, i: int)
    requires now >= 0.0 && Settled(cfg.strategy, cfg.policy.loaded, w.sys, w.agreements) && 0 <= i < |w.sys.nodes|
    requires cfg.policy.loaded && cfg.policy.IsActiveAt(now) && cfg.policy.InAnyWindow(now)
    requires w.sys.nodes[i].state.NodeDraining? && !TimedOut(cfg.policy, w.policy, i, now)
    ensures |Invoke(cfg, w, now, requester).sys.nodes| == |w.sys.nodes|
    ensures Invoke(cfg, w, now, requester).sys.nodes[i] == GoingDown(cfg.policy, w.sys.nodes[i], now).CheckScheduledTransition(now)
  {
    UnusedIsIdle(cfg.strategy, cfg.policy.loaded, w.sys, w.agreements, i);
    UpdateObeysLaw(cfg.policy, w.policy, w.sys.nodes, now, i);
    RetargetKeepsDrainStart(cfg.policy, w.policy, |w.sys.nodes|, now);
    hide Settled;
    hide Update;
    hide Retarget;
    hide Invoke;
    InvocationKeepsUpdate(cfg, w, now, requester, i);
  }

  /** And every free node that is targeted. */
  lemma InvocationShutsDownTargeted(cfg: SchedulerConfig, w: World, now: real, requester: int, i: int)
    requires now >= 0.0 && Settled(cfg.strategy, cfg.policy.loaded, w.sys, w.agreements) && 0 <= i < |w.sys.nodes|
    requires cfg.policy.loaded && cfg.policy.IsActiveAt(now) && cfg.policy.InAnyWindow(now)
    requires w.sys.nodes[i].state.NodeFree? && Retarget(cfg.policy, w.policy, |w.sys.nodes|, now).IsTargeted(i)
    ensures |Invoke(cfg, w, now, requester).sys.nodes| == |w.sys.nodes|
    ensures Invoke(cfg, w, now, requester).sys.nodes[i] == GoingDown(cfg.policy, w.sys.nodes[i], now).CheckScheduledTransition(now)
  {
    UnusedIsIdle(cfg.strategy, cfg.policy.loaded, w.sys, w.agreements, i);
    UpdateObeysLaw(cfg.policy, w.policy, w.sys.nodes, now, i);
    hide Settled;
    hide Update;
    hide Retarget;
    hide Invoke;
    InvocationKeepsUpdate(cfg, w, now, requester, i);
  }

  /** An invocation boots a node that is off exactly if some window is neither open nor near. */
  lemma InvocationBootsExactlyIf(cfg: SchedulerConfig, w: World, now: real, requester: int, i: int)
    requires now >= 0.0 && Settled(cfg.strategy, cfg.policy.loaded, w.sys, w.agreements) && 0 <= i < |w.sys.nodes|
    requires cfg.policy.loaded && cfg.policy.IsActiveAt(now) && cfg.policy.bootSeconds > 0 && w.sys.nodes[i].state.NodeOff?
    ensures |Invoke(cfg, w, now, requester).sys.nodes| == |w.sys.nodes|
    ensures Invoke(cfg, w, now, requester).sys.nodes[i]
         == if SomeWindowIsFar(cfg.policy, now) then Booting(cfg.policy, w.sys.nodes[i], now) else w.sys.nodes[i]
  {
    UnusedIsIdle(cfg.strategy, cfg.policy.loaded, w.sys, w.agreements, i);
    UpdateObeysLaw(cfg.policy, w.policy, w.sys.nodes, now, i);
    hide Settled;
    hide Update;
    hide Retarget;
    hide Invoke;
    hide SomeWindowIsFar;
    InvocationKeepsUpdate(cfg, w, now, requester, i);
  }

  /** Without an active policy the update changes nothing. */
  lemma UpdateLeavesUnderWay(cfg: PolicyConfig, st: PolicyState, nodes: seq<NodeView>, now: real, i: int)
    requires now >= 0.0 && 0 <= i < |nodes| && (nodes[i].state.NodeShuttingDown? || nodes[i].state.NodeBooting?)
    ensures Update(cfg, st, nodes, now).1[i] == nodes[i]
  {
    if cfg.loaded && cfg.IsActiveAt(now) { UpdateObeysLaw(cfg, st, nodes, now, i); }
  }

  /** A node whose shutdown is due is off after an invocation. */
  lemma DueShutdownFinishes(cfg: SchedulerConfig, w: World, now: real, requester: int, i: int)
    requires now >= 0.0 && Settled(cfg.strategy, cfg.policy.loaded, w.sys, w.agreements) && 0 <= i < |w.sys.nodes|
    requires w.sys.nodes[i].state.NodeShuttingDown? && 0.0 < w.sys.nodes[i].transitionTime <= now
    ensures |Invoke(cfg, w, now, requester).sys.nodes| == |w.sys.nodes|
    ensures Invoke(cfg, w, now, requester).sys.nodes[i] == w.sys.nodes[i].(state := NodeOff, transitionTime := -1.0)
  {
    UnusedIsIdle(cfg.strategy, cfg.policy.loaded, w.sys, w.agreements, i);
    UpdateLeavesUnderWay(cfg.policy, w.policy, w.sys.nodes, now, i);
    hide Settled;
    hide Update;
    hide Invoke;
    InvocationKeepsUpdate(cfg, w, now, requester, i);
  }

  /** A node whose boot is due is free when the strategy is asked, and only then. */
  lemma DueBootFinishes(strategy: Strategy, cfg: PolicyConfig, policy: PolicyState, s: Sys, a: Agreements, now: real, i: int)
    requires now >= 0.0 && Settled(strategy, cfg.loaded, s, a) && 0 <= i < |s.nodes| && s.nodes[i].state.NodeBooting?
    ensures Prepare(cfg, policy, s, now).1.nodes[i]
         == if 0.0 < s.nodes[i].transitionTime <= now then s.nodes[i].(state := NodeFree, transitionTime := -1.0) else s.nodes[i]
  {
    UnusedIsIdle(strategy, cfg.loaded, s, a, i);
    UpdateLeavesUnderWay(cfg, policy, s.nodes, now, i);
    hide Settled;
    hide Update;
    hide Prepare;
    PrepareChecksDown(cfg, policy, s, now, i);
  }
}
