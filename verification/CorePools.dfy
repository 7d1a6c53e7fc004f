/** Asking whether a node accepts a job reads the node's core-pool flag with `operator[]`, which
    inserts a flag that is missing. In an invocation no flag is ever missing by then. */
module CorePools {
  import opened Sequences
  import opened ShutdownCalendar
  import opened ClusterState
  import opened ShutdownPolicy
  import opened SchedulingRound
  import opened Scheduler

  /** Every node has a core-pool flag. */
  ghost predicate Covers(m: map<int, bool>, nodeCount: nat) {
    forall i :: 0 <= i < nodeCount ==> i in m
  }

  /** The core pool is assigned for all nodes at once. */
  ghost predicate AllOrNone(st: PolicyState, nodeCount: nat) {
    st.inCorePool == map[] || Covers(st.inCorePool, nodeCount)
  }

  /** Admission reads core-pool flags at such a time. */
  ghost predicate AsksForCore(cfg: PolicyConfig, now: real) {
    cfg.loaded && cfg.IsActiveAt(now) && cfg.strategy.FlexCorePool?
  }

  lemma RetargetCovers(cfg: PolicyConfig, st: PolicyState, nodeCount: nat, now: real)
    requires now >= 0.0 && AllOrNone(st, nodeCount)
    ensures AllOrNone(Retarget(cfg, st, nodeCount, now), nodeCount)
    ensures cfg.strategy.FlexCorePool? ==> Covers(Retarget(cfg, st, nodeCount, now).inCorePool, nodeCount)
  {
  }

  /** The walk over the nodes removes no flag. */
  lemma {:induction false} WalkKeepsFlags(cfg: PolicyConfig, st: PolicyState, nodes: seq<NodeView>, now: real, k: nat)
    requires now >= 0.0 && k <= |nodes|
    ensures var pools := UpdateNodesUpTo(cfg, st, nodes, now, k).0.inCorePool;
      && (forall i :: i in st.inCorePool ==> i in pools)
      && (!cfg.strategy.FlexCorePool? ==> pools == st.inCorePool)
  {
    if k > 0 { WalkKeepsFlags(cfg, st, nodes, now, k - 1); }
  }

  lemma WalkKeepsCover(cfg: PolicyConfig, st: PolicyState, nodes: seq<NodeView>, now: real)
    requires now >= 0.0
    ensures var pools := UpdateNodeStates(cfg, st, nodes, now).0.inCorePool;
      (Covers(st.inCorePool, |nodes|) ==> Covers(pools, |nodes|)) && (!cfg.strategy.FlexCorePool? ==> pools == st.inCorePool)
  {
    hide StepNode;
    WalkKeepsFlags(cfg, st, nodes, now, |nodes|);
  }

  lemma UpdateCovers(cfg: PolicyConfig, st: PolicyState, nodes: seq<NodeView>, now: real)
    requires now >= 0.0 && AllOrNone(st, |nodes|)
    ensures var t := Update(cfg, st, nodes, now).0;
      AllOrNone(t, |nodes|) && (AsksForCore(cfg, now) ==> Covers(t.inCorePool, |nodes|))
  {
    hide Retarget;
    hide UpdateNodesUpTo;
    RetargetCovers(cfg, st, |nodes|, now);
    WalkKeepsCover(cfg, Retarget(cfg, st, |nodes|, now), nodes, now);
  }

  lemma MakingRoomCovers(cfg: PolicyConfig, st: PolicyState, s: Sys, now: real)
    requires now >= 0.0 && AllOrNone(st, |s.nodes|) && (AsksForCore(cfg, now) ==> Covers(st.inCorePool, |s.nodes|))
    ensures var t := ApplyMalleablePolicy(cfg, st, s, now).0;
      AllOrNone(t, |s.nodes|) && (AsksForCore(cfg, now) ==> Covers(t.inCorePool, |s.nodes|))
  {
    hide UpdateNodeStates;
    hide ShrinkTargeted;
    hide ShrinksAny;
    hide ShrinkOrder;
    hide ShrinkWindowFrom;
    hide PolicyConfig.IsActiveAt;
    hide ShutdownWindow.IsInWindow;
    hide TargetsFor;
    var w := if cfg.loaded && cfg.malleableShrinkToTarget && cfg.IsActiveAt(now) then ShrinkWindowFrom(cfg, now, 0) else -1;
    if w != -1 {
      var st1 := if st.targeted == map[] then st.(targeted := TargetsFor(|s.nodes|, cfg.windows[w].targetFraction)) else st;
      var order := ShrinkOrder(cfg, s);
      var t := ShrinkTargeted(st1, s, order);
      WalkKeepsCover(cfg, st1, t.nodes, now);
    }
  }

  /** When the strategy is asked, every flag that admission reads is there. */
  lemma PrepareCovers(cfg: PolicyConfig, policy: PolicyState, s: Sys, now: real)
    requires now >= 0.0 && AllOrNone(policy, |s.nodes|)
    ensures var t := Prepare(cfg, policy, s, now).0;
      AllOrNone(t, |s.nodes|) && (AsksForCore(cfg, now) ==> Covers(t.inCorePool, |s.nodes|))
  {
    hide Update;
    hide ApplyMalleablePolicy;
    var s1 := UpdateRunningPredictions(s, now);
    var (policy1, nodes1) := Update(cfg, policy, s1.nodes, now);
    UpdateCovers(cfg, policy, s1.nodes, now);
    MakingRoomCovers(cfg, policy1, s1.(nodes := nodes1), now);
  }

  lemma ScheduleKeepsFlags(cfg: SchedulerConfig, w: World, now: real, requester: int := -1)
    requires now >= 0.0 && AllOrNone(w.policy, |w.sys.nodes|)
    ensures var t := Schedule(cfg, w, now, requester); AllOrNone(t.policy, |t.sys.nodes|) && |t.sys.nodes| == |w.sys.nodes|
  {
    hide Prepare;
    hide ScheduleRound;
    PrepareCovers(cfg.policy, w.policy, w.sys, now);
  }

  lemma HandleKeepsFlags(cfg: SchedulerConfig, w: World, e: Event)
    requires Possible(w, e) && AllOrNone(w.policy, |w.sys.nodes|)
    ensures var t := Handle(cfg, w, e); AllOrNone(t.policy, |t.sys.nodes|) && |t.sys.nodes| == |w.sys.nodes|
  {
    hide Schedule;
    match e.message
    case InvokeScheduling => ScheduleKeepsFlags(cfg, w, e.at);
    case JobSubmit(v) => ScheduleKeepsFlags(cfg, w.(sys := w.sys.Submit(v), clock := e.at), e.at);
    case SchedulingPointReached(j) =>
      ScheduleKeepsFlags(cfg, w.(sys := w.sys.SchedulingPoint(j, e.at), clock := e.at), e.at);
      ScheduleKeepsFlags(cfg, w, e.at, j);
    case WorkloadProcessed(j) => ScheduleKeepsFlags(cfg, w.(sys := w.sys.ProcessedWorkload(j, e.at), clock := e.at), e.at);
    case ApplicationRuns(j) =>
  }

  lemma {:induction false} RunKeepsFlags(cfg: SchedulerConfig, w: World, events: seq<Event>)
    requires PossibleRun(cfg, w, events) && AllOrNone(w.policy, |w.sys.nodes|)
    ensures var t := Run(cfg, w, events); AllOrNone(t.policy, |t.sys.nodes|) && |t.sys.nodes| == |w.sys.nodes|
    decreases |events|
  {
    hide Handle;
    if events != [] {
      HandleKeepsFlags(cfg, w, events[0]);
      RunKeepsFlags(cfg, Handle(cfg, w, events[0]), events[1..]);
    }
  }

  /** Over whole runs: whenever an invocation asks nodes whether they accept a job, no core-pool
      flag is inserted, so that a question never changes a later answer. */
  lemma AdmissionInsertsNothing(cfg: SchedulerConfig, nodeCount: nat, events: seq<Event>, now: real, i: int)
    requires PossibleRun(cfg, NewWorld(nodeCount), events) && now >= 0.0
    requires AsksForCore(cfg.policy, now) && 0 <= i < nodeCount
    ensures var w := Run(cfg, NewWorld(nodeCount), events);
      var pools := Prepare(cfg.policy, w.policy, w.sys, now).0.inCorePool; Touch(pools, i) == pools
  {
    hide Prepare;
    RunKeepsFlags(cfg, NewWorld(nodeCount), events);
    var w := Run(cfg, NewWorld(nodeCount), events);
    PrepareCovers(cfg.policy, w.policy, w.sys, now);
  }

  /** The order matters: a flag inserted before the pools are assigned takes the core pool away for
      good, exactly if the pools were still to be assigned and the core pool is not empty. */
  lemma EarlyQuestionLosesTheCore(cfg: PolicyConfig, st: PolicyState, nodeCount: nat, now: real, i: int)
    requires now >= 0.0 && 0 <= i < nodeCount && cfg.strategy.FlexCorePool? && AllOrNone(st, nodeCount)
    ensures var asked, unasked := Retarget(cfg, st.(inCorePool := Touch(st.inCorePool, i)), nodeCount, now), Retarget(cfg, st, nodeCount, now);
      (exists k :: 0 <= k < nodeCount && asked.IsCore(k) != unasked.IsCore(k))
      <==> st.inCorePool == map[] && CorePoolSize(nodeCount, cfg.corePoolFraction) > 0
  {
    hide CorePoolSize;
    hide RetargetPool;
    hide RetargetOnTransition;
    var asked, unasked := Retarget(cfg, st.(inCorePool := Touch(st.inCorePool, i)), nodeCount, now), Retarget(cfg, st, nodeCount, now);
    RetargetSetsCore(cfg, st.(inCorePool := Touch(st.inCorePool, i)), nodeCount, now);
    RetargetSetsCore(cfg, st, nodeCount, now);
    if st.inCorePool == map[] && CorePoolSize(nodeCount, cfg.corePoolFraction) > 0 {
      assert unasked.IsCore(0) && !asked.IsCore(0);
    }
  }

  lemma RetargetSetsCore(cfg: PolicyConfig, st: PolicyState, nodeCount: nat, now: real)
    requires now >= 0.0 && cfg.strategy.FlexCorePool?
    ensures Retarget(cfg, st, nodeCount, now).inCorePool
         == if st.inCorePool == map[] then PrefixFlags(nodeCount, CorePoolSize(nodeCount, cfg.corePoolFraction)) else st.inCorePool
  {
  }
}
