/** A run in which expansion gives a targeted node work while a shutdown window is open: the node
    was drained for the window, the draining took as long as it may, and the node was set free. */
module ExpansionWitness {
  import opened Sequences
  import opened RuntimePrediction
  import opened ShutdownCalendar
  import opened ClusterState
  import opened ShutdownPolicy
  import opened PowerSafety
  import opened AgreementMaps
  import opened SchedulingRound
  import opened Scheduler

  /** Three quarters of the nodes go down from two to four o'clock; draining takes at most the hour before. */
  const POLICY := PolicyConfig(true, [ShutdownWindow(2, 4, 0.25)], Simple, 0.0, 3600, 60, 60, 3600, false, 0, false, 0, 0, false, 0, ByMin, true)
  const CONFIG := SchedulerConfig(MinAgreement, POLICY, 0.0, true, true, true, false)

  /** A malleable job of one or two nodes that runs for longer than five hours. */
  const PROFILE: JobProfile := Profile(20000.0, 1, 0.0)
  const JOB := JobView(Malleable, 1, 2, 1, PROFILE, Pending, [], [], NoPrediction, false)

  const EVENTS := [Event(0.0, JobSubmit(JOB)), Event(3600.0, InvokeScheduling), Event(7200.0, InvokeScheduling)]

  function JobOn(state: JobState, assignedNodes: seq<int>, work: real, now: real): JobView {
    JOB.(state := state, assignedNodes := assignedNodes, executingNodes := [1], prediction := Prediction(1, 20000.0, work, now, 1))
  }

  function Targets(drainStart: map<int, real>, window: int): PolicyState {
    PolicyState(map[], drainStart, map[0 := true, 1 := false], window, 0)
  }

  const BUSY := NEW_NODE.(running := {0}, state := NodeAllocated)

  /** The job runs on node 1; node 0 is in the given state. */
  function WorldWith(state: NodeState, work: real, now: real, policy: PolicyState): World {
    World(Sys([NEW_NODE.(state := state), BUSY], [JobOn(Running, [1], work, now)]), policy, NO_AGREEMENTS, now, now)
  }

  lemma Calendar()
    ensures var w := POLICY.windows[0];
      && !w.IsInWindow(0.0) && !w.IsInDrainLeadTime(0.0, 3600) && w.GetNextShutdownTime(0.0) == 7200
      && !w.IsInWindow(3600.0) && w.IsInDrainLeadTime(3600.0, 3600) && w.GetNextShutdownTime(3600.0) == 7200
      && w.IsInWindow(7200.0) && !w.IsInDrainLeadTime(7200.0, 3600) && w.GetNextShutdownTime(7200.0) == 93600
  {
    assert (0.0 as real).Floor == 0 && (3600.0 as real).Floor == 3600 && (7200.0 as real).Floor == 7200;
  }

  lemma CalendarOfPolicy()
    ensures !POLICY.InAnyWindow(0.0) && !POLICY.InAnyDrainLeadTime(0.0)
    ensures !POLICY.InAnyWindow(3600.0) && POLICY.InAnyDrainLeadTime(3600.0)
    ensures POLICY.InAnyWindow(7200.0) && !POLICY.InAnyDrainLeadTime(7200.0)
  {
    hide ShutdownWindow.IsInWindow;
    hide ShutdownWindow.IsInDrainLeadTime;
    Calendar();
    var w := POLICY.windows[0];
    assert POLICY.windows == [w] && POLICY.drainLeadTime == 3600;
  }

  lemma FirstIsTargeted()
    ensures TargetsFor(2, 0.25) == map[0 := true, 1 := false]
  {
    assert (2.0 * 0.75 as real).Floor == 1;
    assert TargetCount(2, 0.25) == 1;
    var m := PrefixFlags(2, 1);
    assert m[0] && !m[1];
  }

  // ---- Retargeting -----------------------------------------------------------------------

  lemma Retargets()
    ensures Retarget(POLICY, NO_POLICY_STATE, 2, 0.0) == Targets(map[], -1)
    ensures Retarget(POLICY, Targets(map[], -1), 2, 3600.0) == Targets(map[], 0)
    ensures Retarget(POLICY, Targets(map[0 := 3600.0], 0), 2, 7200.0) == Targets(map[0 := 3600.0], 0)
  {
    hide ShutdownWindow.IsInWindow;
    hide ShutdownWindow.IsInDrainLeadTime;
    hide ShutdownWindow.GetNextShutdownTime;
    hide TargetsFor;
    Calendar();
    FirstIsTargeted();
    assert ActiveWindowFrom(POLICY, 0.0, 0) == -1;
    assert ActiveWindowFrom(POLICY, 3600.0, 0) == 0 && DrainingWindowFrom(POLICY, 3600.0, 0) == 0;
    assert ActiveWindowFrom(POLICY, 7200.0, 0) == 0;
    assert map[0 := true, 1 := false] != map[] by { assert 0 in map[0 := true, 1 := false]; }
  }

  // ---- Before the strategy is asked ------------------------------------------------------

  lemma Walk(st: PolicyState, a: NodeView, b: NodeView, now: real)
    requires now >= 0.0
    ensures var (st1, a1) := StepNode(POLICY, st, a, 0, now); var (st2, b1) := StepNode(POLICY, st1, b, 1, now);
      UpdateNodeStates(POLICY, st, [a, b], now) == (st2, [a1, b1])
  {
    hide StepNode;
    assert UpdateNodesUpTo(POLICY, st, [a, b], now, 0) == (st, [a, b]);
    var (st1, a1) := StepNode(POLICY, st, a, 0, now);
    assert [a, b][0 := a1] == [a1, b];
    assert UpdateNodesUpTo(POLICY, st, [a, b], now, 1) == (st1, [a1, b]);
    var (st2, b1) := StepNode(POLICY, st1, b, 1, now);
    assert [a1, b][1 := b1] == [a1, b1];
  }

  lemma Fires(a: NodeView, b: NodeView, now: real)
    requires a.transitionTime <= 0.0 && b.transitionTime <= 0.0
    ensures FireTransitions([a, b], now) == [a, b]
  {
    var r := FireTransitions([a, b], now);
    assert r[0] == a && r[1] == b;
  }

  lemma Rates()
    ensures PROFILE.RelativeRate(1) == 1.0 && PROFILE.RelativeRate(2) == 1.0 && PROFILE.PredictedRuntimeForNodes(1) == 20000.0
  {
    assert PROFILE.SerialShare(1) == 1.0 && PROFILE.SerialShare(2) == 1.0;
    assert PROFILE.Speedup(1) == 1.0 && PROFILE.Speedup(2) == 1.0;
  }

  lemma Progresses(nodes: seq<NodeView>, work: real, from: real, now: real)
    requires now > from && work - (now - from) > 0.0
    ensures UpdateRunningPredictions(Sys(nodes, [JobOn(Running, [1], work, from)]), now) == Sys(nodes, [JobOn(Running, [1], work - (now - from), now)])
  {
    Rates();
    hide Profile.RelativeRate;
    var v := JobOn(Running, [1], work, from);
    assert UpdateProgress(PROFILE, v.prediction, now).remainingWork == work - (now - from) * 1.0;
  }

  lemma PreparedAtNight()
    ensures Prepare(POLICY, NO_POLICY_STATE, Sys([NEW_NODE, NEW_NODE], [JOB]), 0.0) == (Targets(map[], -1), Sys([NEW_NODE, NEW_NODE], [JOB]))
  {
    hide PolicyConfig.InAnyWindow;
    hide PolicyConfig.InAnyDrainLeadTime;
    hide Retarget;
    hide UpdateNodeStates;
    hide FireTransitions;
    CalendarOfPolicy();
    Retargets();
    Walk(Targets(map[], -1), NEW_NODE, NEW_NODE, 0.0);
    Fires(NEW_NODE, NEW_NODE, 0.0);
    assert UpdateRunningPredictions(Sys([NEW_NODE, NEW_NODE], [JOB]), 0.0) == Sys([NEW_NODE, NEW_NODE], [JOB]);
    assert POLICY.IsActiveAt(0.0);
  }

  lemma PreparedBefore()
    ensures var w := WorldWith(NodeFree, 20000.0, 0.0, Targets(map[], -1)); var t := WorldWith(NodeDraining, 16400.0, 3600.0, Targets(map[0 := 3600.0], 0));
      Prepare(POLICY, w.policy, w.sys, 3600.0) == (t.policy, t.sys)
  {
    hide PolicyConfig.InAnyWindow;
    hide PolicyConfig.InAnyDrainLeadTime;
    hide Retarget;
    hide UpdateNodeStates;
    hide UpdateRunningPredictions;
    hide FireTransitions;
    CalendarOfPolicy();
    Retargets();
    Progresses([NEW_NODE, BUSY], 20000.0, 0.0, 3600.0);
    Walk(Targets(map[], 0), NEW_NODE, BUSY, 3600.0);
    Fires(NEW_NODE.(state := NodeDraining), BUSY, 3600.0);
    assert map[][0 := 3600.0] == map[0 := 3600.0];
    assert 0 in BUSY.running;
  }

  lemma PreparedInWindow()
    ensures var w := WorldWith(NodeDraining, 16400.0, 3600.0, Targets(map[0 := 3600.0], 0)); var t := WorldWith(NodeFree, 12800.0, 7200.0, Targets(map[], 0));
      Prepare(POLICY, w.policy, w.sys, 7200.0) == (t.policy, t.sys)
  {
    hide PolicyConfig.InAnyWindow;
    hide PolicyConfig.InAnyDrainLeadTime;
    hide Retarget;
    hide UpdateNodeStates;
    hide UpdateRunningPredictions;
    hide FireTransitions;
    CalendarOfPolicy();
    Retargets();
    Progresses([NEW_NODE.(state := NodeDraining), BUSY], 16400.0, 3600.0, 7200.0);
    Walk(Targets(map[0 := 3600.0], 0), NEW_NODE.(state := NodeDraining), BUSY, 7200.0);
    Fires(NEW_NODE, BUSY, 7200.0);
    assert map[0 := 3600.0] - {0} == map[];
    assert 0 in BUSY.running;
  }

  // ---- The rounds ------------------------------------------------------------------------

  lemma FilterOfOne(p: int -> bool, a: int)
    ensures Filter(p, [a]) == if p(a) then [a] else []
  {
    assert [a][..0] == [];
  }

  lemma FilterOfTwo(p: int -> bool, a: int, b: int)
    ensures Filter(p, [a, b]) == if p(a) then (if p(b) then [a, b] else [a]) else if p(b) then [b] else []
  {
    assert [a, b][..1] == [a];
    FilterOfOne(p, a);
  }

  lemma Ranges()
    ensures Range(1) == [0] && Range(2) == [0, 1]
  {
  }

  lemma Queues(v: JobView)
    ensures PendingJobs([v]) == if v.state.Pending? then [0] else []
    ensures RunningJobs([v]) == if v.state.Running? then [0] else []
    ensures RunningMalleable([v]) == if IsRunningMalleable(v) then [0] else []
  {
    Ranges();
    FilterOfOne(j => 0 <= j < |[v]| && [v][j].state.Pending?, 0);
    FilterOfOne(j => 0 <= j < |[v]| && [v][j].state.Running?, 0);
    FilterOfOne(j => 0 <= j < |[v]| && IsRunningMalleable([v][j]), 0);
  }

  lemma FreeOfTwo(a: NodeView, b: NodeView)
    ensures FreeNodes([a, b]) == if a.state.NodeFree? then (if b.state.NodeFree? then [0, 1] else [0]) else if b.state.NodeFree? then [1] else []
  {
    Ranges();
    FilterOfTwo(i => 0 <= i < |[a, b]| && [a, b][i].state.NodeFree?, 0, 1);
  }

  lemma NothingReserved(ctx: Ctx, r: Round)
    requires r.agreements == NO_AGREEMENTS && r.Indexed() && (r.pending == [] || r.pending == [0])
    requires r.free == [] || r.free == [0] || r.free == [0, 1]
    ensures WithoutAgreements(ResolvePhase(MinAgreement, ctx, r)) == r
  {
    hide ResolveOne;
    FilterOfOne(j => r.agreements.HasJob(j), 0);
    FilterOfOne(j => !r.agreements.HasJob(j), 0);
    FilterOfOne(n => !r.agreements.HasNode(n), 0);
    FilterOfTwo(n => !r.agreements.HasNode(n), 0, 1);
  }

  lemma AtNight(ctx: Ctx, s: Sys)
    requires ctx == Context(POLICY, Targets(map[], -1), 0.0) && s == Sys([NEW_NODE, NEW_NODE], [JOB])
    ensures EligibleForPending(ctx, s, 0, [0, 1], 1) == [1]
  {
    hide ShutdownWindow.IsInWindow;
    hide ShutdownWindow.IsInDrainLeadTime;
    hide ShutdownWindow.GetNextShutdownTime;
    hide Profile.PredictedRuntimeForNodes;
    Calendar();
    CalendarOfPolicy();
    Rates();
    assert POLICY.IsActiveAt(0.0) && |POLICY.windows| == 1;
    assert !Accepts(ctx, s.nodes, 0, 20000.0, false) && Accepts(ctx, s.nodes, 1, 20000.0, false);
    FilterOfTwo(n => Accepts(ctx, s.nodes, n, 20000.0, false), 0, 1);
  }

  lemma StartAtNight(ctx: Ctx, s: Sys)
    requires ctx == Context(POLICY, Targets(map[], -1), 0.0) && s == Sys([NEW_NODE, NEW_NODE], [JOB])
    ensures AllocatePhase(MinAgreement, ctx, Round(s, NO_AGREEMENTS, [0], [0, 1], []), []) == Round(s.Start(0, [1]), NO_AGREEMENTS, [], [0], [0])
  {
    hide EligibleForPending;
    AtNight(ctx, s);
    var r, t := Round(s, NO_AGREEMENTS, [0], [0, 1], []), Round(s.Start(0, [1]), NO_AGREEMENTS, [], [0], [0]);
    assert BackfillStart(r, 0, [1]) == t;
    assert BackfillOne(MinAgreement, ctx, r, 0, []) == t by { assert [1][..1] == [1]; }
    assert Backfill(MinAgreement, ctx, t, 1, []) == t;
  }

  /** At midnight the targeted node refuses the job, which starts on the other one. */
  lemma RoundAtNight(ctx: Ctx, s: Sys)
    requires ctx == Context(POLICY, Targets(map[], -1), 0.0) && s == Sys([NEW_NODE, NEW_NODE], [JOB])
    ensures ScheduleRound(MinAgreement, ctx, s, NO_AGREEMENTS) == Round(s.Start(0, [1]), NO_AGREEMENTS, [], [0], [0])
  {
    hide ResolvePhase;
    hide WithoutAgreements;
    Queues(JOB);
    FreeOfTwo(NEW_NODE, NEW_NODE);
    var r := Round(s, NO_AGREEMENTS, [0], [0, 1], []);
    NothingReserved(ctx, r);
    assert SoonestEndFirst(ctx, s) == [];
    StartAtNight(ctx, s);
    hide AllocatePhase;
  }

  /** An hour before the window the free node is drained; there is nothing to schedule. */
  lemma RoundBefore(ctx: Ctx, s: Sys)
    requires s == WorldWith(NodeDraining, 16400.0, 3600.0, ctx.policy).sys
    ensures ScheduleRound(MinAgreement, ctx, s, NO_AGREEMENTS) == Round(s, NO_AGREEMENTS, [], [], [])
  {
    hide ResolvePhase;
    hide WithoutAgreements;
    Queues(s.jobs[0]);
    FreeOfTwo(s.nodes[0], s.nodes[1]);
    NothingReserved(ctx, Round(s, NO_AGREEMENTS, [], [], []));
  }

  lemma InWindow(ctx: Ctx, s: Sys)
    requires ctx == Context(POLICY, Targets(map[], 0), 7200.0) && s == WorldWith(NodeFree, 12800.0, 7200.0, ctx.policy).sys
    ensures ExpansionFor(ctx, s, 0, [0], 2) == [0]
  {
    hide ShutdownWindow.IsInWindow;
    hide ShutdownWindow.IsInDrainLeadTime;
    hide ShutdownWindow.GetNextShutdownTime;
    hide Profile.RelativeRate;
    Calendar();
    Rates();
    assert POLICY.IsActiveAt(7200.0) && |POLICY.windows| == 1;
    assert PlannedRemainingRuntime(ctx, s.jobs[0], 2) == 12800.0;
    assert Accepts(ctx, s.nodes, 0, 12800.0, true);
    FilterOfOne(n => Accepts(ctx, s.nodes, n, 12800.0, true), 0);
    assert EligibleForRunning(ctx, s, 0, [0], 2) == [0];
  }

  lemma ExpansionInWindow(ctx: Ctx, s: Sys)
    requires ctx == Context(POLICY, Targets(map[], 0), 7200.0) && s == WorldWith(NodeFree, 12800.0, 7200.0, ctx.policy).sys
    ensures ExpandPhase(MinAgreement, ctx, Round(s, NO_AGREEMENTS, [], [0], []), [0]) == Round(s.ExpandBy(0, [0]), NO_AGREEMENTS, [], [], [])
  {
    hide ExpansionFor;
    hide LeastSurplusFirst;
    hide Sys.ExpandBy;
    var r, t := Round(s, NO_AGREEMENTS, [], [0], []), Round(s.ExpandBy(0, [0]), NO_AGREEMENTS, [], [], []);
    InWindow(ctx, s);
    assert ExpandJob(MinAgreement, ctx, r, 0, ToMax) == t;
    assert ExpandJobs(MinAgreement, ctx, r, [0], ToMax) == t;
    OneIsSorted(s);
  }

  lemma OneIsSorted(s: Sys)
    ensures LeastSurplusFirst(s, [0], ToMin) == [0]
  {
  }

  /** When the window opens, the targeted node is free again, and the job grows onto it. */
  lemma RoundInWindow(ctx: Ctx, s: Sys)
    requires ctx == Context(POLICY, Targets(map[], 0), 7200.0) && s == WorldWith(NodeFree, 12800.0, 7200.0, ctx.policy).sys
    ensures ScheduleRound(MinAgreement, ctx, s, NO_AGREEMENTS) == Round(s.ExpandBy(0, [0]), NO_AGREEMENTS, [], [], [])
  {
    hide ResolvePhase;
    hide WithoutAgreements;
    hide ExpandPhase;
    hide PendingJobs;
    hide RunningMalleable;
    hide FreeNodes;
    hide Sys.ExpandBy;
    Queues(s.jobs[0]);
    FreeOfTwo(s.nodes[0], s.nodes[1]);
    NothingReserved(ctx, Round(s, NO_AGREEMENTS, [], [0], []));
    ExpansionInWindow(ctx, s);
  }

  // ---- The run ---------------------------------------------------------------------------

  lemma StartsAtNight(w: World)
    requires w == NewWorld(2)
    ensures Possible(w, EVENTS[0]) && Handle(CONFIG, w, EVENTS[0]) == WorldWith(NodeFree, 20000.0, 0.0, Targets(map[], -1))
  {
    hide Prepare;
    hide ScheduleRound;
    var s := Sys([NEW_NODE, NEW_NODE], [JOB]);
    assert w.sys.nodes == [NEW_NODE, NEW_NODE] && w.sys.Submit(JOB) == s;
    PreparedAtNight();
    RoundAtNight(Context(POLICY, Targets(map[], -1), 0.0), s);
    var t := s.Start(0, [1]);
    assert [] + [1] == [1];
    var u := t.ForwardAllocation(0, 0.0);
    assert {} + {0} == {0} && NEW_NODE.AllocateJob(0) == BUSY;
    assert u.nodes[0] == NEW_NODE && u.nodes[1] == BUSY;
    assert u.nodes == [NEW_NODE, BUSY];
    assert u.jobs == [JobOn(Running, [1], 20000.0, 0.0)];
    assert ForwardAll(t, [0], 0.0) == u;
  }

  lemma DrainsBefore(w: World)
    requires w == WorldWith(NodeFree, 20000.0, 0.0, Targets(map[], -1))
    ensures Possible(w, EVENTS[1]) && Handle(CONFIG, w, EVENTS[1]) == WorldWith(NodeDraining, 16400.0, 3600.0, Targets(map[0 := 3600.0], 0))
  {
    hide Prepare;
    hide ScheduleRound;
    PreparedBefore();
    var t := WorldWith(NodeDraining, 16400.0, 3600.0, Targets(map[0 := 3600.0], 0));
    RoundBefore(Context(POLICY, t.policy, 3600.0), t.sys);
  }

  /** A job was given a targeted node while a window is open. */
  ghost predicate GrewIntoWindow(cfg: PolicyConfig, w: World, j: int, n: int) {
    && w.clock >= 0.0 && cfg.InAnyWindow(w.clock) && w.policy.IsTargeted(n)
    && 0 <= j < |w.sys.jobs| && 0 <= n < |w.sys.nodes|
    && w.sys.jobs[j].Awaits(n) && w.sys.nodes[n].state.NodeReserved? && w.sys.nodes[n].expected == {j}
  }

  lemma GrowsInWindow(w: World)
    requires w == WorldWith(NodeDraining, 16400.0, 3600.0, Targets(map[0 := 3600.0], 0))
    ensures Possible(w, EVENTS[2]) && GrewIntoWindow(POLICY, Handle(CONFIG, w, EVENTS[2]), 0, 0)
  {
    hide Prepare;
    hide ScheduleRound;
    hide PolicyConfig.InAnyWindow;
    PreparedInWindow();
    CalendarOfPolicy();
    var t := WorldWith(NodeFree, 12800.0, 7200.0, Targets(map[], 0));
    RoundInWindow(Context(POLICY, t.policy, 7200.0), t.sys);
    assert [1] + [0] == [1, 0] && {} + {0} == {0};
  }

  lemma OneMore(w: World, e: Event, rest: seq<Event>)
    requires Possible(w, e) && PossibleRun(CONFIG, Handle(CONFIG, w, e), rest)
    ensures PossibleRun(CONFIG, w, [e] + rest) && Run(CONFIG, w, [e] + rest) == Run(CONFIG, Handle(CONFIG, w, e), rest)
  {
    hide Handle;
    assert ([e] + rest)[1..] == rest;
  }

  /** In this run, expansion gives a job a targeted node while a window is open. */
  lemma ExpansionReachesIntoWindow()
    ensures POLICY.Valid() && PossibleRun(CONFIG, NewWorld(2), EVENTS) && GrewIntoWindow(POLICY, Run(CONFIG, NewWorld(2), EVENTS), 0, 0)
  {
    hide Handle;
    hide Possible;
    hide GrewIntoWindow;
    var w1, w2 := WorldWith(NodeFree, 20000.0, 0.0, Targets(map[], -1)), WorldWith(NodeDraining, 16400.0, 3600.0, Targets(map[0 := 3600.0], 0));
    StartsAtNight(NewWorld(2));
    DrainsBefore(w1);
    GrowsInWindow(w2);
    OneMore(w2, EVENTS[2], []);
    OneMore(w1, EVENTS[1], [EVENTS[2]] + []);
    OneMore(NewWorld(2), EVENTS[0], [EVENTS[1]] + ([EVENTS[2]] + []));
    assert EVENTS == [EVENTS[0]] + ([EVENTS[1]] + ([EVENTS[2]] + []));
  }
}
