/** Safety over whole runs: whatever messages arrive in whatever order, every reachable world
    satisfies the invariants of the cluster, the agreements and the power management. */
module Runs {
  import opened Sequences
  import opened RuntimePrediction
  import opened ShutdownCalendar
  import opened ClusterState
  import opened ClusterInvariant
  import opened ShutdownPolicy
  import opened PowerSafety
  import opened AgreementMaps
  import opened SchedulingRound
  import opened RoundInvariant
  import opened RoundProperties
  import opened Scheduler

  // ---- One invocation --------------------------------------------------------------------

  /** The parts of a job on which the cluster invariant depends are the same. */
  ghost predicate SameButProgress(a: JobView, b: JobView) {
    && b == a.(prediction := b.prediction)
    && (b.prediction.Prediction? <==> a.prediction.Prediction?)
    && (a.prediction.Prediction? ==> b.prediction.nodes == a.prediction.nodes)
  }

  lemma ProgressKeepsSettled(strategy: Strategy, loaded: bool, s: Sys, a: Agreements, now: real)
    requires Settled(strategy, loaded, s, a)
    ensures Settled(strategy, loaded, UpdateRunningPredictions(s, now), a)
  {
    var t := UpdateRunningPredictions(s, now);
    forall j | 0 <= j < |s.jobs| ensures SameButProgress(s.jobs[j], t.jobs[j]) && JobOk(t.jobs[j], |t.nodes|) && JobSized(strategy, loaded, t.jobs[j]) {
      assert JobOk(s.jobs[j], |s.nodes|) && JobSized(strategy, loaded, s.jobs[j]);
    }
    ProgressKeepsInv(s, t);
    ProgressKeepsReservations(strategy, loaded, s, t, a);
  }

  lemma ProgressKeepsInv(s: Sys, t: Sys)
    requires Inv(s) && t.nodes == s.nodes && |t.jobs| == |s.jobs|
    requires forall j :: 0 <= j < |s.jobs| ==> SameButProgress(s.jobs[j], t.jobs[j]) && JobOk(t.jobs[j], |t.nodes|)
    ensures Inv(t)
  {
    forall i | 0 <= i < |t.nodes| ensures NodeOk(t.jobs, t.nodes[i], i) {
      SameHoldersKeepNodeOk(s, t.jobs, i);
    }
    forall j, k, i | 0 <= j < |t.jobs| && 0 <= k < |t.jobs| && t.jobs[j].Holds(i) && t.jobs[k].Holds(i) ensures j == k {
      assert s.jobs[j].Holds(i) && s.jobs[k].Holds(i);
    }
  }

  lemma ProgressKeepsReservations(strategy: Strategy, loaded: bool, s: Sys, t: Sys, a: Agreements)
    requires NoStarts(s) && PendingOnly(s, a) && ReservedOut(s, a) && ReservationSizes(strategy, loaded, s, a, -1)
    requires |t.jobs| == |s.jobs| && forall j :: 0 <= j < |s.jobs| ==> SameButProgress(s.jobs[j], t.jobs[j])
    ensures NoStarts(t) && PendingOnly(t, a) && ReservedOut(t, a) && ReservationSizes(strategy, loaded, t, a, -1)
  {
  }

  /** Node states are no concern of the agreements and the job sizes. */
  lemma NodesKeepSettled(strategy: Strategy, loaded: bool, s: Sys, a: Agreements, nodes: seq<NodeView>)
    requires Settled(strategy, loaded, s, a) && Inv(s.(nodes := nodes))
    ensures Settled(strategy, loaded, s.(nodes := nodes), a)
  {
  }

  lemma LosesKeepsSettled(strategy: Strategy, loaded: bool, s: Sys, a: Agreements, t: Sys)
    requires Settled(strategy, loaded, s, a) && Inv(t) && NoStarts(t) && Loses(s, t) && (!loaded ==> t == s)
    ensures Settled(strategy, loaded, t, a)
  {
    if loaded {
      forall n, j | n in a.nodeToJobId && 0 <= j < |t.jobs| ensures !Claims(t.jobs[j], n) {
        assert JobLoses(s.jobs[j], t.jobs[j]) && !Claims(s.jobs[j], n);
      }
      forall j | 0 <= j < |t.jobs| ensures JobSized(strategy, loaded, t.jobs[j]) {
        assert JobLoses(s.jobs[j], t.jobs[j]) && JobSized(strategy, loaded, s.jobs[j]);
      }
    }
  }

  lemma PrepareKeepsSettled(strategy: Strategy, cfg: PolicyConfig, policy: PolicyState, s: Sys, a: Agreements, now: real)
    requires now >= 0.0 && Settled(strategy, cfg.loaded, s, a)
    ensures Settled(strategy, cfg.loaded, Prepare(cfg, policy, s, now).1, a)
  {
    hide Settled;
    var s1 := UpdateRunningPredictions(s, now);
    ProgressKeepsSettled(strategy, cfg.loaded, s, a, now);
    UpdateKeepsSettled(strategy, cfg, policy, s1, a, now);
    var (policy1, nodes1) := Update(cfg, policy, s1.nodes, now);
    MalleableKeepsSettled(strategy, cfg, policy1, s1.(nodes := nodes1), a, now);
    var s2 := ApplyMalleablePolicy(cfg, policy1, s1.(nodes := nodes1), now).1;
    FiringKeepsSettled(strategy, cfg.loaded, s2, a, now);
  }

  lemma UpdateKeepsSettled(strategy: Strategy, cfg: PolicyConfig, policy: PolicyState, s: Sys, a: Agreements, now: real)
    requires now >= 0.0 && Settled(strategy, cfg.loaded, s, a)
    ensures Settled(strategy, cfg.loaded, s.(nodes := Update(cfg, policy, s.nodes, now).1), a)
  {
    hide Update;
    UpdateKeepsInv(cfg, policy, s, now);
    NodesKeepSettled(strategy, cfg.loaded, s, a, Update(cfg, policy, s.nodes, now).1);
  }

  lemma MalleableKeepsSettled(strategy: Strategy, cfg: PolicyConfig, policy: PolicyState, s: Sys, a: Agreements, now: real)
    requires now >= 0.0 && Settled(strategy, cfg.loaded, s, a)
    ensures Settled(strategy, cfg.loaded, ApplyMalleablePolicy(cfg, policy, s, now).1, a)
  {
    assert !cfg.loaded ==> ApplyMalleablePolicy(cfg, policy, s, now).1 == s;
    hide ApplyMalleablePolicy;
    ApplyMalleablePolicyKeepsInv(cfg, policy, s, now);
    LosesKeepsSettled(strategy, cfg.loaded, s, a, ApplyMalleablePolicy(cfg, policy, s, now).1);
  }

  lemma FiringKeepsSettled(strategy: Strategy, loaded: bool, s: Sys, a: Agreements, now: real)
    requires Settled(strategy, loaded, s, a)
    ensures Settled(strategy, loaded, s.(nodes := FireTransitions(s.nodes, now)), a)
  {
    FiringKeepsInv(s, now);
    NodesKeepSettled(strategy, loaded, s, a, FireTransitions(s.nodes, now));
  }

  // ---- Forwarding the allocations --------------------------------------------------------

  /** Between the round and the last forwarded allocation. */
  ghost predicate Forwarding(strategy: Strategy, loaded: bool, s: Sys, a: Agreements, started: seq<int>) {
    && Inv(s) && JobsSized(strategy, loaded, s)
    && Maps(strategy, a, |s.jobs|) && PendingOnly(s, a) && ReservedOut(s, a) && ReservationSizes(strategy, loaded, s, a, -1)
    && Distinct(started) && forall j :: j in started <==> 0 <= j < |s.jobs| && s.jobs[j].state.PendingAllocation?
  }

  lemma ForwardKeepsReservations(strategy: Strategy, loaded: bool, s: Sys, a: Agreements, j: int, now: real)
    requires 0 <= j < |s.jobs| && s.jobs[j].state.PendingAllocation? && JobsSized(strategy, loaded, s)
    requires s.jobs[j].assignedNodes != []
    requires PendingOnly(s, a) && ReservedOut(s, a) && ReservationSizes(strategy, loaded, s, a, -1)
    ensures var t := s.ForwardAllocation(j, now);
      JobsSized(strategy, loaded, t) && PendingOnly(t, a) && ReservedOut(t, a) && ReservationSizes(strategy, loaded, t, a, -1)
  {
  }

  lemma ForwardLeavesOthers(s: Sys, started: seq<int>, now: real)
    requires Inv(s) && started != [] && Distinct(started) && 0 <= started[0] < |s.jobs|
    requires forall j :: j in started <==> 0 <= j < |s.jobs| && s.jobs[j].state.PendingAllocation?
    ensures var t := s.ForwardAllocation(started[0], now);
      forall j :: j in started[1..] <==> 0 <= j < |t.jobs| && t.jobs[j].state.PendingAllocation?
  {
    HeadAndTail(started);
    var t := s.ForwardAllocation(started[0], now);
    assert forall j :: 0 <= j < |s.jobs| && j != started[0] ==> t.jobs[j] == s.jobs[j];
    assert t.jobs[started[0]].state.Running?;
    forall j | 0 <= j < |t.jobs| && t.jobs[j].state.PendingAllocation? ensures j in started[1..] {
      assert j in started && j != started[0];
      assert started == [started[0]] + started[1..];
    }
  }

  /** The next started job can be forwarded, and what is left is as before. */
  lemma ForwardStep(strategy: Strategy, loaded: bool, s: Sys, a: Agreements, started: seq<int>, now: real)
    requires Forwarding(strategy, loaded, s, a, started) && started != []
    ensures 0 <= started[0] < |s.jobs| && s.jobs[started[0]].state.PendingAllocation?
    ensures s.jobs[started[0]].assignedNodes != [] && Distinct(s.jobs[started[0]].assignedNodes)
    ensures var t := s.ForwardAllocation(started[0], now);
      Forwarding(strategy, loaded, t, a, started[1..]) && ForwardAll(s, started, now) == ForwardAll(t, started[1..], now)
  {
    HeadAndTail(started);
    var j := started[0];
    assert JobOk(s.jobs[j], |s.nodes|);
    ForwardAllocationKeepsInv(s, j, now);
    ForwardKeepsReservations(strategy, loaded, s, a, j, now);
    ForwardLeavesOthers(s, started, now);
    assert ForwardOne(s, j, now) == s.ForwardAllocation(j, now);
  }

  lemma {:induction false} ForwardAllSettles(strategy: Strategy, loaded: bool, s: Sys, a: Agreements, started: seq<int>, now: real)
    requires Forwarding(strategy, loaded, s, a, started)
    ensures Settled(strategy, loaded, ForwardAll(s, started, now), a)
    decreases |started|
  {
    if started != [] {
      ForwardStep(strategy, loaded, s, a, started, now);
      ForwardAllSettles(strategy, loaded, s.ForwardAllocation(started[0], now), a, started[1..], now);
    }
  }

  /** One invocation keeps a settled world settled. */
  lemma InvokeKeepsSettled(cfg: SchedulerConfig, w: World, now: real, requester: int := -1)
    requires now >= 0.0 && Settled(cfg.strategy, cfg.policy.loaded, w.sys, w.agreements)
    ensures Settled(cfg.strategy, cfg.policy.loaded, Schedule(cfg, w, now, requester).sys, Schedule(cfg, w, now, requester).agreements)
  {
    hide Settled;
    hide ScheduleRound;
    hide Prepare;
    PrepareKeepsSettled(cfg.strategy, cfg.policy, w.policy, w.sys, w.agreements, now);
    var (policy, s) := Prepare(cfg.policy, w.policy, w.sys, now);
    var ctx := Context(cfg.policy, policy, now);
    var t := ScheduleRound(cfg.strategy, ctx, s, w.agreements);
    RoundIsSafe(cfg.strategy, ctx, s, w.agreements);
    RoundEndsForwarding(cfg.strategy, cfg.policy.loaded, s, t);
    AnswerKeepsForwarding(cfg.strategy, cfg.policy.loaded, t.sys, t.agreements, t.started, requester, now);
    ForwardAllSettles(cfg.strategy, cfg.policy.loaded, Answer(t.sys, requester, now), t.agreements, t.started, now);
  }

  /** A reconfiguration before the allocations are forwarded leaves the started jobs alone. */
  lemma AnswerKeepsForwarding(strategy: Strategy, loaded: bool, s: Sys, a: Agreements, started: seq<int>, requester: int, now: real)
    requires Forwarding(strategy, loaded, s, a, started)
    ensures Forwarding(strategy, loaded, Answer(s, requester, now), a, started)
    ensures forall j :: 0 <= j < |s.jobs| && !s.jobs[j].state.PendingReconfiguration? ==> Answer(s, requester, now).jobs[j] == s.jobs[j]
  {
    if 0 <= requester < |s.jobs| && s.jobs[requester].state.PendingReconfiguration? {
      var v := s.jobs[requester];
      assert JobOk(v, |s.nodes|) && JobSized(strategy, loaded, v);
      ReconfigureKeepsInv(s, requester, now);
      TakeOverKeepsJobOk(v, |s.nodes|, now);
      hide Inv;
      hide Maps;
      ReconfigurationIsLocal(strategy, loaded, s, a, requester, now);
    }
  }

  lemma ReconfigurationIsLocal(strategy: Strategy, loaded: bool, s: Sys, a: Agreements, j: int, now: real)
    requires 0 <= j < |s.jobs| && s.jobs[j].state.PendingReconfiguration? && s.jobs[j].assignedNodes != []
    requires JobsSized(strategy, loaded, s) && PendingOnly(s, a) && ReservedOut(s, a) && ReservationSizes(strategy, loaded, s, a, -1)
    ensures var t := s.Reconfigure(j, now);
      && JobsSized(strategy, loaded, t) && PendingOnly(t, a) && ReservedOut(t, a) && ReservationSizes(strategy, loaded, t, a, -1)
      && t.jobs[j].state.InReconfiguration? && |t.jobs| == |s.jobs| && |t.nodes| == |s.nodes|
      && (forall k :: 0 <= k < |s.jobs| && k != j ==> t.jobs[k] == s.jobs[k])
  {
    assert JobSized(strategy, loaded, s.jobs[j]);
  }

  lemma RoundEndsForwarding(strategy: Strategy, loaded: bool, s0: Sys, t: Round)
    requires RoundOk(strategy, loaded, s0, t, -1)
    ensures Forwarding(strategy, loaded, t.sys, t.agreements, t.started)
  {
  }

  // ---- The other messages ------------------------------------------------------------------

  /** A message changed one job `j` and the nodes: the agreements do not notice when the job
      claims no more than before and its pendency is the same. */
  lemma JobChangeKeepsReservations(strategy: Strategy, loaded: bool, s: Sys, t: Sys, a: Agreements, j: int)
    requires 0 <= j < |s.jobs| && |t.jobs| == |s.jobs| && (forall k :: 0 <= k < |s.jobs| && k != j ==> t.jobs[k] == s.jobs[k])
    requires NoStarts(s) && JobsSized(strategy, loaded, s) && PendingOnly(s, a) && ReservedOut(s, a) && ReservationSizes(strategy, loaded, s, a, -1)
    requires JobSized(strategy, loaded, t.jobs[j]) && !s.jobs[j].state.Pending? && !t.jobs[j].state.PendingAllocation?
    requires forall n :: Claims(t.jobs[j], n) ==> Claims(s.jobs[j], n)
    ensures NoStarts(t) && JobsSized(strategy, loaded, t) && PendingOnly(t, a) && ReservedOut(t, a) && ReservationSizes(strategy, loaded, t, a, -1)
  {
  }

  lemma ReconfigureKeepsSettled(strategy: Strategy, loaded: bool, s: Sys, a: Agreements, j: int, now: real)
    requires Settled(strategy, loaded, s, a) && 0 <= j < |s.jobs| && s.jobs[j].state.PendingReconfiguration?
    ensures Settled(strategy, loaded, s.Reconfigure(j, now), a)
  {
    ReconfigureKeepsInv(s, j, now);
    assert JobOk(s.jobs[j], |s.nodes|) && JobSized(strategy, loaded, s.jobs[j]);
    TakeOverKeepsJobOk(s.jobs[j], |s.nodes|, now);
    JobChangeKeepsReservations(strategy, loaded, s, s.Reconfigure(j, now), a, j);
  }

  lemma ProcessedKeepsSettled(strategy: Strategy, loaded: bool, s: Sys, a: Agreements, j: int, now: real)
    requires Settled(strategy, loaded, s, a) && 0 <= j < |s.jobs| && s.jobs[j].Active()
    ensures Settled(strategy, loaded, s.ProcessedWorkload(j, now), a)
  {
    ProcessedWorkloadKeepsInv(s, j, now);
    JobChangeKeepsReservations(strategy, loaded, s, s.ProcessedWorkload(j, now), a, j);
  }

  lemma ReportKeepsSettled(strategy: Strategy, loaded: bool, s: Sys, a: Agreements, j: int, now: real)
    requires Settled(strategy, loaded, s, a) && 0 <= j < |s.jobs| && s.jobs[j].Active()
    ensures Settled(strategy, loaded, s.ApplicationRunning(j, now), a)
  {
    ApplicationRunningKeepsInv(s, j, now);
    assert JobSized(strategy, loaded, s.jobs[j]);
    JobChangeKeepsReservations(strategy, loaded, s, s.ApplicationRunning(j, now), a, j);
  }

  lemma SubmitKeepsSettled(strategy: Strategy, loaded: bool, s: Sys, a: Agreements, v: JobView)
    requires Settled(strategy, loaded, s, a) && 1 <= v.nodesMin <= v.nodesPref <= v.nodesMax
    ensures Settled(strategy, loaded, s.Submit(v), a)
  {
    SubmitKeepsInv(s, v);
    var t := s.Submit(v);
    assert forall j :: 0 <= j < |s.jobs| ==> t.jobs[j] == s.jobs[j];
    assert t.jobs[|s.jobs|].state.Pending?;
    assert |s.jobs| !in a.jobToNodeIds;
    forall n, k | n in a.nodeToJobId && 0 <= k < |t.jobs| ensures !Claims(t.jobs[k], n) {
      if k < |s.jobs| { assert !Claims(s.jobs[k], n); }
    }
  }

  lemma HandleKeepsSettled(cfg: SchedulerConfig, w: World, e: Event)
    requires Possible(w, e) && Settled(cfg.strategy, cfg.policy.loaded, w.sys, w.agreements)
    ensures var t := Handle(cfg, w, e); Settled(cfg.strategy, cfg.policy.loaded, t.sys, t.agreements) && 0.0 <= w.clock <= t.clock == e.at
  {
    hide Settled;
    hide Invoke;
    var strategy, loaded := cfg.strategy, cfg.policy.loaded;
    match e.message
    case InvokeScheduling => InvokeKeepsSettled(cfg, w, e.at); ScheduleSetsClock(cfg, w, e.at);
    case JobSubmit(v) =>
      SubmitKeepsSettled(strategy, loaded, w.sys, w.agreements, v);
      var t := w.(sys := w.sys.Submit(v), clock := e.at);
      InvokeKeepsSettled(cfg, t, e.at); ScheduleSetsClock(cfg, t, e.at);
    case SchedulingPointReached(j) =>
      if w.sys.jobs[j].state.PendingReconfiguration? {
        ReconfigureKeepsSettled(strategy, loaded, w.sys, w.agreements, j, e.at);
      }
      var t := w.(sys := w.sys.SchedulingPoint(j, e.at), clock := e.at);
      InvokeKeepsSettled(cfg, t, e.at); ScheduleSetsClock(cfg, t, e.at);
      InvokeKeepsSettled(cfg, w, e.at, j); ScheduleSetsClock(cfg, w, e.at, j);
    case WorkloadProcessed(j) =>
      ProcessedKeepsSettled(strategy, loaded, w.sys, w.agreements, j, e.at);
      var t := w.(sys := w.sys.ProcessedWorkload(j, e.at), clock := e.at);
      InvokeKeepsSettled(cfg, t, e.at); ScheduleSetsClock(cfg, t, e.at);
    case ApplicationRuns(j) =>
      ReportKeepsSettled(strategy, loaded, w.sys, w.agreements, j, e.at);
  }

  lemma ScheduleSetsClock(cfg: SchedulerConfig, w: World, now: real, requester: int := -1)
    requires now >= 0.0
    ensures Schedule(cfg, w, now, requester).clock == now
  {
  }

  lemma {:induction false} RunKeepsSettled(cfg: SchedulerConfig, w: World, events: seq<Event>)
    requires PossibleRun(cfg, w, events) && Settled(cfg.strategy, cfg.policy.loaded, w.sys, w.agreements)
    ensures var t := Run(cfg, w, events); Settled(cfg.strategy, cfg.policy.loaded, t.sys, t.agreements)
    decreases |events|
  {
    hide Settled;
    hide Handle;
    if events != [] {
      HandleKeepsSettled(cfg, w, events[0]);
      RunKeepsSettled(cfg, Handle(cfg, w, events[0]), events[1..]);
    }
  }

  lemma NewWorldIsSettled(strategy: Strategy, loaded: bool, nodeCount: nat)
    ensures var w := NewWorld(nodeCount); Settled(strategy, loaded, w.sys, w.agreements)
  {
  }

  /** From an empty cluster, every reachable world is settled. */
  lemma ReachableIsSettled(cfg: SchedulerConfig, nodeCount: nat, events: seq<Event>)
    requires PossibleRun(cfg, NewWorld(nodeCount), events)
    ensures var t := Run(cfg, NewWorld(nodeCount), events); Settled(cfg.strategy, cfg.policy.loaded, t.sys, t.agreements)
  {
    NewWorldIsSettled(cfg.strategy, cfg.policy.loaded, nodeCount);
    RunKeepsSettled(cfg, NewWorld(nodeCount), events);
  }

  // ---- What this means -----------------------------------------------------------------------

  /** Node exclusivity over whole runs: a node runs at most one job, and its running and expected
      jobs are exactly the jobs that execute on it and wait for it; its state says which. In
      particular no node and no job ever ended the simulation with a failed check. */
  lemma NodesAreExclusive(cfg: SchedulerConfig, nodeCount: nat, events: seq<Event>, i: int)
    requires PossibleRun(cfg, NewWorld(nodeCount), events)
    requires 0 <= i < |Run(cfg, NewWorld(nodeCount), events).sys.nodes|
    ensures var s := Run(cfg, NewWorld(nodeCount), events).sys; var v := s.nodes[i];
      && |v.running| <= 1 && |v.expected| <= 1 && !v.died
      && (forall j :: j in v.running <==> 0 <= j < |s.jobs| && s.jobs[j].Executes(i))
      && (forall j :: j in v.expected <==> 0 <= j < |s.jobs| && s.jobs[j].Awaits(i))
      && (v.state.NodeAllocated? <==> v.running != {}) && (v.state.NodeReserved? <==> v.running == {} && v.expected != {})
      && (v.state.NodeFree? ==> v.running == {} && v.expected == {})
      && (forall j :: 0 <= j < |s.jobs| ==> !s.jobs[j].died)
  {
    ReachableIsSettled(cfg, nodeCount, events);
    var s := Run(cfg, NewWorld(nodeCount), events).sys;
    assert forall j :: 0 <= j < |s.jobs| ==> JobOk(s.jobs[j], |s.nodes|);
    NodeJobSets(s, i);
  }

  lemma NodeJobSets(s: Sys, i: int)
    requires Inv(s) && 0 <= i < |s.nodes|
    ensures var v := s.nodes[i];
      && |v.running| <= 1 && |v.expected| <= 1 && !v.died
      && (forall j :: j in v.running <==> 0 <= j < |s.jobs| && s.jobs[j].Executes(i))
      && (forall j :: j in v.expected <==> 0 <= j < |s.jobs| && s.jobs[j].Awaits(i))
      && (v.state.NodeAllocated? <==> v.running != {}) && (v.state.NodeReserved? <==> v.running == {} && v.expected != {})
  {
  }

  /** Power safety over whole runs: a node on its way down, off, or on its way up is unused, and
      whenever its scheduled transition fires, it only goes off, or becomes free again. */
  lemma PowerIsSafe(cfg: SchedulerConfig, nodeCount: nat, events: seq<Event>, i: int, now: real)
    requires PossibleRun(cfg, NewWorld(nodeCount), events)
    requires 0 <= i < |Run(cfg, NewWorld(nodeCount), events).sys.nodes|
    ensures var v := Run(cfg, NewWorld(nodeCount), events).sys.nodes[i];
      && (v.state.NodeDraining? || v.state.NodeShuttingDown? || v.state.NodeOff? || v.state.NodeBooting? ==> v.IsIdle())
      && (v.CheckScheduledTransition(now) != v ==> v.IsIdle() && (v.state.NodeShuttingDown? || v.state.NodeBooting?))
      && (v.CheckScheduledTransition(now) != v ==> v.CheckScheduledTransition(now).state == if v.state.NodeShuttingDown? then NodeOff else NodeFree)
  {
    ReachableIsSettled(cfg, nodeCount, events);
    var s := Run(cfg, NewWorld(nodeCount), events).sys;
    FiringIsSafe(s, now, i);
    assert NodeOk(s.jobs, s.nodes[i], i);
  }

  /** No job ever exceeds its maximum; without a shutdown policy no job is ever below its minimum. */
  lemma JobsStayWithinLimits(cfg: SchedulerConfig, nodeCount: nat, events: seq<Event>, j: int)
    requires PossibleRun(cfg, NewWorld(nodeCount), events)
    requires 0 <= j < |Run(cfg, NewWorld(nodeCount), events).sys.jobs|
    ensures var v := Run(cfg, NewWorld(nodeCount), events).sys.jobs[j];
      && (v.Active() ==> |v.assignedNodes| <= v.nodesMax && |v.executingNodes| <= v.nodesMax)
      && (v.Active() && !cfg.policy.loaded ==> v.nodesMin <= |v.assignedNodes| && v.nodesMin <= |v.executingNodes|)
  {
    ReachableIsSettled(cfg, nodeCount, events);
    assert JobSized(cfg.strategy, cfg.policy.loaded, Run(cfg, NewWorld(nodeCount), events).sys.jobs[j]);
  }

  lemma {:induction false} ForwardingTakesOver(strategy: Strategy, loaded: bool, s: Sys, a: Agreements, started: seq<int>, now: real, j: int)
    requires Forwarding(strategy, loaded, s, a, started) && 0 <= j < |s.jobs|
    ensures var v, w := s.jobs[j], ForwardAll(s, started, now).jobs[j];
      w == if v.state.PendingAllocation? then v.SetState(Running, now) else v
    decreases |started|
  {
    if started == [] {
      assert j !in started;
    } else {
      hide Forwarding;
      ForwardStep(strategy, loaded, s, a, started, now);
      ForwardingTakesOver(strategy, loaded, s.ForwardAllocation(started[0], now), a, started[1..], now, j);
    }
  }

  /** Over any number of rounds, with steals in between: without a shutdown policy, a job that an
      invocation starts runs on exactly its minimum of nodes, however it was given them; the
      preferring strategy may give it exactly its preferred number instead. */
  lemma StartedJobsGetTheirSize(cfg: SchedulerConfig, nodeCount: nat, events: seq<Event>, now: real, requester: int, j: int)
    requires PossibleRun(cfg, NewWorld(nodeCount), events) && now >= 0.0 && !cfg.policy.loaded
    requires var w := Run(cfg, NewWorld(nodeCount), events); 0 <= j < |w.sys.jobs| && w.sys.jobs[j].state.Pending?
    ensures var w := Run(cfg, NewWorld(nodeCount), events); var before, after := w.sys.jobs[j], Schedule(cfg, w, now, requester).sys.jobs[j];
      after == before || (after.state.Running? && RightSize(cfg.strategy, false, before, |after.executingNodes|))
    ensures var w := Run(cfg, NewWorld(nodeCount), events); var before, after := w.sys.jobs[j], Schedule(cfg, w, now, requester).sys.jobs[j];
      after == before || |after.executingNodes| == before.nodesMin || (cfg.strategy.Prefers() && |after.executingNodes| == before.nodesPref)
  {
    ReachableIsSettled(cfg, nodeCount, events);
    hide Run;
    hide PossibleRun;
    InvocationStartsExactly(cfg, Run(cfg, NewWorld(nodeCount), events), now, requester, j);
  }

  lemma InvocationStartsExactly(cfg: SchedulerConfig, w: World, now: real, requester: int, j: int)
    requires Settled(cfg.strategy, cfg.policy.loaded, w.sys, w.agreements) && now >= 0.0 && !cfg.policy.loaded
    requires 0 <= j < |w.sys.jobs| && w.sys.jobs[j].state.Pending?
    ensures var before, after := w.sys.jobs[j], Schedule(cfg, w, now, requester).sys.jobs[j];
      after == before || (after.state.Running? && RightSize(cfg.strategy, false, before, |after.executingNodes|))
  {
    hide Settled;
    hide ScheduleRound;
    PrepareKeepsSettled(cfg.strategy, cfg.policy, w.policy, w.sys, w.agreements, now);
    var (policy, s) := Prepare(cfg.policy, w.policy, w.sys, now);
    assert s.jobs[j] == w.sys.jobs[j];
    var ctx := Context(cfg.policy, policy, now);
    var t := ScheduleRound(cfg.strategy, ctx, s, w.agreements);
    RoundIsSafe(cfg.strategy, ctx, s, w.agreements);
    RoundEndsForwarding(cfg.strategy, cfg.policy.loaded, s, t);
    AnswerKeepsForwarding(cfg.strategy, cfg.policy.loaded, t.sys, t.agreements, t.started, requester, now);
    ForwardingTakesOver(cfg.strategy, cfg.policy.loaded, Answer(t.sys, requester, now), t.agreements, t.started, now, j);
    RoundStartsExactly(cfg.strategy, s, t, j);
  }

  lemma RoundStartsExactly(strategy: Strategy, s0: Sys, t: Round, j: int)
    requires RoundOk(strategy, false, s0, t, -1) && 0 <= j < |s0.jobs| && s0.jobs[j].state.Pending?
    ensures var before, after := s0.jobs[j], t.sys.jobs[j];
      after == before || (after.state.PendingAllocation? && after.assignedNodes != [] && RightSize(strategy, false, before, |after.assignedNodes|))
  {
  }

  /** Pool conservation over whole runs: as many nodes are reserved as the order list has entries
      and as the outstanding reservations ask for together. */
  lemma PoolIsConserved(cfg: SchedulerConfig, nodeCount: nat, events: seq<Event>)
    requires PossibleRun(cfg, NewWorld(nodeCount), events) && cfg.strategy.MinCommonPool?
    ensures var w := Run(cfg, NewWorld(nodeCount), events);
      |w.agreements.nodeToJobId| == |w.agreements.order| == TotalReserved(w.agreements, |w.sys.jobs|)
  {
    ReachableIsSettled(cfg, nodeCount, events);
    OrderCountsNodes(Run(cfg, NewWorld(nodeCount), events).agreements);
  }

  /** The direct and the steal handler keep their two maps inverse to each other over whole runs,
      and only pending jobs hold reservations, of nodes no job is assigned. */
  lemma ReservationsAreConsistent(cfg: SchedulerConfig, nodeCount: nat, events: seq<Event>, j: int, n: int)
    requires PossibleRun(cfg, NewWorld(nodeCount), events) && !cfg.strategy.MinCommonPool?
    ensures var w := Run(cfg, NewWorld(nodeCount), events);
      && (n in w.agreements.NodesOf(j) <==> n in w.agreements.nodeToJobId && w.agreements.nodeToJobId[n] == j)
      && (n in w.agreements.NodesOf(j) ==> 0 <= j < |w.sys.jobs| && w.sys.jobs[j].state.Pending?)
      && (n in w.agreements.NodesOf(j) ==> forall k :: 0 <= k < |w.sys.jobs| ==> !Claims(w.sys.jobs[k], n))
  {
    ReachableIsSettled(cfg, nodeCount, events);
    SetsFromNodeMap(Run(cfg, NewWorld(nodeCount), events).agreements, j, n);
  }
}
