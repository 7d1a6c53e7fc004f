/** The remaining work of a job over whole runs: whatever happens in between, it is the job's
    runtime less the work that its allocations served, one after the other. */
module ServedWork {
  import opened Sequences
  import opened RuntimePrediction
  import opened ClusterState
  import opened ClusterInvariant
  import opened ShutdownPolicy
  import opened PowerSafety
  import opened AgreementMaps
  import opened SchedulingRound
  import opened RoundInvariant
  import opened RoundProperties
  import opened Scheduler
  import opened Runs

  /** What an active job's current allocation serves between two instants. */
  ghost function Served(v: JobView, from: real, end: real): real {
    if v.Active() && v.executingNodes != [] then (end - from) * v.profile.RelativeRate(|v.executingNodes|) else 0.0
  }

  /** What the allocations of job `j` serve during a run. */
  ghost function ServedInRun(cfg: SchedulerConfig, w: World, events: seq<Event>, j: int): real
    requires PossibleRun(cfg, w, events)
    decreases |events|
  {
    if events == [] then 0.0
    else
      (if 0 <= j < |w.sys.jobs| then Served(w.sys.jobs[j], w.clock, events[0].at) else 0.0)
      + ServedInRun(cfg, Handle(cfg, w, events[0]), events[1..], j)
  }

  // ---- One job, one instant ------------------------------------------------------------------

  predicate IsWaiting(v: JobView) {
    v.state.PendingSubmission? || v.state.Pending? || v.state.PendingAllocation?
  }

  ghost predicate Sane(v: JobView, now: real) {
    v.prediction.Prediction? && v.prediction.lastUpdate <= now && v.prediction.remainingWork >= 0.0
  }

  ghost function Work(v: JobView, now: real): real {
    if v.prediction.Prediction? then RemainingWorkAt(v.profile, v.prediction, now) else 0.0
  }

  /** At one instant a job may start with all its work, keep its work, or complete. */
  ghost predicate Carries(v: JobView, u: JobView, now: real) {
    && u.profile == v.profile
    && (v.Active() ==> u.state.Completed? || (u.Active() && Sane(u, now) && Work(u, now) == Work(v, now)))
    && (IsWaiting(v) ==> IsWaiting(u) || u.state.Completed? || (u.Active() && Sane(u, now) && Work(u, now) == u.profile.predictedRuntime))
    && (v.state.Completed? ==> u.state.Completed?)
  }

  /** Everybody carries on, and whoever is new waits. */
  ghost predicate AllCarry(s: Sys, t: Sys, now: real) {
    && |s.jobs| <= |t.jobs|
    && (forall j :: 0 <= j < |s.jobs| ==> Carries(s.jobs[j], t.jobs[j], now))
    && (forall j :: |s.jobs| <= j < |t.jobs| ==> IsWaiting(t.jobs[j]))
  }

  ghost predicate AllSane(s: Sys, now: real) {
    forall j :: 0 <= j < |s.jobs| && s.jobs[j].Active() ==> Sane(s.jobs[j], now)
  }

  lemma CarryTransitively(s: Sys, t: Sys, u: Sys, now: real)
    requires AllCarry(s, t, now) && AllCarry(t, u, now) && |t.jobs| == |s.jobs|
    ensures AllCarry(s, u, now)
  {
    hide Work;
    hide Sane;
    forall j | 0 <= j < |s.jobs| ensures Carries(s.jobs[j], u.jobs[j], now) {
      assert Carries(s.jobs[j], t.jobs[j], now) && Carries(t.jobs[j], u.jobs[j], now);
    }
  }

  lemma CarryKeepsSane(s: Sys, t: Sys, now: real)
    requires AllSane(s, now) && AllCarry(s, t, now)
    ensures AllSane(t, now)
  {
    hide Work;
    forall j | 0 <= j < |t.jobs| && t.jobs[j].Active() ensures Sane(t.jobs[j], now) {
      if j < |s.jobs| { assert Carries(s.jobs[j], t.jobs[j], now); }
    }
  }

  lemma ProgressKeepsWork(p: JobProfile, s: Prediction, now: real)
    requires s.Prediction? && s.lastUpdate <= now && s.remainingWork >= 0.0
    ensures var u := UpdateProgress(p, s, now); u.lastUpdate <= now && u.remainingWork >= 0.0 && RemainingWorkAt(p, u, now) == RemainingWorkAt(p, s, now)
  {
  }

  lemma ProgressCarries(s: Sys, now: real)
    requires AllSane(s, now)
    ensures AllCarry(s, UpdateRunningPredictions(s, now), now)
  {
    hide UpdateProgress;
    hide RemainingWorkAt;
    var t := UpdateRunningPredictions(s, now);
    forall j | 0 <= j < |s.jobs| ensures Carries(s.jobs[j], t.jobs[j], now) {
      if s.jobs[j].state.Running? { ProgressKeepsWork(s.jobs[j].profile, s.jobs[j].prediction, now); }
    }
  }

  lemma LosingCarries(s: Sys, t: Sys, now: real)
    requires AllSane(s, now) && Loses(s, t)
    ensures AllCarry(s, t, now)
  {
    hide RemainingWorkAt;
    forall j | 0 <= j < |s.jobs| ensures Carries(s.jobs[j], t.jobs[j], now) {
      assert JobLoses(s.jobs[j], t.jobs[j]);
    }
  }

  lemma RoundCarries(s0: Sys, t: Sys, now: real)
    requires AllSane(s0, now) && Evolves(s0, t)
    ensures AllCarry(s0, t, now)
  {
    hide RemainingWorkAt;
    forall j | 0 <= j < |s0.jobs| ensures Carries(s0.jobs[j], t.jobs[j], now) {
      assert JobEvolves(s0, s0.jobs[j], t.jobs[j]);
    }
  }

  /** A job that takes over its nodes has all its work before it. */
  lemma TakeOverCarries(v: JobView, nodeCount: nat, now: real)
    requires JobOk(v, nodeCount) && v.state.PendingAllocation?
    ensures Carries(v, v.SetState(Running, now), now)
  {
  }

  lemma ForwardingCarries(strategy: Strategy, loaded: bool, s: Sys, a: Agreements, started: seq<int>, now: real)
    requires Forwarding(strategy, loaded, s, a, started) && AllSane(s, now)
    ensures AllCarry(s, ForwardAll(s, started, now), now)
  {
    var t := ForwardAll(s, started, now);
    forall j | 0 <= j < |s.jobs| ensures Carries(s.jobs[j], t.jobs[j], now) {
      assert JobOk(s.jobs[j], |s.nodes|);
      ForwardingTakesOver(strategy, loaded, s, a, started, now, j);
      if s.jobs[j].state.PendingAllocation? { TakeOverCarries(s.jobs[j], |s.nodes|, now); }
    }
  }

  // ---- Invocations and messages --------------------------------------------------------------

  lemma PrepareCarries(strategy: Strategy, cfg: PolicyConfig, policy: PolicyState, s: Sys, a: Agreements, now: real)
    requires now >= 0.0 && Settled(strategy, cfg.loaded, s, a) && AllSane(s, now)
    ensures AllCarry(s, Prepare(cfg, policy, s, now).1, now)
  {
    hide AllCarry;
    hide AllSane;
    hide Update;
    hide ApplyMalleablePolicy;
    hide UpdateRunningPredictions;
    var s1 := UpdateRunningPredictions(s, now);
    ProgressCarries(s, now);
    CarryKeepsSane(s, s1, now);
    ProgressKeepsSettled(strategy, cfg.loaded, s, a, now);
    UpdateKeepsSettled(strategy, cfg, policy, s1, a, now);
    var (policy1, nodes1) := Update(cfg, policy, s1.nodes, now);
    var s2 := s1.(nodes := nodes1);
    assert Inv(s2) && NoStarts(s2);
    hide Settled;
    hide Inv;
    ApplyMalleablePolicyKeepsInv(cfg, policy1, s2, now);
    var s3 := ApplyMalleablePolicy(cfg, policy1, s2, now).1;
    NodesDoNotMatter(s, s1, nodes1, now);
    LosingCarries(s2, s3, now);
    CarryTransitively(s, s2, s3, now);
    NodesDoNotMatter(s, s3, FireTransitions(s3.nodes, now), now);
  }

  lemma NodesDoNotMatter(s: Sys, t: Sys, nodes: seq<NodeView>, now: real)
    ensures AllCarry(s, t, now) ==> AllCarry(s, t.(nodes := nodes), now)
    ensures AllSane(t, now) ==> AllSane(t.(nodes := nodes), now)
  {
  }

  lemma ScheduleCarries(cfg: SchedulerConfig, w: World, now: real, requester: int := -1)
    requires now >= 0.0 && Settled(cfg.strategy, cfg.policy.loaded, w.sys, w.agreements) && AllSane(w.sys, now)
    ensures AllCarry(w.sys, Schedule(cfg, w, now, requester).sys, now) && |Schedule(cfg, w, now, requester).sys.jobs| == |w.sys.jobs|
  {
    hide Settled;
    hide RoundOk;
    hide Forwarding;
    hide AllCarry;
    hide AllSane;
    hide Prepare;
    hide ScheduleRound;
    var (policy, s) := Prepare(cfg.policy, w.policy, w.sys, now);
    var ctx := Context(cfg.policy, policy, now);
    var t := ScheduleRound(cfg.strategy, ctx, s, w.agreements);
    PrepareCarries(cfg.strategy, cfg.policy, w.policy, w.sys, w.agreements, now);
    CarryKeepsSane(w.sys, s, now);
    PrepareKeepsSettled(cfg.strategy, cfg.policy, w.policy, w.sys, w.agreements, now);
    RoundIsSafe(cfg.strategy, ctx, s, w.agreements);
    RoundEvolves(cfg.strategy, cfg.policy.loaded, s, t);
    RoundCarries(s, t.sys, now);
    CarryTransitively(w.sys, s, t.sys, now);
    CarryKeepsSane(s, t.sys, now);
    RoundEndsForwarding(cfg.strategy, cfg.policy.loaded, s, t);
    AnswerKeepsForwarding(cfg.strategy, cfg.policy.loaded, t.sys, t.agreements, t.started, requester, now);
    AnswerCarries(cfg.strategy, cfg.policy.loaded, t.sys, t.agreements, t.started, requester, now);
    hide Answer;
    var u := Answer(t.sys, requester, now);
    CarryTransitively(w.sys, t.sys, u, now);
    CarryKeepsSane(t.sys, u, now);
    ForwardingCarries(cfg.strategy, cfg.policy.loaded, u, t.agreements, t.started, now);
    CarryTransitively(w.sys, u, ForwardAll(u, t.started, now), now);
    NothingHappens(w.sys, now);
  }

  lemma AnswerCarries(strategy: Strategy, loaded: bool, s: Sys, a: Agreements, started: seq<int>, requester: int, now: real)
    requires Forwarding(strategy, loaded, s, a, started) && AllSane(s, now)
    ensures AllCarry(s, Answer(s, requester, now), now)
  {
    assert Inv(s);
    hide Forwarding;
    hide Inv;
    hide AllCarry;
    hide AllSane;
    hide Sys.Reconfigure;
    NothingHappens(s, now);
    if 0 <= requester < |s.jobs| && s.jobs[requester].state.PendingReconfiguration? { ReconfigureCarries(s, requester, now); }
  }

  lemma RoundEvolves(strategy: Strategy, loaded: bool, s0: Sys, t: Round)
    requires RoundOk(strategy, loaded, s0, t, -1)
    ensures Evolves(s0, t.sys)
  {
  }

  lemma NothingHappens(s: Sys, now: real)
    requires AllSane(s, now)
    ensures AllCarry(s, s, now)
  {
    hide Work;
  }

  lemma SynchronizeKeepsWork(p: JobProfile, s: Prediction, now: real, count: NodeCount)
    requires s.Prediction? && s.lastUpdate <= now && s.remainingWork >= 0.0
    ensures var u := Synchronize(p, s, now, count); u.lastUpdate == now && u.remainingWork >= 0.0 && RemainingWorkAt(p, u, now) == RemainingWorkAt(p, s, now)
  {
  }

  lemma ReconfigureCarries(s: Sys, j: int, now: real)
    requires Inv(s) && AllSane(s, now) && 0 <= j < |s.jobs| && s.jobs[j].state.PendingReconfiguration?
    ensures AllCarry(s, s.Reconfigure(j, now), now)
  {
    var v, t := s.jobs[j], s.Reconfigure(j, now);
    assert JobOk(v, |s.nodes|);
    SynchronizeKeepsWork(v.profile, v.prediction, now, |v.assignedNodes|);
    hide Synchronize;
    hide RemainingWorkAt;
    forall k | 0 <= k < |s.jobs| ensures Carries(s.jobs[k], t.jobs[k], now) {
      if k != j { assert t.jobs[k] == s.jobs[k]; }
    }
  }

  lemma ReportsCarry(s: Sys, j: int, now: real)
    requires AllSane(s, now) && 0 <= j < |s.jobs| && s.jobs[j].Active()
    ensures AllCarry(s, s.ProcessedWorkload(j, now), now) && AllCarry(s, s.ApplicationRunning(j, now), now)
  {
    hide RemainingWorkAt;
    var t, u := s.ProcessedWorkload(j, now), s.ApplicationRunning(j, now);
    forall k | 0 <= k < |s.jobs| ensures Carries(s.jobs[k], t.jobs[k], now) && Carries(s.jobs[k], u.jobs[k], now) {
    }
  }

  lemma SubmissionCarries(s: Sys, v: JobView, now: real)
    requires AllSane(s, now)
    ensures AllCarry(s, s.Submit(v), now)
  {
    hide RemainingWorkAt;
  }

  /** The newcomer of a message waits; whatever the invocation makes of it, it has all its work. */
  ghost predicate SomeCarry(s: Sys, t: Sys, now: real) {
    && |s.jobs| <= |t.jobs| && (forall j :: 0 <= j < |s.jobs| ==> Carries(s.jobs[j], t.jobs[j], now))
    && forall j :: |s.jobs| <= j < |t.jobs| ==> NewlyCarries(t.jobs[j], now)
  }

  ghost predicate NewlyCarries(u: JobView, now: real) {
    IsWaiting(u) || u.state.Completed? || (u.Active() && Sane(u, now) && Work(u, now) == u.profile.predictedRuntime)
  }

  lemma MessageThenInvocation(s: Sys, t: Sys, u: Sys, now: real)
    requires AllCarry(s, t, now) && AllCarry(t, u, now) && |u.jobs| == |t.jobs|
    ensures SomeCarry(s, u, now)
  {
    hide Work;
    hide Sane;
    forall j | 0 <= j < |s.jobs| ensures Carries(s.jobs[j], u.jobs[j], now) {
      assert Carries(s.jobs[j], t.jobs[j], now) && Carries(t.jobs[j], u.jobs[j], now);
    }
    forall j | |s.jobs| <= j < |u.jobs| ensures NewlyCarries(u.jobs[j], now) {
      assert IsWaiting(t.jobs[j]) && Carries(t.jobs[j], u.jobs[j], now);
    }
  }

  lemma CarriedThenScheduled(cfg: SchedulerConfig, w: World, t: World, now: real, invoked: bool, requester: int := -1)
    requires now >= 0.0 && AllSane(w.sys, now) && AllCarry(w.sys, t.sys, now) && Settled(cfg.strategy, cfg.policy.loaded, t.sys, t.agreements)
    ensures SomeCarry(w.sys, (if invoked then Schedule(cfg, t, now, requester) else t).sys, now)
  {
    hide Settled;
    hide AllCarry;
    hide Schedule;
    CarryKeepsSane(w.sys, t.sys, now);
    ScheduleCarries(cfg, t, now, requester);
    NothingHappens(t.sys, now);
    MessageThenInvocation(w.sys, t.sys, (if invoked then Schedule(cfg, t, now, requester) else t).sys, now);
  }

  ghost predicate Ready(cfg: SchedulerConfig, w: World, e: Event) {
    Possible(w, e) && Settled(cfg.strategy, cfg.policy.loaded, w.sys, w.agreements) && AllSane(w.sys, e.at)
  }

  lemma SubmissionHandled(cfg: SchedulerConfig, w: World, e: Event)
    requires e.message.JobSubmit? && Ready(cfg, w, e)
    ensures SomeCarry(w.sys, Handle(cfg, w, e).sys, e.at)
  {
    hide Settled;
    hide AllCarry;
    hide SomeCarry;
    hide AllSane;
    hide Schedule;
    hide Sys.Submit;
    var v := e.message.job;
    SubmitKeepsSettled(cfg.strategy, cfg.policy.loaded, w.sys, w.agreements, v);
    SubmissionCarries(w.sys, v, e.at);
    CarriedThenScheduled(cfg, w, w.(sys := w.sys.Submit(v), clock := e.at), e.at, cfg.onJobSubmit);
  }

  lemma PointHandled(cfg: SchedulerConfig, w: World, e: Event)
    requires e.message.SchedulingPointReached? && Ready(cfg, w, e)
    ensures SomeCarry(w.sys, Handle(cfg, w, e).sys, e.at)
  {
    assert Inv(w.sys);
    hide Inv;
    hide Settled;
    hide AllCarry;
    hide SomeCarry;
    hide AllSane;
    hide Schedule;
    hide Sys.Reconfigure;
    var j := e.message.id;
    var pending := w.sys.jobs[j].state.PendingReconfiguration?;
    if pending {
      ReconfigureKeepsSettled(cfg.strategy, cfg.policy.loaded, w.sys, w.agreements, j, e.at);
      ReconfigureCarries(w.sys, j, e.at);
    } else {
      NothingHappens(w.sys, e.at);
    }
    CarriedThenScheduled(cfg, w, w.(sys := w.sys.SchedulingPoint(j, e.at), clock := e.at), e.at, cfg.onReconfiguration && pending);
    NothingHappens(w.sys, e.at);
    CarriedThenScheduled(cfg, w, w, e.at, true, j);
  }

  lemma CompletionHandled(cfg: SchedulerConfig, w: World, e: Event)
    requires e.message.WorkloadProcessed? && Ready(cfg, w, e)
    ensures SomeCarry(w.sys, Handle(cfg, w, e).sys, e.at)
  {
    hide Settled;
    hide AllCarry;
    hide SomeCarry;
    hide AllSane;
    hide Schedule;
    hide Sys.ProcessedWorkload;
    var j := e.message.id;
    ProcessedKeepsSettled(cfg.strategy, cfg.policy.loaded, w.sys, w.agreements, j, e.at);
    ReportsCarry(w.sys, j, e.at);
    CarriedThenScheduled(cfg, w, w.(sys := w.sys.ProcessedWorkload(j, e.at), clock := e.at), e.at, cfg.onJobFinalize);
  }

  lemma ReportHandled(cfg: SchedulerConfig, w: World, e: Event)
    requires e.message.ApplicationRuns? && Ready(cfg, w, e)
    ensures SomeCarry(w.sys, Handle(cfg, w, e).sys, e.at)
  {
    hide Settled;
    hide AllCarry;
    hide SomeCarry;
    hide AllSane;
    hide Schedule;
    hide Sys.ApplicationRunning;
    var j := e.message.id;
    ReportKeepsSettled(cfg.strategy, cfg.policy.loaded, w.sys, w.agreements, j, e.at);
    ReportsCarry(w.sys, j, e.at);
    CarriedThenScheduled(cfg, w, w.(sys := w.sys.ApplicationRunning(j, e.at), clock := e.at), e.at, false);
  }

  lemma HandleCarries(cfg: SchedulerConfig, w: World, e: Event)
    requires Ready(cfg, w, e)
    ensures SomeCarry(w.sys, Handle(cfg, w, e).sys, e.at)
  {
    assert Possible(w, e);
    hide Ready;
    hide SomeCarry;
    hide Handle;
    match e.message
    case InvokeScheduling => InvocationHandled(cfg, w, e);
    case JobSubmit(_) => SubmissionHandled(cfg, w, e);
    case SchedulingPointReached(_) => PointHandled(cfg, w, e);
    case WorkloadProcessed(_) => CompletionHandled(cfg, w, e);
    case ApplicationRuns(_) => ReportHandled(cfg, w, e);
  }

  lemma InvocationHandled(cfg: SchedulerConfig, w: World, e: Event)
    requires e.message.InvokeScheduling? && Ready(cfg, w, e)
    ensures SomeCarry(w.sys, Handle(cfg, w, e).sys, e.at)
  {
    hide Settled;
    hide AllCarry;
    hide SomeCarry;
    hide AllSane;
    hide Schedule;
    NothingHappens(w.sys, e.at);
    CarriedThenScheduled(cfg, w, w, e.at, true);
  }

  // ---- Over whole runs -------------------------------------------------------------------------

  /** The balance of job `j` when its allocations have served that much. */
  ghost predicate Balanced(w: World, j: int, served: real) {
    && (j >= |w.sys.jobs| || (0 <= j && IsWaiting(w.sys.jobs[j])) ==> served == 0.0)
    && (0 <= j < |w.sys.jobs| && w.sys.jobs[j].Active() ==>
          served >= 0.0 && Work(w.sys.jobs[j], w.clock) == Max0(w.sys.jobs[j].profile.predictedRuntime - served))
  }

  /** Between two messages an allocation serves what elapses at its rate. */
  lemma TimeServes(v: JobView, nodeCount: nat, clock: real, now: real)
    requires JobOk(v, nodeCount) && v.Active() && Sane(v, clock) && clock <= now
    ensures Served(v, clock, now) >= 0.0 && Work(v, now) == Max0(Work(v, clock) - Served(v, clock, now))
  {
    var s, rate := v.prediction, v.profile.RelativeRate(|v.executingNodes|);
    ProductNonNegative(now - clock, rate);
    ProductNonNegative(clock - s.lastUpdate, rate);
    ProductNonNegative(now - s.lastUpdate, rate);
    SumsUp(clock - s.lastUpdate, now - clock, rate);
    hide Profile.RelativeRate;
  }

  lemma SumsUp(a: real, b: real, rate: real)
    ensures (a + b) * rate == a * rate + b * rate
  {
  }

  lemma SanityLasts(s: Sys, clock: real, now: real)
    requires AllSane(s, clock) && clock <= now
    ensures AllSane(s, now)
  {
  }

  lemma HandleBalances(cfg: SchedulerConfig, w: World, e: Event, j: int, served: real)
    requires Possible(w, e) && Settled(cfg.strategy, cfg.policy.loaded, w.sys, w.agreements) && AllSane(w.sys, w.clock)
    requires j >= 0 && Balanced(w, j, served)
    ensures var more := if j < |w.sys.jobs| then Served(w.sys.jobs[j], w.clock, e.at) else 0.0;
      Balanced(Handle(cfg, w, e), j, served + more)
    ensures AllSane(Handle(cfg, w, e).sys, e.at)
  {
    var t := Handle(cfg, w, e);
    SanityLasts(w.sys, w.clock, e.at);
    HandleCarries(cfg, w, e);
    HandleKeepsSettled(cfg, w, e);
    assert j < |w.sys.jobs| ==> JobOk(w.sys.jobs[j], |w.sys.nodes|);
    hide Settled;
    hide Handle;
    hide RemainingWorkAt;
    forall k | 0 <= k < |t.sys.jobs| && t.sys.jobs[k].Active() ensures Sane(t.sys.jobs[k], e.at) {
      if k < |w.sys.jobs| { assert Carries(w.sys.jobs[k], t.sys.jobs[k], e.at); } else { assert NewlyCarries(t.sys.jobs[k], e.at); }
    }
    if j < |w.sys.jobs| && w.sys.jobs[j].Active() {
      TimeServes(w.sys.jobs[j], |w.sys.nodes|, w.clock, e.at);
    }
    if j < |w.sys.jobs| { assert Carries(w.sys.jobs[j], t.sys.jobs[j], e.at); }
    else if j < |t.sys.jobs| { assert NewlyCarries(t.sys.jobs[j], e.at); }
  }

  lemma {:induction false} RunBalances(cfg: SchedulerConfig, w: World, events: seq<Event>, j: int, served: real)
    requires PossibleRun(cfg, w, events) && Settled(cfg.strategy, cfg.policy.loaded, w.sys, w.agreements) && AllSane(w.sys, w.clock)
    requires j >= 0 && Balanced(w, j, served)
    ensures Balanced(Run(cfg, w, events), j, served + ServedInRun(cfg, w, events, j))
    decreases |events|
  {
    hide Settled;
    hide AllSane;
    hide Balanced;
    hide Served;
    hide Handle;
    if events != [] {
      var more := if j < |w.sys.jobs| then Served(w.sys.jobs[j], w.clock, events[0].at) else 0.0;
      HandleBalances(cfg, w, events[0], j, served);
      HandleKeepsSettled(cfg, w, events[0]);
      RunBalances(cfg, Handle(cfg, w, events[0]), events[1..], j, served + more);
      assert served + ServedInRun(cfg, w, events, j) == (served + more) + ServedInRun(cfg, Handle(cfg, w, events[0]), events[1..], j);
    }
  }

  /** In every reachable world the remaining work of an active job is its runtime less the work
      that its allocation history served, however often it was reallocated and updated. */
  lemma RemainingWorkIsRuntimeLessServed(cfg: SchedulerConfig, nodeCount: nat, events: seq<Event>, j: int)
    requires PossibleRun(cfg, NewWorld(nodeCount), events)
    requires 0 <= j < |Run(cfg, NewWorld(nodeCount), events).sys.jobs| && Run(cfg, NewWorld(nodeCount), events).sys.jobs[j].Active()
    ensures var w := Run(cfg, NewWorld(nodeCount), events); var v := w.sys.jobs[j];
      v.prediction.Prediction? && RemainingWorkAt(v.profile, v.prediction, w.clock)
                                  == Max0(v.profile.predictedRuntime - ServedInRun(cfg, NewWorld(nodeCount), events, j))
  {
    hide Settled;
    hide Run;
    hide PossibleRun;
    hide ServedInRun;
    hide RemainingWorkAt;
    NewWorldIsSettled(cfg.strategy, cfg.policy.loaded, nodeCount);
    NewWorldIsBalanced(nodeCount, j);
    hide NewWorld;
    hide AllSane;
    ReachableIsSettled(cfg, nodeCount, events);
    var w := Run(cfg, NewWorld(nodeCount), events);
    ActiveIsPredicted(cfg.strategy, cfg.policy.loaded, w.sys, w.agreements, j);
    RunBalances(cfg, NewWorld(nodeCount), events, j, 0.0);
  }

  lemma NewWorldIsBalanced(nodeCount: nat, j: int)
    ensures AllSane(NewWorld(nodeCount).sys, NewWorld(nodeCount).clock) && Balanced(NewWorld(nodeCount), j, 0.0)
  {
  }

  lemma ActiveIsPredicted(strategy: Strategy, loaded: bool, s: Sys, a: Agreements, j: int)
    requires Settled(strategy, loaded, s, a) && 0 <= j < |s.jobs| && s.jobs[j].Active()
    ensures s.jobs[j].prediction.Prediction?
  {
    assert JobOk(s.jobs[j], |s.nodes|);
  }
}
