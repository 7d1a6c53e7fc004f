/** What the messages must do, seen from the outside: a submitted job that fits runs, a pending
    reconfiguration is carried out, finished jobs leave their nodes free. */
module MessageEffects {
  import opened Sequences
  import opened RuntimePrediction
  import opened ClusterState
  import opened ClusterInvariant
  import opened ShutdownPolicy
  import opened PowerSafety
  import opened AgreementMaps
  import opened SchedulingRound
  import opened RoundInvariant
  import opened RoundProperties
  import opened Scheduler
  import opened Runs
  import opened ReservedStarts
  import opened ResolvingProgress
  import opened BackfillProgress

  /** The last invocation is long enough ago. */
  ghost predicate Due(cfg: SchedulerConfig, w: World, now: real) {
    cfg.minSchedulingInterval == 0.0 || now - w.lastInvocation >= cfg.minSchedulingInterval - EPSILON
  }

  /** The number of free nodes. */
  ghost function FreeCount(nodes: seq<NodeView>): nat {
    |set i | 0 <= i < |nodes| && nodes[i].state.NodeFree?|
  }

  lemma FreeCountIsListed(nodes: seq<NodeView>)
    ensures FreeCount(nodes) == |FreeNodes(nodes)|
  {
    DistinctSize(FreeNodes(nodes));
    SetEqualByMembers(SetOf(FreeNodes(nodes)), set i | 0 <= i < |nodes| && nodes[i].state.NodeFree?);
  }

  /** Without a policy, preparing an invocation makes no free node unavailable. */
  lemma PrepareKeepsFreeNodes(strategy: Strategy, cfg: PolicyConfig, policy: PolicyState, s: Sys, a: Agreements, now: real)
    requires now >= 0.0 && !cfg.loaded && Settled(strategy, false, s, a)
    ensures FreeCount(s.nodes) <= FreeCount(Prepare(cfg, policy, s, now).1.nodes)
    ensures forall j :: 0 <= j < |s.jobs| && s.jobs[j].state.Pending? ==> Prepare(cfg, policy, s, now).1.jobs[j] == s.jobs[j]
    ensures forall j :: 0 <= j < |s.jobs| && Prepare(cfg, policy, s, now).1.jobs[j].state.Pending? ==> s.jobs[j].state.Pending?
  {
    var t := Prepare(cfg, policy, s, now).1;
    assert t.nodes == FireTransitions(s.nodes, now);
    forall i | 0 <= i < |s.nodes| && s.nodes[i].state.NodeFree? ensures t.nodes[i].state.NodeFree? {
      assert NodeOk(s.jobs, s.nodes[i], i);
    }
    var before, after := set i | 0 <= i < |s.nodes| && s.nodes[i].state.NodeFree?, set i | 0 <= i < |t.nodes| && t.nodes[i].state.NodeFree?;
    SubsetByMembers(before, after);
    SubsetSize(before, after);
  }

  /** Without a policy every free node accepts every job. */
  lemma SizeWithoutPolicy(strategy: Strategy, ctx: Ctx, s: Sys, j: int)
    requires !ctx.cfg.loaded && 0 <= j < |s.jobs| && HasSizes(s.jobs[j])
    ensures var v, free := s.jobs[j], FreeNodes(s.nodes);
      SizeNow(strategy, ctx, s, j, free) == if strategy.Prefers() && v.nodesPref <= FreeCount(s.nodes) then v.nodesPref
                                            else if v.nodesMin <= FreeCount(s.nodes) then v.nodesMin else 0
  {
    var v, free := s.jobs[j], FreeNodes(s.nodes);
    FreeCountIsListed(s.nodes);
    FilterAll(n => Accepts(ctx, s.nodes, n, v.profile.PredictedRuntimeForNodes(v.nodesPref), false), free);
    FilterAll(n => Accepts(ctx, s.nodes, n, v.profile.PredictedRuntimeForNodes(v.nodesMin), false), free);
  }

  /** Without a policy and with nothing reserved, an invocation runs the first pending job if as many
      nodes are free as it needs at least, on its preferred number or its minimum. */
  lemma PendingFitsRuns(cfg: SchedulerConfig, w: World, now: real, requester: int, j: int)
    requires now >= 0.0 && !cfg.policy.loaded && Settled(cfg.strategy, false, w.sys, w.agreements) && w.agreements == NO_AGREEMENTS
    requires FirstPending(w.sys, j) && w.sys.jobs[j].nodesMin <= FreeCount(w.sys.nodes)
    ensures |Invoke(cfg, w, now, requester).sys.jobs| == |w.sys.jobs| && RunsOnItsSize(cfg.strategy, w.sys.jobs[j], Invoke(cfg, w, now, requester).sys.jobs[j])
  {
    PrepareKeepsFreeNodes(cfg.strategy, cfg.policy, w.policy, w.sys, w.agreements, now);
    assert JobOk(w.sys.jobs[j], |w.sys.nodes|);
    hide Settled;
    hide Prepare;
    hide Invoke;
    hide FreeCount;
    hide Willing;
    hide SizeNow;
    var (policy, s) := Prepare(cfg.policy, w.policy, w.sys, now);
    assert s.jobs[j] == w.sys.jobs[j];
    SizeWithoutPolicy(cfg.strategy, Context(cfg.policy, policy, now), s, j);
    InvocationRunsHead(cfg, w, now, requester, j);
    JobCount(cfg, w, now, requester);
  }

  ghost predicate FirstPending(s: Sys, j: int) {
    0 <= j < |s.jobs| && s.jobs[j].state.Pending? && forall k :: 0 <= k < j ==> !s.jobs[k].state.Pending?
  }

  /** The job runs on its minimum of nodes, or with the preferring strategy on its preferred number. */
  ghost predicate RunsOnItsSize(strategy: Strategy, before: JobView, after: JobView) {
    after.state.Running? && (|after.executingNodes| == before.nodesMin || (strategy.Prefers() && |after.executingNodes| == before.nodesPref))
  }

  lemma JobCount(cfg: SchedulerConfig, w: World, now: real, requester: int)
    requires now >= 0.0
    ensures |Invoke(cfg, w, now, requester).sys.jobs| == |w.sys.jobs|
  {
    hide Prepare;
    hide ScheduleRound;
  }

  /** The messages on which the strategy is asked: the timer always, the others as configured. */
  ghost predicate Invokes(cfg: SchedulerConfig, w: World, e: Event)
    requires Possible(w, e)
  {
    match e.message
    case InvokeScheduling => true
    case JobSubmit(_) => cfg.onJobSubmit
    case SchedulingPointReached(j) => cfg.onSchedulingPoint || (cfg.onReconfiguration && w.sys.jobs[j].state.PendingReconfiguration?)
    case WorkloadProcessed(_) => cfg.onJobFinalize
    case ApplicationRuns(_) => false
  }

  /** The cluster that the strategy is asked about. */
  ghost function AskedAbout(cfg: SchedulerConfig, w: World, e: Event): Sys
    requires Possible(w, e)
  {
    match e.message
    case InvokeScheduling => w.sys
    case JobSubmit(v) => w.sys.Submit(v)
    case SchedulingPointReached(j) => if cfg.onSchedulingPoint then w.sys else w.sys.SchedulingPoint(j, e.at)
    case WorkloadProcessed(j) => w.sys.ProcessedWorkload(j, e.at)
    case ApplicationRuns(j) => w.sys.ApplicationRunning(j, e.at)
  }

  lemma AskedAboutIsSettled(cfg: SchedulerConfig, w: World, e: Event)
    requires Possible(w, e) && Settled(cfg.strategy, cfg.policy.loaded, w.sys, w.agreements)
    ensures Settled(cfg.strategy, cfg.policy.loaded, AskedAbout(cfg, w, e), w.agreements)
  {
    hide Settled;
    match e.message
    case InvokeScheduling =>
    case JobSubmit(v) => SubmitKeepsSettled(cfg.strategy, cfg.policy.loaded, w.sys, w.agreements, v);
    case SchedulingPointReached(j) =>
      if w.sys.jobs[j].state.PendingReconfiguration? { ReconfigureKeepsSettled(cfg.strategy, cfg.policy.loaded, w.sys, w.agreements, j, e.at); }
    case WorkloadProcessed(j) => ProcessedKeepsSettled(cfg.strategy, cfg.policy.loaded, w.sys, w.agreements, j, e.at);
    case ApplicationRuns(j) => ReportKeepsSettled(cfg.strategy, cfg.policy.loaded, w.sys, w.agreements, j, e.at);
  }

  /** On whose behalf the strategy is asked. */
  ghost function Requester(cfg: SchedulerConfig, e: Event): int {
    if e.message.SchedulingPointReached? && cfg.onSchedulingPoint then e.message.id else -1
  }

  lemma InvokingMessage(cfg: SchedulerConfig, w: World, e: Event)
    requires Possible(w, e) && Invokes(cfg, w, e) && Due(cfg, w, e.at)
    ensures Handle(cfg, w, e) == Invoke(cfg, w.(sys := AskedAbout(cfg, w, e), clock := e.at), e.at, Requester(cfg, e))
  {
    ClockIsIrrelevant(cfg, w, e.at, Requester(cfg, e));
    hide Invoke;
    hide Sys.Submit;
    hide Sys.SchedulingPoint;
    hide Sys.ProcessedWorkload;
  }

  /** End to end, for every message on which the strategy is asked: if the last invocation is long
      enough ago and nothing is reserved, then the first pending job runs when the message has been
      handled, provided that enough nodes are free for it. */
  lemma FirstPendingRuns(cfg: SchedulerConfig, w: World, e: Event, j: int)
    requires Possible(w, e) && Settled(cfg.strategy, false, w.sys, w.agreements) && !cfg.policy.loaded && w.agreements == NO_AGREEMENTS
    requires Invokes(cfg, w, e) && Due(cfg, w, e.at)
    requires var s := AskedAbout(cfg, w, e); FirstPending(s, j) && s.jobs[j].nodesMin <= FreeCount(s.nodes)
    ensures var s, t := AskedAbout(cfg, w, e), Handle(cfg, w, e).sys; |t.jobs| == |s.jobs| && RunsOnItsSize(cfg.strategy, s.jobs[j], t.jobs[j])
  {
    AskedAboutIsSettled(cfg, w, e);
    InvokingMessage(cfg, w, e);
    hide Settled;
    hide Invoke;
    hide Handle;
    hide AskedAbout;
    hide FreeCount;
    hide RunsOnItsSize;
    hide FirstPending;
    PendingFitsRuns(cfg, w.(sys := AskedAbout(cfg, w, e), clock := e.at), e.at, Requester(cfg, e), j);
  }

  lemma ClockIsIrrelevant(cfg: SchedulerConfig, w: World, now: real, requester: int)
    requires now >= 0.0
    ensures Invoke(cfg, w.(clock := now), now, requester) == Invoke(cfg, w, now, requester)
  {
    hide Prepare;
    hide ScheduleRound;
  }

  /** In particular a submitted job runs at once if nothing else waits. */
  lemma SubmittedJobRuns(cfg: SchedulerConfig, w: World, at: real, v: JobView)
    requires Possible(w, Event(at, JobSubmit(v))) && Settled(cfg.strategy, false, w.sys, w.agreements)
    requires !cfg.policy.loaded && cfg.onJobSubmit && Due(cfg, w, at) && w.agreements == NO_AGREEMENTS
    requires (forall k :: 0 <= k < |w.sys.jobs| ==> !w.sys.jobs[k].state.Pending?) && v.nodesMin <= FreeCount(w.sys.nodes)
    ensures var t := Handle(cfg, w, Event(at, JobSubmit(v))).sys; |t.jobs| == |w.sys.jobs| + 1 && RunsOnItsSize(cfg.strategy, v, t.jobs[|w.sys.jobs|])
  {
    hide Settled;
    hide Handle;
    hide FreeCount;
    FirstPendingRuns(cfg, w, Event(at, JobSubmit(v)), |w.sys.jobs|);
  }

  /** A job that reports a scheduling point has no reconfiguration pending afterwards, unless the
      invocation it asked for came too soon. */
  lemma RequesterIsAnswered(cfg: SchedulerConfig, w: World, at: real, j: int)
    requires Possible(w, Event(at, SchedulingPointReached(j))) && Settled(cfg.strategy, cfg.policy.loaded, w.sys, w.agreements)
    requires cfg.onSchedulingPoint ==> Due(cfg, w, at)
    ensures var t := Handle(cfg, w, Event(at, SchedulingPointReached(j))).sys; |t.jobs| == |w.sys.jobs| && !t.jobs[j].state.PendingReconfiguration?
  {
    if cfg.onSchedulingPoint {
      InvocationAnswers(cfg, w, at, j);
    } else if w.sys.jobs[j].state.PendingReconfiguration? {
      PointReconfigures(cfg, w, at, j);
    }
  }

  lemma PointAnswers(s: Sys, j: int, now: real)
    requires 0 <= j < |s.jobs|
    ensures !s.SchedulingPoint(j, now).jobs[j].state.PendingReconfiguration?
  {
  }

  lemma InvocationAnswers(cfg: SchedulerConfig, w: World, now: real, j: int)
    requires now >= 0.0 && Settled(cfg.strategy, cfg.policy.loaded, w.sys, w.agreements) && 0 <= j < |w.sys.jobs|
    ensures var t := Invoke(cfg, w, now, j).sys; |t.jobs| == |w.sys.jobs| && !t.jobs[j].state.PendingReconfiguration?
  {
    hide Settled;
    hide RoundOk;
    hide Prepare;
    hide ScheduleRound;
    hide ForwardAll;
    hide Forwarding;
    PrepareKeepsSettled(cfg.strategy, cfg.policy, w.policy, w.sys, w.agreements, now);
    var (policy, s) := Prepare(cfg.policy, w.policy, w.sys, now);
    var ctx, loaded := Context(cfg.policy, policy, now), cfg.policy.loaded;
    var t := ScheduleRound(cfg.strategy, ctx, s, w.agreements);
    RoundIsSafe(cfg.strategy, ctx, s, w.agreements);
    RoundEndsForwarding(cfg.strategy, loaded, s, t);
    AnswerKeepsForwarding(cfg.strategy, loaded, t.sys, t.agreements, t.started, j, now);
    PointAnswers(t.sys, j, now);
    ForwardingTakesOver(cfg.strategy, loaded, Answer(t.sys, j, now), t.agreements, t.started, now, j);
    hide Sys.SchedulingPoint;
    assert !Answer(t.sys, j, now).jobs[j].state.PendingReconfiguration?;
  }

  /** If scheduling points do not ask the strategy, a pending reconfiguration is carried out at the
      point: the job executes on exactly what it was assigned, whether or not the reconfiguration
      then invokes the strategy. */
  lemma PointReconfigures(cfg: SchedulerConfig, w: World, at: real, j: int)
    requires Possible(w, Event(at, SchedulingPointReached(j))) && Settled(cfg.strategy, cfg.policy.loaded, w.sys, w.agreements)
    requires !cfg.onSchedulingPoint && w.sys.jobs[j].state.PendingReconfiguration?
    ensures var v, t := w.sys.jobs[j], Handle(cfg, w, Event(at, SchedulingPointReached(j))).sys;
      && |t.jobs| == |w.sys.jobs| && t.jobs[j].state.InReconfiguration?
      && t.jobs[j].executingNodes == v.assignedNodes && t.jobs[j].assignedNodes == v.assignedNodes && !t.jobs[j].died
  {
    var e, s := Event(at, SchedulingPointReached(j)), w.sys.Reconfigure(j, at);
    TakesOver(cfg.strategy, cfg.policy.loaded, w.sys, w.agreements, j, at);
    ReconfigureKeepsSettled(cfg.strategy, cfg.policy.loaded, w.sys, w.agreements, j, at);
    PointIsHandled(cfg, w, e, j);
    hide Settled;
    hide Invoke;
    hide Handle;
    hide Sys.Reconfigure;
    InvocationLeavesReconfiguring(cfg, w.(sys := s, clock := at), at, j);
  }

  lemma PointIsHandled(cfg: SchedulerConfig, w: World, e: Event, j: int)
    requires Possible(w, e) && e.message == SchedulingPointReached(j) && !cfg.onSchedulingPoint && w.sys.jobs[j].state.PendingReconfiguration?
    ensures var t := Handle(cfg, w, e).sys; t == w.sys.Reconfigure(j, e.at) || t == Invoke(cfg, w.(sys := w.sys.Reconfigure(j, e.at), clock := e.at), e.at).sys
  {
    hide Invoke;
    hide Sys.Reconfigure;
  }

  lemma TakesOver(strategy: Strategy, loaded: bool, s: Sys, a: Agreements, j: int, now: real)
    requires Settled(strategy, loaded, s, a) && 0 <= j < |s.jobs| && s.jobs[j].state.PendingReconfiguration?
    ensures var v, t := s.jobs[j], s.Reconfigure(j, now);
      && |t.jobs| == |s.jobs| && t.jobs[j].state.InReconfiguration?
      && t.jobs[j].executingNodes == v.assignedNodes && t.jobs[j].assignedNodes == v.assignedNodes && !t.jobs[j].died
  {
    assert JobOk(s.jobs[j], |s.nodes|);
  }

  lemma PrepareLeavesReconfiguring(strategy: Strategy, cfg: PolicyConfig, policy: PolicyState, s: Sys, a: Agreements, now: real, j: int)
    requires now >= 0.0 && Settled(strategy, cfg.loaded, s, a) && 0 <= j < |s.jobs| && s.jobs[j].state.InReconfiguration?
    ensures Prepare(cfg, policy, s, now).1.jobs[j] == s.jobs[j]
  {
    var s1 := UpdateRunningPredictions(s, now);
    ProgressKeepsSettled(strategy, cfg.loaded, s, a, now);
    UpdateKeepsSettled(strategy, cfg, policy, s1, a, now);
    var (policy1, nodes1) := Update(cfg, policy, s1.nodes, now);
    assert Inv(s1.(nodes := nodes1)) && NoStarts(s1.(nodes := nodes1));
    hide Settled;
    hide Inv;
    hide Update;
    hide ApplyMalleablePolicy;
    ApplyMalleablePolicyKeepsInv(cfg, policy1, s1.(nodes := nodes1), now);
  }

  /** A job that is being reconfigured is left alone by an invocation. */
  lemma InvocationLeavesReconfiguring(cfg: SchedulerConfig, w: World, now: real, j: int)
    requires now >= 0.0 && Settled(cfg.strategy, cfg.policy.loaded, w.sys, w.agreements)
    requires 0 <= j < |w.sys.jobs| && w.sys.jobs[j].state.InReconfiguration?
    ensures var t := Invoke(cfg, w, now).sys; |t.jobs| == |w.sys.jobs| && t.jobs[j] == w.sys.jobs[j]
  {
    PrepareLeavesReconfiguring(cfg.strategy, cfg.policy, w.policy, w.sys, w.agreements, now, j);
    hide Settled;
    hide RoundOk;
    hide Prepare;
    hide ScheduleRound;
    hide ForwardAll;
    hide Forwarding;
    PrepareKeepsSettled(cfg.strategy, cfg.policy, w.policy, w.sys, w.agreements, now);
    var (policy, s) := Prepare(cfg.policy, w.policy, w.sys, now);
    var ctx, loaded := Context(cfg.policy, policy, now), cfg.policy.loaded;
    var t := ScheduleRound(cfg.strategy, ctx, s, w.agreements);
    RoundIsSafe(cfg.strategy, ctx, s, w.agreements);
    RoundLeavesReconfiguring(cfg.strategy, loaded, s, t, j);
    RoundEndsForwarding(cfg.strategy, loaded, s, t);
    ForwardingTakesOver(cfg.strategy, loaded, t.sys, t.agreements, t.started, now, j);
  }

  lemma RoundLeavesReconfiguring(strategy: Strategy, loaded: bool, s: Sys, t: Round, j: int)
    requires RoundOk(strategy, loaded, s, t, -1) && 0 <= j < |s.jobs| && s.jobs[j].state.InReconfiguration?
    ensures |t.sys.jobs| == |s.jobs| && t.sys.jobs[j] == s.jobs[j]
  {
    assert JobEvolves(s, s.jobs[j], t.sys.jobs[j]);
  }

  /** When a job has finished, no node runs or expects it, and those it ran on are free. */
  lemma FinishedJobLeaves(cfg: SchedulerConfig, w: World, at: real, j: int, i: int)
    requires Possible(w, Event(at, WorkloadProcessed(j))) && Settled(cfg.strategy, cfg.policy.loaded, w.sys, w.agreements)
    requires !cfg.onJobFinalize && 0 <= i < |w.sys.nodes|
    ensures var t := Handle(cfg, w, Event(at, WorkloadProcessed(j))).sys;
      && t.jobs[j].state.Completed? && |t.nodes| == |w.sys.nodes| && j !in t.nodes[i].running && j !in t.nodes[i].expected
      && (i in w.sys.jobs[j].executingNodes ==> t.nodes[i].state.NodeFree?)
  {
    assert JobOk(w.sys.jobs[j], |w.sys.nodes|) && Inv(w.sys);
    hide Settled;
    NodeIsLeft(w.sys, j, i, at);
  }

  lemma NodeIsLeft(s: Sys, j: int, i: int, now: real)
    requires Inv(s) && 0 <= j < |s.jobs| && s.jobs[j].Active() && 0 <= i < |s.nodes|
    ensures var t := s.ProcessedWorkload(j, now);
      && |t.jobs| == |s.jobs| && |t.nodes| == |s.nodes| && t.jobs[j].state.Completed?
      && j !in t.nodes[i].running && j !in t.nodes[i].expected && (i in s.jobs[j].executingNodes ==> t.nodes[i].state.NodeFree?)
  {
    var t := s.ProcessedWorkload(j, now);
    ProcessedWorkloadKeepsInv(s, j, now);
    assert t.jobs[j].state.Completed?;
    OnlyHoldersAreListed(t, j, i);
    if i in s.jobs[j].executingNodes {
      assert s.jobs[j].Executes(i);
      RunsAlone(s, j, i);
      hide Inv;
    }
  }

  lemma OnlyHoldersAreListed(s: Sys, j: int, i: int)
    requires Inv(s) && 0 <= j < |s.jobs| && s.jobs[j].state.Completed? && 0 <= i < |s.nodes|
    ensures j !in s.nodes[i].running && j !in s.nodes[i].expected
  {
    assert NodeOk(s.jobs, s.nodes[i], i);
  }

  lemma RunsAlone(s: Sys, j: int, i: int)
    requires Inv(s) && 0 <= j < |s.jobs| && 0 <= i < |s.nodes| && s.jobs[j].Executes(i)
    ensures s.nodes[i].running == {j}
  {
    assert NodeOk(s.jobs, s.nodes[i], i);
  }
}
