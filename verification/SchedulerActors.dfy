/** The scheduler actor as an object: it owns the cluster, the shutdown policy manager and the
    strategy, and handles one message after the other. Every handler does to the objects what
    the step of the world does to values, so what holds in every reachable world holds for them. */
module SchedulerActors {
  import opened Sequences
  import opened ClusterState
  import opened ClusterInvariant
  import opened ShutdownPolicy
  import opened PowerSafety
  import opened AgreementMaps
  import opened AgreementHandlers
  import opened ClusterObjects
  import opened Cluster
  import opened ShutdownManagers
  import opened CorePools
  import opened SchedulingRound
  import opened RoundInvariant
  import opened RoundProperties
  import opened MalleableScheduling
  import opened Scheduler
  import opened Runs

  class SchedulerActor {
    const cfg: SchedulerConfig
    const cluster: Cluster
    const shutdownPolicy: ShutdownPolicyManager
    const nativeScheduler: MalleableScheduler
    var clock: real
    var lastInvocation: real

    ghost predicate Assembled()
      reads this
    {
      && shutdownPolicy.cfg == cfg.policy
      && nativeScheduler.strategy == cfg.strategy && nativeScheduler.cluster == cluster && nativeScheduler.shutdownPolicy == shutdownPolicy
    }

    /** The objects are intact, and the world they make up is settled. */
    ghost predicate Valid()
      reads this, cluster, cluster.nodes, cluster.cache, cluster.jobQueue, shutdownPolicy, nativeScheduler.agreements
    {
      && Assembled() && cluster.Valid() && AllOrNone(shutdownPolicy.View(), |cluster.nodes|)
      && Settled(cfg.strategy, cfg.policy.loaded, cluster.View(), nativeScheduler.agreements.View())
    }

    function View(): World
      reads this, cluster, cluster.nodes, cluster.jobQueue, shutdownPolicy, nativeScheduler.agreements
    {
      World(cluster.View(), shutdownPolicy.View(), nativeScheduler.agreements.View(), clock, lastInvocation)
    }

    constructor (cfg: SchedulerConfig, nodeCount: nat)
      ensures this.cfg == cfg && Valid() && View() == NewWorld(nodeCount)
    {
      hide Cluster.Valid;
      hide Cluster.View;
      hide Settled;
      hide NewNodes;
      this.cfg := cfg;
      var platform := new Cluster(nodeCount);
      cluster := platform;
      var policyManager := new ShutdownPolicyManager(cfg.policy);
      shutdownPolicy := policyManager;
      nativeScheduler := new MalleableScheduler(cfg.strategy, platform, policyManager);
      clock, lastInvocation := 0.0, 0.0;
      new;
      NewWorldIsSettled(cfg.strategy, cfg.policy.loaded, nodeCount);
    }

    /** Everything before the strategy is asked. */
    method Prepare(now: real)
      requires now >= 0.0 && Valid()
      modifies shutdownPolicy, cluster.jobQueue, cluster.nodes, cluster.cache`cacheValid
      ensures Valid() && nativeScheduler.Informed(Context(cfg.policy, shutdownPolicy.View(), now))
      ensures (shutdownPolicy.View(), cluster.View()) == Scheduler.Prepare(cfg.policy, old(shutdownPolicy.View()), old(cluster.View()), now)
    {
      hide Cluster.Valid;
      hide Cluster.View;
      hide Settled;
      hide Scheduler.UpdateRunningPredictions;
      hide ShutdownPolicy.Update;
      hide ApplyMalleablePolicy;
      hide FireTransitions;
      ghost var a, s, policy := nativeScheduler.agreements.View(), cluster.View(), shutdownPolicy.View();
      NodeCount(cluster);
      cluster.UpdateRunningPredictions(now);
      ProgressKeepsSettled(cfg.strategy, cfg.policy.loaded, s, a, now);
      UpdateKeepsSettled(cfg.strategy, cfg.policy, policy, cluster.View(), a, now);
      shutdownPolicy.Update(cluster, now);
      MalleableJobsMayShrink(cluster, cfg.strategy, cfg.policy.loaded, a);
      shutdownPolicy.ApplyMalleableShutdownPolicy(cluster, now);
      cluster.CheckScheduledTransitions(now);
      PrepareKeepsSettled(cfg.strategy, cfg.policy, policy, s, a, now);
      NodeCount(cluster);
      PrepareCovers(cfg.policy, policy, s, now);
    }

    /** Forward the allocations of the started jobs. */
    method ForwardAllocations(scheduled: seq<int>, now: real)
      requires Assembled() && cluster.Valid() && AllOrNone(shutdownPolicy.View(), |cluster.nodes|)
      requires Forwarding(cfg.strategy, cfg.policy.loaded, cluster.View(), nativeScheduler.agreements.View(), scheduled)
      modifies cluster.jobQueue, cluster.nodes, cluster.cache`cacheValid
      ensures Valid() && cluster.View() == ForwardAll(old(cluster.View()), scheduled, now)
    {
      hide Cluster.Valid;
      hide Cluster.View;
      hide Forwarding;
      hide Settled;
      hide ForwardAll;
      ghost var s, a := cluster.View(), nativeScheduler.agreements.View();
      assert scheduled[0..] == scheduled;
      var i := 0;
      while i < |scheduled|
        invariant i <= |scheduled| && cluster.Valid() && Forwarding(cfg.strategy, cfg.policy.loaded, cluster.View(), a, scheduled[i..])
        invariant ForwardAll(cluster.View(), scheduled[i..], now) == ForwardAll(s, scheduled, now)
      {
        ForwardStep(cfg.strategy, cfg.policy.loaded, cluster.View(), a, scheduled[i..], now);
        assert scheduled[i..][0] == scheduled[i] && scheduled[i..][1..] == scheduled[i + 1..];
        JobAt(cluster, scheduled[i]);
        if cluster.jobQueue[scheduled[i]].state.PendingAllocation? {
          var _, _ := cluster.ForwardJobAllocation(scheduled[i], now);
        }
        i := i + 1;
      }
      ForwardAllSettles(cfg.strategy, cfg.policy.loaded, cluster.View(), a, scheduled[i..], now);
      NothingToForward(cluster.View(), scheduled[i..], now);
    }

    /** The job that asked for the invocation, if one did, is reconfigured if that is pending. */
    method Answer(requester: int, ghost started: seq<int>, now: real)
      requires Assembled() && cluster.Valid() && AllOrNone(shutdownPolicy.View(), |cluster.nodes|)
      requires Forwarding(cfg.strategy, cfg.policy.loaded, cluster.View(), nativeScheduler.agreements.View(), started)
      modifies cluster.jobQueue, cluster.nodes, cluster.cache`cacheValid
      ensures cluster.Valid() && cluster.View() == Scheduler.Answer(old(cluster.View()), requester, now)
      ensures Forwarding(cfg.strategy, cfg.policy.loaded, cluster.View(), nativeScheduler.agreements.View(), started)
    {
      hide Cluster.Valid;
      hide Cluster.View;
      hide Forwarding;
      hide Sys.Reconfigure;
      ghost var s, a := cluster.View(), nativeScheduler.agreements.View();
      AnswerKeepsForwarding(cfg.strategy, cfg.policy.loaded, s, a, started, requester, now);
      nativeScheduler.JobCount();
      if 0 <= requester < |cluster.jobQueue| {
        JobAt(cluster, requester);
        if cluster.jobQueue[requester].state.PendingReconfiguration? {
          PendingReconfigurationIsSound(cfg.strategy, cfg.policy.loaded, s, a, started, requester);
          var _, _, _, _ := cluster.HandleReconfiguration(requester, now);
        }
      }
    }

    /** What the strategy decided takes effect. */
    method ForwardResults(requester: int, scheduled: seq<int>, now: real)
      requires Assembled() && cluster.Valid() && AllOrNone(shutdownPolicy.View(), |cluster.nodes|)
      requires Forwarding(cfg.strategy, cfg.policy.loaded, cluster.View(), nativeScheduler.agreements.View(), scheduled)
      modifies cluster.jobQueue, cluster.nodes, cluster.cache`cacheValid
      ensures Valid() && cluster.View() == ForwardAll(Scheduler.Answer(old(cluster.View()), requester, now), scheduled, now)
    {
      hide Cluster.Valid;
      hide Cluster.View;
      hide Forwarding;
      hide AllOrNone;
      hide ForwardAll;
      hide Scheduler.Answer;
      Answer(requester, scheduled, now);
      ForwardAllocations(scheduled, now);
    }

    method Invoke(now: real, requester: int := -1)
      requires now >= 0.0 && Valid()
      modifies this, shutdownPolicy, nativeScheduler.agreements, cluster.jobQueue, cluster.nodes, cluster.cache
      ensures Valid() && View() == Scheduler.Invoke(cfg, old(View()), now, requester)
    {
      hide Cluster.Valid;
      hide Cluster.View;
      hide Settled;
      hide Forwarding;
      hide RoundOk;
      hide ScheduleRound;
      hide Scheduler.Prepare;
      hide ForwardAll;
      hide Scheduler.Answer;
      hide AllOrNone;
      hide MalleableScheduler.Informed;
      ghost var a := nativeScheduler.agreements.View();
      Prepare(now);
      ghost var s := cluster.View();
      ghost var policy := shutdownPolicy.View();
      var ctx := Context(cfg.policy, shutdownPolicy.View(), now);
      RoundIsSafe(cfg.strategy, ctx, s, a);
      RoundEndsForwarding(cfg.strategy, cfg.policy.loaded, s, ScheduleRound(cfg.strategy, ctx, s, a));
      var scheduled := nativeScheduler.Schedule(ctx);
      ForwardResults(requester, scheduled, now);
      clock, lastInvocation := now, now;
    }

    /** An invocation too soon after the last one does nothing. */
    method Schedule(now: real, requester: int := -1)
      requires now >= 0.0 && Valid()
      modifies this, shutdownPolicy, nativeScheduler.agreements, cluster.jobQueue, cluster.nodes, cluster.cache
      ensures Valid() && View() == Scheduler.Schedule(cfg, old(View()), now, requester)
    {
      hide Cluster.Valid;
      hide Cluster.View;
      hide Settled;
      hide Scheduler.Invoke;
      if cfg.minSchedulingInterval == 0.0 || now - lastInvocation >= cfg.minSchedulingInterval - EPSILON {
        Invoke(now, requester);
      } else {
        clock := now;
      }
    }

    /** A submitted job is queued. */
    method HandleJobSubmit(v: JobView, now: real)
      requires Valid() && Possible(View(), Event(now, JobSubmit(v)))
      modifies this, shutdownPolicy, nativeScheduler.agreements, cluster`jobQueue, cluster.jobQueue, cluster.nodes, cluster.cache
      ensures Valid() && View() == Handle(cfg, old(View()), Event(now, JobSubmit(v)))
      ensures forall k :: 0 <= k < |cluster.jobQueue| ==> cluster.jobQueue[k] in old(cluster.jobQueue) || fresh(cluster.jobQueue[k])
    {
      hide Cluster.Valid;
      hide Cluster.View;
      hide Settled;
      hide Scheduler.Schedule;
      SubmitKeepsSettled(cfg.strategy, cfg.policy.loaded, cluster.View(), nativeScheduler.agreements.View(), v);
      ghost var before := cluster.jobQueue;
      cluster.HandleJobSubmit(v);
      assert cluster.jobQueue == before + [cluster.jobQueue[|before|]];
      clock := now;
      if cfg.onJobSubmit {
        Schedule(now);
      }
    }

    /** A job at a scheduling point asks for an invocation if so configured; else it is reconfigured
        if that is pending, or goes on. */
    method HandleSchedulingPoint(j: int, now: real)
      requires Valid() && Possible(View(), Event(now, SchedulingPointReached(j)))
      modifies this, shutdownPolicy, nativeScheduler.agreements, cluster.jobQueue, cluster.nodes, cluster.cache
      ensures Valid() && View() == Handle(cfg, old(View()), Event(now, SchedulingPointReached(j)))
    {
      hide Cluster.Valid;
      hide Cluster.View;
      hide Settled;
      hide Sys.Reconfigure;
      hide Scheduler.Schedule;
      if cfg.onSchedulingPoint {
        Schedule(now, j);
        return;
      }
      ghost var s, a := cluster.View(), nativeScheduler.agreements.View();
      ActiveJobIsSound(cluster, cfg.strategy, cfg.policy.loaded, a, j);
      if s.jobs[j].state.PendingReconfiguration? { ReconfigureKeepsSettled(cfg.strategy, cfg.policy.loaded, s, a, j, now); }
      var reconfigured := cluster.HandleSchedulingPoint(j, now);
      clock := now;
      if reconfigured && cfg.onReconfiguration {
        Schedule(now);
      }
    }

    /** A job whose workload is processed leaves its nodes. */
    method HandleProcessedWorkload(j: int, now: real)
      requires Valid() && Possible(View(), Event(now, WorkloadProcessed(j)))
      modifies this, shutdownPolicy, nativeScheduler.agreements, cluster.jobQueue, cluster.nodes, cluster.cache
      ensures Valid() && View() == Handle(cfg, old(View()), Event(now, WorkloadProcessed(j)))
    {
      hide Cluster.Valid;
      hide Cluster.View;
      hide Settled;
      hide Sys.ProcessedWorkload;
      hide Scheduler.Schedule;
      ghost var s, a := cluster.View(), nativeScheduler.agreements.View();
      ActiveJobIsSound(cluster, cfg.strategy, cfg.policy.loaded, a, j);
      ProcessedKeepsSettled(cfg.strategy, cfg.policy.loaded, s, a, j, now);
      cluster.HandleProcessedWorkload(j, now);
      clock := now;
      if cfg.onJobFinalize {
        Schedule(now);
      }
    }

    /** Rank 0 of a job sets the job running; the scheduler has no part in it. */
    method HandleApplicationRuns(j: int, now: real)
      requires Valid() && Possible(View(), Event(now, ApplicationRuns(j)))
      modifies this, cluster.jobQueue, cluster.nodes, cluster.cache`cacheValid
      ensures Valid() && View() == Handle(cfg, old(View()), Event(now, ApplicationRuns(j)))
    {
      hide Cluster.Valid;
      hide Cluster.View;
      hide Settled;
      hide Sys.ApplicationRunning;
      ghost var s, a := cluster.View(), nativeScheduler.agreements.View();
      ActiveJobIsSound(cluster, cfg.strategy, cfg.policy.loaded, a, j);
      ReportKeepsSettled(cfg.strategy, cfg.policy.loaded, s, a, j, now);
      cluster.HandleApplicationRunning(j, now);
      clock := now;
    }

    method Receive(e: Event)
      requires Valid() && Possible(View(), e)
      modifies this, shutdownPolicy, nativeScheduler.agreements, cluster`jobQueue, cluster.jobQueue, cluster.nodes, cluster.cache
      ensures Valid() && View() == Handle(cfg, old(View()), e)
      ensures forall k :: 0 <= k < |cluster.jobQueue| ==> cluster.jobQueue[k] in old(cluster.jobQueue) || fresh(cluster.jobQueue[k])
    {
      hide Valid;
      hide View;
      hide Handle;
      match e.message {
        case InvokeScheduling => InvokedIsSchedule(e); Schedule(e.at);
        case JobSubmit(v) => HandleJobSubmit(v, e.at);
        case SchedulingPointReached(j) => HandleSchedulingPoint(j, e.at);
        case WorkloadProcessed(j) => HandleProcessedWorkload(j, e.at);
        case ApplicationRuns(j) => HandleApplicationRuns(j, e.at);
      }
    }

    lemma InvokedIsSchedule(e: Event)
      requires e.message.InvokeScheduling? && Possible(View(), e)
      ensures Handle(cfg, View(), e) == Scheduler.Schedule(cfg, View(), e.at)
    {
    }

    /** The main loop: the objects end in the world that the messages lead to. */
    method ProcessMessages(events: seq<Event>)
      requires Valid() && PossibleRun(cfg, View(), events)
      modifies this, shutdownPolicy, nativeScheduler.agreements, cluster`jobQueue, cluster.jobQueue, cluster.nodes, cluster.cache
      ensures Valid() && View() == Run(cfg, old(View()), events)
    {
      hide Valid;
      hide View;
      hide Handle;
      hide Possible;
      ghost var w := View();
      assert events[0..] == events;
      var i := 0;
      while i < |events|
        invariant i <= |events| && Valid() && PossibleRun(cfg, View(), events[i..])
        invariant Run(cfg, View(), events[i..]) == Run(cfg, w, events)
        invariant forall k :: 0 <= k < |cluster.jobQueue| ==> cluster.jobQueue[k] in old(cluster.jobQueue) || fresh(cluster.jobQueue[k])
      {
        assert events[i..][0] == events[i] && events[i..][1..] == events[i + 1..];
        Receive(events[i]);
        i := i + 1;
      }
    }
  }

  /** An active job has nodes, and each once. */
  lemma ActiveJobIsSound(cluster: Cluster, strategy: Strategy, loaded: bool, a: Agreements, j: int)
    requires cluster.Valid() && Settled(strategy, loaded, cluster.View(), a) && 0 <= j < |cluster.View().jobs| && cluster.View().jobs[j].Active()
    ensures 0 <= j < |cluster.jobQueue| && cluster.View().jobs[j] == cluster.jobQueue[j].View()
    ensures cluster.jobQueue[j].assignedNodes != [] && Separate(cluster.jobQueue[j].assignedNodes) && Separate(cluster.jobQueue[j].executingNodes)
  {
    assert JobOk(cluster.View().jobs[j], |cluster.View().nodes|);
    hide Settled;
    JobAt(cluster, j);
  }

  lemma PendingReconfigurationIsSound(strategy: Strategy, loaded: bool, s: Sys, a: Agreements, started: seq<int>, j: int)
    requires Forwarding(strategy, loaded, s, a, started) && 0 <= j < |s.jobs| && s.jobs[j].state.PendingReconfiguration?
    ensures s.jobs[j].assignedNodes != [] && Distinct(s.jobs[j].assignedNodes) && Distinct(s.jobs[j].executingNodes)
  {
    assert JobOk(s.jobs[j], |s.nodes|);
  }

  lemma JobAt(cluster: Cluster, j: int)
    requires cluster.Valid() && 0 <= j < |cluster.View().jobs|
    ensures 0 <= j < |cluster.jobQueue| && cluster.View().jobs[j] == cluster.jobQueue[j].View()
    ensures Distinct(cluster.jobQueue[j].View().assignedNodes) ==> Separate(cluster.jobQueue[j].assignedNodes)
    ensures Distinct(cluster.jobQueue[j].View().executingNodes) ==> Separate(cluster.jobQueue[j].executingNodes)
  {
    hide NodeViews;
    var job := cluster.jobQueue[j];
    assert cluster.OwnJob(job, j);
    IdsDecide(job.assignedNodes, job.assignedNodes, cluster.nodes, cluster.cache);
    IdsDecide(job.executingNodes, job.executingNodes, cluster.nodes, cluster.cache);
  }

  lemma NodeCount(cluster: Cluster)
    ensures |cluster.View().nodes| == |cluster.nodes|
  {
  }

  lemma NothingToForward(s: Sys, started: seq<int>, now: real)
    requires started == []
    ensures ForwardAll(s, started, now) == s
  {
  }

  lemma MalleableJobsMayShrink(cluster: Cluster, strategy: Strategy, loaded: bool, a: Agreements)
    requires cluster.Valid() && Settled(strategy, loaded, cluster.View(), a)
    ensures forall j :: 0 <= j < |cluster.jobQueue| && IsRunningMalleable(cluster.jobQueue[j].View()) ==> MayShrink(cluster.jobQueue[j].View())
  {
    forall j | 0 <= j < |cluster.jobQueue| ensures MayShrink(cluster.jobQueue[j].View()) {
      assert JobOk(cluster.View().jobs[j], |cluster.View().nodes|) && cluster.View().jobs[j] == cluster.jobQueue[j].View();
    }
  }
}
