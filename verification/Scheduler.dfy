/** The scheduler actor: what one invocation does, in which order, and how the messages of jobs
    and of the simulation change the world. Time is the simulated clock. */
module Scheduler {
  import opened Sequences
  import opened RuntimePrediction
  import opened ClusterState
  import opened ShutdownPolicy
  import opened PowerSafety
  import opened AgreementMaps
  import opened SchedulingRound

  const EPSILON := 0.001

  datatype SchedulerConfig = SchedulerConfig(strategy: Strategy, policy: PolicyConfig, minSchedulingInterval: real,
                                             onJobSubmit: bool, onJobFinalize: bool, onReconfiguration: bool,
                                             onSchedulingPoint: bool)

  datatype World = World(sys: Sys, policy: PolicyState, agreements: Agreements, clock: real, lastInvocation: real)

  /** The progress of all running jobs is brought up to date. */
  function UpdateRunningPredictions(s: Sys, now: real): (t: Sys)
    ensures t.nodes == s.nodes && |t.jobs| == |s.jobs|
  {
    s.(jobs := seq(|s.jobs|, j requires 0 <= j < |s.jobs| =>
      var v := s.jobs[j]; if v.state.Running? then v.(prediction := UpdateProgress(v.profile, v.prediction, now)) else v))
  }

  /** A started job is forwarded to its nodes if it still waits for that. */
  function ForwardOne(s: Sys, j: int, now: real): (t: Sys)
    ensures |t.jobs| == |s.jobs| && |t.nodes| == |s.nodes|
  {
    if 0 <= j < |s.jobs| && s.jobs[j].state.PendingAllocation? then s.ForwardAllocation(j, now) else s
  }

  function ForwardAll(s: Sys, started: seq<int>, now: real): (t: Sys)
    ensures |t.jobs| == |s.jobs| && |t.nodes| == |s.nodes|
    decreases |started|
  {
    if started == [] then s else ForwardAll(ForwardOne(s, started[0], now), started[1..], now)
  }

  /** Everything before the strategy is asked: progress, shutdown policy, malleable jobs making
      room, transitions that are due. */
  function Prepare(cfg: PolicyConfig, policy: PolicyState, s: Sys, now: real): (r: (PolicyState, Sys))
    requires now >= 0.0
    ensures |r.1.jobs| == |s.jobs| && |r.1.nodes| == |s.nodes|
  {
    var s1 := UpdateRunningPredictions(s, now);
    var (policy1, nodes1) := Update(cfg, policy, s1.nodes, now);
    var (policy2, s2) := ApplyMalleablePolicy(cfg, policy1, s1.(nodes := nodes1), now);
    (policy2, s2.(nodes := FireTransitions(s2.nodes, now)))
  }

  /** The job that asked for the invocation at a scheduling point, if one did, is reconfigured if
      that is pending by now. */
  function Answer(s: Sys, requester: int, now: real): (t: Sys)
    ensures |t.jobs| == |s.jobs| && |t.nodes| == |s.nodes|
  {
    if 0 <= requester < |s.jobs| then s.SchedulingPoint(requester, now) else s
  }

  function Invoke(cfg: SchedulerConfig, w: World, now: real, requester: int := -1): World
    requires now >= 0.0
  {
    var (policy, s) := Prepare(cfg.policy, w.policy, w.sys, now);
    var t := ScheduleRound(cfg.strategy, Context(cfg.policy, policy, now), s, w.agreements);
    World(ForwardAll(Answer(t.sys, requester, now), t.started, now), policy, t.agreements, now, now)
  }

  /** An invocation too soon after the last one does nothing. */
  function Schedule(cfg: SchedulerConfig, w: World, now: real, requester: int := -1): World
    requires now >= 0.0
  {
    if cfg.minSchedulingInterval == 0.0 || now - w.lastInvocation >= cfg.minSchedulingInterval - EPSILON then Invoke(cfg, w, now, requester)
    else w.(clock := now)
  }

  datatype Message =
    | InvokeScheduling
    | JobSubmit(job: JobView)
    | SchedulingPointReached(id: int)
    | WorkloadProcessed(id: int)
    | ApplicationRuns(id: int)

  datatype Event = Event(at: real, message: Message)

  /** Jobs are submitted with sensible limits; only the application of an active job reports. */
  ghost predicate Possible(w: World, e: Event) {
    && 0.0 <= w.clock <= e.at
    && match e.message
       case InvokeScheduling => true
       case JobSubmit(v) => 1 <= v.nodesMin <= v.nodesPref <= v.nodesMax
       case SchedulingPointReached(j) => 0 <= j < |w.sys.jobs| && w.sys.jobs[j].Active()
       case WorkloadProcessed(j) => 0 <= j < |w.sys.jobs| && w.sys.jobs[j].Active()
       case ApplicationRuns(j) => 0 <= j < |w.sys.jobs| && w.sys.jobs[j].Active()
  }

  ghost function Handle(cfg: SchedulerConfig, w: World, e: Event): World
    requires Possible(w, e)
  {
    match e.message
    case InvokeScheduling => Schedule(cfg, w, e.at)
    case JobSubmit(v) =>
      var t := w.(sys := w.sys.Submit(v), clock := e.at);
      if cfg.onJobSubmit then Schedule(cfg, t, e.at) else t
    case SchedulingPointReached(j) =>
      if cfg.onSchedulingPoint then Schedule(cfg, w, e.at, j)
      else
        var t := w.(sys := w.sys.SchedulingPoint(j, e.at), clock := e.at);
        if cfg.onReconfiguration && w.sys.jobs[j].state.PendingReconfiguration? then Schedule(cfg, t, e.at) else t
    case WorkloadProcessed(j) =>
      var t := w.(sys := w.sys.ProcessedWorkload(j, e.at), clock := e.at);
      if cfg.onJobFinalize then Schedule(cfg, t, e.at) else t
    case ApplicationRuns(j) => w.(sys := w.sys.ApplicationRunning(j, e.at), clock := e.at)
  }

  ghost predicate PossibleRun(cfg: SchedulerConfig, w: World, events: seq<Event>)
    decreases |events|
  {
    events == [] || (Possible(w, events[0]) && PossibleRun(cfg, Handle(cfg, w, events[0]), events[1..]))
  }

  ghost function Run(cfg: SchedulerConfig, w: World, events: seq<Event>): World
    requires PossibleRun(cfg, w, events)
    decreases |events|
  {
    if events == [] then w else Run(cfg, Handle(cfg, w, events[0]), events[1..])
  }

  function NewNodes(n: nat): (r: seq<NodeView>)
    ensures |r| == n && forall i :: 0 <= i < n ==> r[i] == NEW_NODE
  {
    seq(n, _ => NEW_NODE)
  }

  /** The world when the simulation starts. */
  function NewWorld(nodeCount: nat): World {
    World(Sys(NewNodes(nodeCount), []), NO_POLICY_STATE, NO_AGREEMENTS, 0.0, 0.0)
  }
}
