/** The shutdown policy as values: which nodes are targeted, how a node moves through the power
    states, which nodes accept a job, and how malleable jobs make room before a window. */
module ShutdownPolicy {
  import opened Sequences
  import opened ShutdownCalendar
  import opened ClusterState
  import opened RuntimePrediction

  datatype DrainingStrategy = Simple | FlexCorePool | OtherStrategy

  datatype ShrinkPriority = ByMin | ByPref | ByAverage

  datatype PolicyConfig = PolicyConfig(
    loaded: bool, windows: seq<ShutdownWindow>, strategy: DrainingStrategy, corePoolFraction: real,
    drainLeadTime: int, bootSeconds: int, downSeconds: int, maxDrainDuration: int,
    forceClearOnWindowEnd: bool, jobAcceptanceMargin: int,
    useTimeWindow: bool, windowStart: int, windowEnd: int,
    malleableShrinkToTarget: bool, malleableShrinkLeadTime: int, shrinkPriority: ShrinkPriority,
    shutdownTargetPool: bool)
  {
    /** What loading a policy file enforces. */
    ghost predicate Valid() {
      loaded ==>
        && windows != [] && (forall k :: 0 <= k < |windows| ==> windows[k].Valid())
        && drainLeadTime >= 0 && bootSeconds >= 0 && downSeconds >= 0 && maxDrainDuration >= 0
        && (strategy.FlexCorePool? ==> 0.0 < corePoolFraction < 1.0)
    }

    predicate IsActiveAt(now: real) {
      !useTimeWindow || windowStart as real <= now <= windowEnd as real
    }

    predicate InAnyWindow(now: real)
      requires now >= 0.0
    {
      exists k :: 0 <= k < |windows| && windows[k].IsInWindow(now)
    }

    predicate InAnyDrainLeadTime(now: real)
      requires now >= 0.0
    {
      exists k :: 0 <= k < |windows| && windows[k].IsInDrainLeadTime(now, drainLeadTime)
    }
  }

  /** The mutable maps and indices of the policy manager. */
  datatype PolicyState = PolicyState(inCorePool: map<int, bool>, drainStart: map<int, real>,
                                     targeted: map<int, bool>, activeWindow: int, poolWindow: int)
  {
    predicate IsTargeted(i: int) {
      i in targeted && targeted[i]
    }

    predicate IsCore(i: int) {
      i in inCorePool && inCorePool[i]
    }
  }

  const NO_POLICY_STATE := PolicyState(map[], map[], map[], -1, -1)

  /** Reading a missing key with `operator[]` inserts it as false. */
  function Touch(m: map<int, bool>, i: int): map<int, bool> {
    if i in m then m else m[i := false]
  }

  // ---- Admission -------------------------------------------------------------------------

  predicate CanNodeAcceptJob(cfg: PolicyConfig, st: PolicyState, state: NodeState, i: int,
                             predictedRuntime: real, now: real, ignoreTargetPool: bool)
    requires now >= 0.0
  {
    if !cfg.loaded || !cfg.IsActiveAt(now) then true
    else if state.NodeOff? || state.NodeShuttingDown? || state.NodeBooting? then false
    else if cfg.strategy.FlexCorePool? && st.IsCore(i) then true
    else
      var jobEnd := now + predictedRuntime;
      && (cfg.shutdownTargetPool && st.IsTargeted(i) && !ignoreTargetPool ==>
            && !cfg.InAnyWindow(now)
            && forall k :: 0 <= k < |cfg.windows| ==> jobEnd <= cfg.windows[k].GetNextShutdownTime(now) as real)
      && (state.NodeDraining? || st.IsTargeted(i) ==>
            forall k :: 0 <= k < |cfg.windows| ==>
              jobEnd <= (cfg.windows[k].GetNextShutdownTime(now) + cfg.jobAcceptanceMargin) as real)
      && forall k :: 0 <= k < |cfg.windows| && cfg.windows[k].IsInDrainLeadTime(now, cfg.drainLeadTime) ==>
            jobEnd + cfg.jobAcceptanceMargin as real <= cfg.windows[k].GetNextShutdownTime(now) as real
  }

  /** A shorter job is accepted wherever a longer one is. */
  lemma AcceptanceAntitoneInRuntime(cfg: PolicyConfig, st: PolicyState, state: NodeState, i: int,
                                    shorter: real, longer: real, now: real, ignoreTargetPool: bool)
    requires now >= 0.0 && shorter <= longer
    ensures CanNodeAcceptJob(cfg, st, state, i, longer, now, ignoreTargetPool)
        ==> CanNodeAcceptJob(cfg, st, state, i, shorter, now, ignoreTargetPool)
  {
  }

  /** The window is off at every instant of the half-open interval. */
  ghost predicate Avoids(w: ShutdownWindow, from: real, to: real)
    requires from >= 0.0
  {
    forall t: real :: from <= t < to ==> !w.IsInWindow(t)
  }

  ghost predicate AvoidsAll(cfg: PolicyConfig, from: real, to: real)
    requires from >= 0.0
  {
    forall k :: 0 <= k < |cfg.windows| ==> Avoids(cfg.windows[k], from, to)
  }

  /** An interval that starts outside the window avoids it exactly when it ends by the next start. */
  lemma AvoidsUpToNextStart(w: ShutdownWindow, from: real, to: real)
    requires w.Valid() && 0.0 <= from < to
    ensures Avoids(w, from, to) <==> !w.IsInWindow(from) && to <= w.GetNextShutdownTime(from) as real
  {
    var next := w.GetNextShutdownTime(from);
    NextShutdownIsLeastLaterStart(w, from);
    InWindowAtStart(w, from);
    if !w.IsInWindow(from) && to <= next as real {
      forall t: real | from <= t < to ensures !w.IsInWindow(t) {
        WindowEnteredOnlyAtStart(w, from, t);
      }
    }
  }

  /** Admission is sound against the calendar: with the target pool on and not ignored, a job
      accepted on a targeted node runs, as predicted, in no shutdown window. */
  lemma AdmissionIsSound(cfg: PolicyConfig, st: PolicyState, state: NodeState, i: int, predictedRuntime: real, now: real)
    requires cfg.loaded && cfg.Valid() && cfg.IsActiveAt(now) && now >= 0.0
    requires cfg.shutdownTargetPool && st.IsTargeted(i) && !(cfg.strategy.FlexCorePool? && st.IsCore(i))
    requires CanNodeAcceptJob(cfg, st, state, i, predictedRuntime, now, false)
    ensures AvoidsAll(cfg, now, now + predictedRuntime)
  {
    if predictedRuntime > 0.0 {
      forall k | 0 <= k < |cfg.windows| ensures Avoids(cfg.windows[k], now, now + predictedRuntime) {
        AvoidsUpToNextStart(cfg.windows[k], now, now + predictedRuntime);
      }
    }
  }

  /** Without an acceptance margin the decision is exact: a powered targeted node accepts a job
      if and only if the job's predicted interval avoids every window. */
  lemma AdmissionIsExact(cfg: PolicyConfig, st: PolicyState, state: NodeState, i: int, predictedRuntime: real, now: real)
    requires cfg.loaded && cfg.Valid() && cfg.IsActiveAt(now) && now >= 0.0 && predictedRuntime > 0.0
    requires cfg.shutdownTargetPool && st.IsTargeted(i) && !(cfg.strategy.FlexCorePool? && st.IsCore(i))
    requires cfg.jobAcceptanceMargin == 0 && !state.NodeOff? && !state.NodeShuttingDown? && !state.NodeBooting?
    ensures CanNodeAcceptJob(cfg, st, state, i, predictedRuntime, now, false)
       <==> AvoidsAll(cfg, now, now + predictedRuntime)
  {
    forall k | 0 <= k < |cfg.windows|
      ensures Avoids(cfg.windows[k], now, now + predictedRuntime)
         <==> !cfg.windows[k].IsInWindow(now) && now + predictedRuntime <= cfg.windows[k].GetNextShutdownTime(now) as real
    {
      AvoidsUpToNextStart(cfg.windows[k], now, now + predictedRuntime);
    }
  }

  /** A powered node outside the targets and the core accepts a job exactly if, with the margin, it
      ends before every start that is at most the lead time away. */
  lemma UntargetedAdmissionIsExact(cfg: PolicyConfig, st: PolicyState, state: NodeState, i: int, predictedRuntime: real, now: real, ignoreTargetPool: bool)
    requires cfg.loaded && cfg.Valid() && cfg.IsActiveAt(now) && now >= 0.0 && cfg.drainLeadTime <= SECONDS_IN_DAY
    requires (state.NodeFree? || state.NodeAllocated? || state.NodeReserved?) && !st.IsTargeted(i) && !(cfg.strategy.FlexCorePool? && st.IsCore(i))
    ensures CanNodeAcceptJob(cfg, st, state, i, predictedRuntime, now, ignoreTargetPool)
       <==> forall k :: 0 <= k < |cfg.windows| && cfg.windows[k].GetNextShutdownTime(now) <= now.Floor + cfg.drainLeadTime ==>
              now + predictedRuntime + cfg.jobAcceptanceMargin as real <= cfg.windows[k].GetNextShutdownTime(now) as real
  {
    forall k | 0 <= k < |cfg.windows|
      ensures cfg.windows[k].IsInDrainLeadTime(now, cfg.drainLeadTime) <==> cfg.windows[k].GetNextShutdownTime(now) <= now.Floor + cfg.drainLeadTime
    {
      DrainLeadTimeAt(cfg.windows[k], now, cfg.drainLeadTime);
    }
    hide ShutdownWindow.IsInWindow;
    hide ShutdownWindow.IsInDrainLeadTime;
    hide ShutdownWindow.GetNextShutdownTime;
  }

  // ---- Expansion asks with the target pool ignored ------------------------------------------

  /** Every job that the node accepts now with the pool ignored runs, as predicted, in no window. */
  ghost predicate SoundIgnoringPool(cfg: PolicyConfig, st: PolicyState, state: NodeState, i: int, now: real)
    requires now >= 0.0
  {
    forall rt: real :: rt > 0.0 && CanNodeAcceptJob(cfg, st, state, i, rt, now, true) ==> AvoidsAll(cfg, now, now + rt)
  }

  /** The latest end of a job that window `k` then allows on a targeted node. */
  function Deadline(cfg: PolicyConfig, now: real, k: nat): real
    requires now >= 0.0 && k < |cfg.windows|
  {
    var next, margin := cfg.windows[k].GetNextShutdownTime(now) as real, cfg.jobAcceptanceMargin as real;
    if cfg.windows[k].IsInDrainLeadTime(now, cfg.drainLeadTime) && margin > 0.0 then next - margin else next + margin
  }

  /** No job, however short, meets every deadline. */
  predicate NothingFits(cfg: PolicyConfig, now: real)
    requires now >= 0.0
  {
    exists k :: 0 <= k < |cfg.windows| && Deadline(cfg, now, k) <= now
  }

  /** Within its lead time, the start of window `k` less the margin comes before every start. */
  predicate IsEarly(cfg: PolicyConfig, now: real, k: nat)
    requires now >= 0.0 && k < |cfg.windows|
  {
    && cfg.windows[k].IsInDrainLeadTime(now, cfg.drainLeadTime)
    && forall m :: 0 <= m < |cfg.windows| ==> cfg.windows[k].GetNextShutdownTime(now) - cfg.jobAcceptanceMargin <= cfg.windows[m].GetNextShutdownTime(now)
  }

  /** The margin lets no job run past the next start. */
  predicate MarginIsSafe(cfg: PolicyConfig, now: real)
    requires now >= 0.0
  {
    cfg.jobAcceptanceMargin <= 0 || exists k :: 0 <= k < |cfg.windows| && IsEarly(cfg, now, k)
  }

  /** A node on which the deadlines bind: powered, targeted, and not in the core pool. */
  predicate IsBound(cfg: PolicyConfig, st: PolicyState, state: NodeState, i: int) {
    && !state.NodeOff? && !state.NodeShuttingDown? && !state.NodeBooting?
    && st.IsTargeted(i) && !(cfg.strategy.FlexCorePool? && st.IsCore(i))
  }

  lemma AcceptedByDeadlines(cfg: PolicyConfig, st: PolicyState, state: NodeState, i: int, predictedRuntime: real, now: real)
    requires now >= 0.0 && cfg.loaded && cfg.IsActiveAt(now) && IsBound(cfg, st, state, i)
    ensures CanNodeAcceptJob(cfg, st, state, i, predictedRuntime, now, true)
       <==> forall k :: 0 <= k < |cfg.windows| ==> now + predictedRuntime <= Deadline(cfg, now, k)
  {
    hide ShutdownWindow.IsInWindow;
    hide ShutdownWindow.IsInDrainLeadTime;
    hide ShutdownWindow.GetNextShutdownTime;
    var end, margin := now + predictedRuntime, cfg.jobAcceptanceMargin as real;
    forall k | 0 <= k < |cfg.windows|
      ensures end <= Deadline(cfg, now, k)
         <==> end <= (cfg.windows[k].GetNextShutdownTime(now) + cfg.jobAcceptanceMargin) as real
              && (cfg.windows[k].IsInDrainLeadTime(now, cfg.drainLeadTime) ==> end + margin <= cfg.windows[k].GetNextShutdownTime(now) as real)
    {
    }
  }

  lemma {:induction false} EarliestDeadline(cfg: PolicyConfig, now: real, n: nat) returns (k: nat)
    requires now >= 0.0 && 0 < n <= |cfg.windows|
    ensures k < n && forall m :: 0 <= m < n ==> Deadline(cfg, now, k) <= Deadline(cfg, now, m)
  {
    hide Deadline;
    k := n - 1;
    if n > 1 {
      var best := EarliestDeadline(cfg, now, n - 1);
      if Deadline(cfg, now, best) < Deadline(cfg, now, k) { k := best; }
    }
  }

  /** Ignoring the target pool, as expansion does, gives up soundness in general. It is kept
      exactly if no job fits at all, or no window is open and the margin is safe. */
  lemma IgnoringThePoolIsSoundExactlyIf(cfg: PolicyConfig, st: PolicyState, state: NodeState, i: int, now: real)
    requires now >= 0.0 && cfg.loaded && cfg.Valid() && cfg.IsActiveAt(now) && IsBound(cfg, st, state, i)
    ensures SoundIgnoringPool(cfg, st, state, i, now)
       <==> NothingFits(cfg, now) || (!cfg.InAnyWindow(now) && MarginIsSafe(cfg, now))
  {
    hide CanNodeAcceptJob;
    hide ShutdownWindow.IsInWindow;
    hide ShutdownWindow.IsInDrainLeadTime;
    hide ShutdownWindow.GetNextShutdownTime;
    hide Avoids;
    if !NothingFits(cfg, now) {
      var k := EarliestDeadline(cfg, now, |cfg.windows|);
      var longest := Deadline(cfg, now, k) - now;
      AcceptedByDeadlines(cfg, st, state, i, longest, now);
      if SoundIgnoringPool(cfg, st, state, i, now) {
        assert AvoidsAll(cfg, now, now + longest);
        LongestFitIsSafe(cfg, now, k);
      }
    }
    if NothingFits(cfg, now) || (!cfg.InAnyWindow(now) && MarginIsSafe(cfg, now)) {
      forall rt: real | rt > 0.0 && CanNodeAcceptJob(cfg, st, state, i, rt, now, true) ensures AvoidsAll(cfg, now, now + rt) {
        AcceptedByDeadlines(cfg, st, state, i, rt, now);
        FitsAreSafe(cfg, now, now + rt);
      }
    }
  }

  /** If the longest job that fits avoids every window, then none is open and the margin is safe. */
  lemma LongestFitIsSafe(cfg: PolicyConfig, now: real, k: nat)
    requires now >= 0.0 && cfg.loaded && cfg.Valid() && k < |cfg.windows| && Deadline(cfg, now, k) > now
    requires forall m :: 0 <= m < |cfg.windows| ==> Deadline(cfg, now, k) <= Deadline(cfg, now, m)
    requires AvoidsAll(cfg, now, Deadline(cfg, now, k))
    ensures !cfg.InAnyWindow(now) && MarginIsSafe(cfg, now)
  {
    hide ShutdownWindow.IsInWindow;
    hide ShutdownWindow.IsInDrainLeadTime;
    hide ShutdownWindow.GetNextShutdownTime;
    hide Avoids;
    forall m | 0 <= m < |cfg.windows|
      ensures !cfg.windows[m].IsInWindow(now) && Deadline(cfg, now, k) <= cfg.windows[m].GetNextShutdownTime(now) as real
    {
      AvoidsUpToNextStart(cfg.windows[m], now, Deadline(cfg, now, k));
    }
    if cfg.jobAcceptanceMargin > 0 { assert IsEarly(cfg, now, k); }
  }

  /** A job that meets the deadlines avoids every window if none is open and the margin is safe. */
  lemma FitsAreSafe(cfg: PolicyConfig, now: real, end: real)
    requires now >= 0.0 && cfg.loaded && cfg.Valid() && now < end
    requires forall k :: 0 <= k < |cfg.windows| ==> end <= Deadline(cfg, now, k)
    requires NothingFits(cfg, now) || (!cfg.InAnyWindow(now) && MarginIsSafe(cfg, now))
    ensures AvoidsAll(cfg, now, end)
  {
    hide ShutdownWindow.IsInWindow;
    hide ShutdownWindow.IsInDrainLeadTime;
    hide ShutdownWindow.GetNextShutdownTime;
    hide Avoids;
    assert !NothingFits(cfg, now);
    forall m | 0 <= m < |cfg.windows| ensures Avoids(cfg.windows[m], now, end) {
      assert end <= Deadline(cfg, now, m);
      if cfg.jobAcceptanceMargin > 0 {
        var k :| 0 <= k < |cfg.windows| && IsEarly(cfg, now, k);
        assert end <= Deadline(cfg, now, k);
      }
      AvoidsUpToNextStart(cfg.windows[m], now, end);
    }
  }

  /** In particular, without a positive margin an accepted job meets a window exactly if one is
      open at this very moment. */
  lemma IgnoringThePoolMeetsOpenWindowsOnly(cfg: PolicyConfig, st: PolicyState, state: NodeState, i: int, predictedRuntime: real, now: real)
    requires now >= 0.0 && cfg.loaded && cfg.Valid() && cfg.IsActiveAt(now) && IsBound(cfg, st, state, i)
    requires cfg.jobAcceptanceMargin <= 0 && predictedRuntime > 0.0
    requires CanNodeAcceptJob(cfg, st, state, i, predictedRuntime, now, true)
    ensures AvoidsAll(cfg, now, now + predictedRuntime) <==> !cfg.InAnyWindow(now)
  {
    forall k | 0 <= k < |cfg.windows| ensures Avoids(cfg.windows[k], now, now + predictedRuntime) <==> !cfg.windows[k].IsInWindow(now) {
      AvoidsUpToNextStart(cfg.windows[k], now, now + predictedRuntime);
    }
  }

  // ---- Targets ---------------------------------------------------------------------------

  function TargetCount(nodeCount: nat, fraction: real): int {
    (nodeCount as real * (1.0 - fraction)).Floor
  }

  /** Flags for all nodes in list order, true for the first `count` of them. */
  function PrefixFlags(nodeCount: nat, count: int): (m: map<int, bool>)
    ensures forall i :: i in m <==> 0 <= i < nodeCount
    ensures forall i :: i in m ==> m[i] == (i < count)
  {
    if nodeCount == 0 then map[] else PrefixFlags(nodeCount - 1, count)[nodeCount - 1 := nodeCount - 1 < count]
  }

  function TargetsFor(nodeCount: nat, fraction: real): map<int, bool> {
    PrefixFlags(nodeCount, TargetCount(nodeCount, fraction))
  }

  function CorePoolSize(nodeCount: nat, fraction: real): int {
    (nodeCount as real * fraction).Floor
  }

  function AssignNodePools(cfg: PolicyConfig, st: PolicyState, nodeCount: nat): PolicyState {
    st.(inCorePool := st.inCorePool + PrefixFlags(nodeCount, CorePoolSize(nodeCount, cfg.corePoolFraction)))
  }

  /** The first window from index `k` on that satisfies the drain or the activity test, or -1. */
  function ActiveWindowFrom(cfg: PolicyConfig, now: real, k: nat): int
    requires now >= 0.0 && k <= |cfg.windows|
    decreases |cfg.windows| - k
  {
    if k == |cfg.windows| then -1
    else if cfg.windows[k].IsInDrainLeadTime(now, cfg.drainLeadTime) || cfg.windows[k].IsInWindow(now) then k
    else ActiveWindowFrom(cfg, now, k + 1)
  }

  /** The first window from index `k` on that is in its drain lead time, or -1. */
  function DrainingWindowFrom(cfg: PolicyConfig, now: real, k: nat): (w: int)
    requires now >= 0.0 && k <= |cfg.windows|
    ensures w == -1 || k <= w < |cfg.windows|
    decreases |cfg.windows| - k
  {
    if k == |cfg.windows| then -1
    else if cfg.windows[k].IsInDrainLeadTime(now, cfg.drainLeadTime) then k
    else DrainingWindowFrom(cfg, now, k + 1)
  }

  /** The first window among the first `k` whose next start is earliest, or -1. */
  function NextWindowUpTo(cfg: PolicyConfig, now: real, k: nat): (w: int)
    requires now >= 0.0 && k <= |cfg.windows|
    ensures w == -1 <==> k == 0
    ensures w == -1 || 0 <= w < k
  {
    if k == 0 then -1
    else
      var best := NextWindowUpTo(cfg, now, k - 1);
      if best == -1 || cfg.windows[k - 1].GetNextShutdownTime(now) < cfg.windows[best].GetNextShutdownTime(now) then k - 1
      else best
  }

  function AssignShutdownTargets(cfg: PolicyConfig, st: PolicyState, nodeCount: nat, now: real): PolicyState
    requires now >= 0.0
  {
    var w := DrainingWindowFrom(cfg, now, 0);
    if w == -1 || cfg.windows[w].targetFraction < 0.0 then st
    else st.(targeted := TargetsFor(nodeCount, cfg.windows[w].targetFraction))
  }

  /** With the simple strategy, targets are reassigned when another window comes into reach. */
  function RetargetOnTransition(cfg: PolicyConfig, st: PolicyState, nodeCount: nat, now: real): PolicyState
    requires now >= 0.0
  {
    var current := ActiveWindowFrom(cfg, now, 0);
    if cfg.strategy.Simple? && current != st.activeWindow then
      var moved := st.(activeWindow := current);
      if current >= 0 then AssignShutdownTargets(cfg, moved, nodeCount, now) else moved
    else st
  }

  /** The target pool follows the window that starts next. */
  function RetargetPool(cfg: PolicyConfig, st: PolicyState, nodeCount: nat, now: real): PolicyState
    requires now >= 0.0
  {
    var next := NextWindowUpTo(cfg, now, |cfg.windows|);
    if cfg.shutdownTargetPool && next >= 0 && (next != st.poolWindow || st.targeted == map[]) then
      st.(targeted := TargetsFor(nodeCount, cfg.windows[next].targetFraction), poolWindow := next)
    else st
  }

  /** Everything `update` does to the manager's own maps before it walks over the nodes. */
  function Retarget(cfg: PolicyConfig, st: PolicyState, nodeCount: nat, now: real): PolicyState
    requires now >= 0.0
  {
    var pooled := if st.inCorePool == map[] && cfg.strategy.FlexCorePool? then AssignNodePools(cfg, st, nodeCount) else st;
    RetargetPool(cfg, RetargetOnTransition(cfg, pooled, nodeCount, now), nodeCount, now)
  }

  // ---- Node states -----------------------------------------------------------------------

  predicate ShouldDrainNode(cfg: PolicyConfig, st: PolicyState, v: NodeView, i: int, now: real)
    requires now >= 0.0
  {
    && cfg.InAnyDrainLeadTime(now) && v.IsIdle()
    && match cfg.strategy
       case FlexCorePool => !st.IsCore(i)
       case Simple => st.IsTargeted(i)
       case OtherStrategy => false
  }

  predicate ShouldBootNode(cfg: PolicyConfig, now: real)
    requires now >= 0.0
  {
    exists k :: 0 <= k < |cfg.windows|
      && !cfg.windows[k].IsInWindow(now) && !cfg.windows[k].IsInDrainLeadTime(now, cfg.drainLeadTime)
  }

  function ShutDownNode(cfg: PolicyConfig, v: NodeView, now: real): NodeView {
    v.(state := NodeShuttingDown).ScheduleTransition(NodeOff, cfg.downSeconds, now)
  }

  /** One node's turn in `updateNodeStates`. */
  function StepNode(cfg: PolicyConfig, st: PolicyState, v: NodeView, i: int, now: real): (r: (PolicyState, NodeView))
    requires now >= 0.0
  {
    match v.state
    case NodeFree | NodeAllocated | NodeReserved =>
      var touched := if v.IsIdle() then st.(targeted := Touch(st.targeted, i)) else st;
      if v.IsIdle() && st.IsTargeted(i) && cfg.InAnyWindow(now) then
        (touched, ShutDownNode(cfg, v, now))
      else
        var asked := if cfg.InAnyDrainLeadTime(now) && v.IsIdle() && cfg.strategy.FlexCorePool?
                     then touched.(inCorePool := Touch(touched.inCorePool, i)) else touched;
        if ShouldDrainNode(cfg, st, v, i, now) then
          (asked.(drainStart := asked.drainStart[i := now]), v.(state := NodeDraining))
        else (asked, v)
    case NodeDraining =>
      if i in st.drainStart && now - st.drainStart[i] >= cfg.maxDrainDuration as real then
        (st.(drainStart := st.drainStart - {i}), v.(state := NodeFree))
      else if v.IsIdle() && cfg.InAnyWindow(now) then
        (st, ShutDownNode(cfg, v, now))
      else if cfg.forceClearOnWindowEnd && !cfg.InAnyWindow(now) && !cfg.InAnyDrainLeadTime(now) then
        (st.(drainStart := st.drainStart - {i}), v.(state := NodeFree))
      else (st, v)
    case NodeOff =>
      if ShouldBootNode(cfg, now) then
        (st, v.(state := NodeBooting).ScheduleTransition(NodeFree, cfg.bootSeconds, now))
      else (st, v)
    case NodeShuttingDown => (st, v)
    case NodeBooting => (st, v)
  }

  /** `updateNodeStates` for the first `k` nodes. */
  function UpdateNodesUpTo(cfg: PolicyConfig, st: PolicyState, nodes: seq<NodeView>, now: real, k: nat): (r: (PolicyState, seq<NodeView>))
    requires now >= 0.0 && k <= |nodes|
    ensures |r.1| == |nodes|
    ensures forall i :: k <= i < |nodes| ==> r.1[i] == nodes[i]
  {
    if k == 0 then (st, nodes)
    else
      var (st1, nodes1) := UpdateNodesUpTo(cfg, st, nodes, now, k - 1);
      var (st2, v) := StepNode(cfg, st1, nodes1[k - 1], k - 1, now);
      (st2, nodes1[k - 1 := v])
  }

  function UpdateNodeStates(cfg: PolicyConfig, st: PolicyState, nodes: seq<NodeView>, now: real): (r: (PolicyState, seq<NodeView>))
    requires now >= 0.0
    ensures |r.1| == |nodes|
  {
    UpdateNodesUpTo(cfg, st, nodes, now, |nodes|)
  }

  function Update(cfg: PolicyConfig, st: PolicyState, nodes: seq<NodeView>, now: real): (r: (PolicyState, seq<NodeView>))
    requires now >= 0.0
    ensures |r.1| == |nodes|
  {
    if !cfg.loaded || !cfg.IsActiveAt(now) then (st, nodes)
    else UpdateNodeStates(cfg, Retarget(cfg, st, |nodes|, now), nodes, now)
  }

  // ---- Malleable jobs make room ----------------------------------------------------------

  /** The first window from index `k` on that is active or close enough, or -1. */
  function ShrinkWindowFrom(cfg: PolicyConfig, now: real, k: nat): (w: int)
    requires now >= 0.0 && k <= |cfg.windows|
    ensures w == -1 || k <= w < |cfg.windows|
    decreases |cfg.windows| - k
  {
    if k == |cfg.windows| then -1
    else
      var next := cfg.windows[k].GetNextShutdownTime(now) as real;
      if cfg.windows[k].IsInWindow(now) then k
      else if cfg.malleableShrinkLeadTime > 0 && next - cfg.malleableShrinkLeadTime as real <= now < next then k
      else ShrinkWindowFrom(cfg, now, k + 1)
  }

  function PolicyShrinkPriority(cfg: PolicyConfig, v: JobView): real {
    match cfg.shrinkPriority
    case ByPref => (|v.assignedNodes| - v.nodesPref) as real
    case ByAverage =>
      if v.nodesMax - v.nodesMin <= 0 then 0.0
      else (|v.assignedNodes| - v.nodesMin) as real / (v.nodesMax - v.nodesMin) as real
    case ByMin => (|v.assignedNodes| - v.nodesMin) as real
  }

  predicate IsRunningMalleable(v: JobView) {
    v.state.Running? && v.kind.Malleable?
  }

  /** The running malleable jobs in queue order. */
  function RunningMalleable(jobs: seq<JobView>): (r: seq<int>)
    ensures Distinct(r)
    ensures forall j :: j in r <==> 0 <= j < |jobs| && IsRunningMalleable(jobs[j])
  {
    var p := j => 0 <= j < |jobs| && IsRunningMalleable(jobs[j]);
    FilterDistinct(p, Range(|jobs|));
    Filter(p, Range(|jobs|))
  }

  /** The targeted nodes among those a job holds beyond its minimum. */
  function TargetedSurplus(st: PolicyState, v: JobView): seq<int> {
    if 0 <= v.nodesMin < |v.assignedNodes| then Filter(n => st.IsTargeted(n), v.assignedNodes[v.nodesMin..]) else []
  }

  function ShrinkTargeted(st: PolicyState, s: Sys, order: seq<int>): (t: Sys)
    requires forall j :: j in order ==> 0 <= j < |s.jobs|
    ensures |t.jobs| == |s.jobs| && |t.nodes| == |s.nodes|
    decreases |order|
  {
    if order == [] then s
    else
      assert order[0] in order;
      assert forall j :: j in order[1..] ==> j in order;
      var ns := TargetedSurplus(st, s.jobs[order[0]]);
      ShrinkTargeted(st, if ns == [] then s else s.ShrinkBy(order[0], ns), order[1..])
  }

  predicate ShrinksAny(st: PolicyState, s: Sys, order: seq<int>)
    requires forall j :: j in order ==> 0 <= j < |s.jobs|
  {
    exists j :: j in order && TargetedSurplus(st, s.jobs[j]) != []
  }

  function ShrinkOrder(cfg: PolicyConfig, s: Sys): (r: seq<int>)
    ensures Distinct(r) && forall j :: j in r <==> 0 <= j < |s.jobs| && IsRunningMalleable(s.jobs[j])
  {
    var jobs := RunningMalleable(s.jobs);
    var key := j => if 0 <= j < |s.jobs| then -PolicyShrinkPriority(cfg, s.jobs[j]) else 0.0;
    StableSortMembers(jobs, key);
    StableSort(jobs, key)
  }

  function ApplyMalleablePolicy(cfg: PolicyConfig, st: PolicyState, s: Sys, now: real): (r: (PolicyState, Sys))
    requires now >= 0.0
    ensures |r.1.nodes| == |s.nodes| && |r.1.jobs| == |s.jobs|
  {
    var w := if cfg.loaded && cfg.malleableShrinkToTarget && cfg.IsActiveAt(now) then ShrinkWindowFrom(cfg, now, 0) else -1;
    if w == -1 then (st, s)
    else
      var st1 := if st.targeted == map[] then st.(targeted := TargetsFor(|s.nodes|, cfg.windows[w].targetFraction)) else st;
      if st1.targeted == map[] then (st1, s)
      else
        var order := ShrinkOrder(cfg, s);
        var t := ShrinkTargeted(st1, s, order);
        if ShrinksAny(st1, s, order) && cfg.windows[w].IsInWindow(now) then
          var (st2, nodes) := UpdateNodeStates(cfg, st1, t.nodes, now);
          (st2, t.(nodes := nodes))
        else (st1, t)
  }
}
