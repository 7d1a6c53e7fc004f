/** The shutdown policy manager as a mutable object: its maps and indices, the state machine that
    walks over the nodes, admission, and shrinking of malleable jobs before a window. */
module ShutdownManagers {
  import opened Sequences
  import opened ShutdownCalendar
  import opened ClusterState
  import opened ShutdownPolicy
  import opened ClusterObjects
  import opened Cluster
  import opened PowerSafety

  lemma PoolStep(before: map<int, bool>, i: nat, core: int)
    ensures before + PrefixFlags(i + 1, core) == (before + PrefixFlags(i, core))[i := i < core]
    ensures before + PrefixFlags(0, core) == before
  {
  }

  lemma UpdateBegins(cfg: PolicyConfig, st: PolicyState, views: seq<NodeView>, now: real)
    requires now >= 0.0
    ensures UpdateNodesUpTo(cfg, st, views, now, 0) == (st, views)
  {
  }

  lemma UpdateSteps(cfg: PolicyConfig, st: PolicyState, views: seq<NodeView>, now: real, k: nat)
    requires now >= 0.0 && k < |views|
    ensures var (st1, views1) := UpdateNodesUpTo(cfg, st, views, now, k); var (st2, v) := StepNode(cfg, st1, views1[k], k, now);
      UpdateNodesUpTo(cfg, st, views, now, k + 1) == (st2, views1[k := v])
  {
  }

  class ShutdownPolicyManager {
    const cfg: PolicyConfig
    var isNodeInCorePool: map<int, bool>
    var nodeDrainStartTime: map<int, real>
    var nodeTargetedForShutdown: map<int, bool>
    var currentActiveWindowIndex: int
    var currentPoolWindowIndex: int

    constructor (cfg: PolicyConfig)
      ensures this.cfg == cfg && View() == NO_POLICY_STATE
    {
      this.cfg := cfg;
      isNodeInCorePool, nodeDrainStartTime, nodeTargetedForShutdown := map[], map[], map[];
      currentActiveWindowIndex, currentPoolWindowIndex := -1, -1;
    }

    function View(): PolicyState
      reads this
    {
      PolicyState(isNodeInCorePool, nodeDrainStartTime, nodeTargetedForShutdown, currentActiveWindowIndex, currentPoolWindowIndex)
    }

    method InAnyWindow(now: real) returns (inside: bool)
      requires now >= 0.0
      ensures inside == cfg.InAnyWindow(now)
    {
      inside := false;
      for k := 0 to |cfg.windows|
        invariant !inside && forall i :: 0 <= i < k ==> !cfg.windows[i].IsInWindow(now)
      {
        if cfg.windows[k].IsInWindow(now) {
          return true;
        }
      }
    }

    method InAnyDrainLeadTime(now: real) returns (inside: bool)
      requires now >= 0.0
      ensures inside == cfg.InAnyDrainLeadTime(now)
    {
      inside := false;
      for k := 0 to |cfg.windows|
        invariant !inside && forall i :: 0 <= i < k ==> !cfg.windows[i].IsInDrainLeadTime(now, cfg.drainLeadTime)
      {
        if cfg.windows[k].IsInDrainLeadTime(now, cfg.drainLeadTime) {
          return true;
        }
      }
    }

    /** The core-pool flag of the node is there if admission is going to read it. */
    predicate HasFlag(i: int, now: real)
      reads this
    {
      cfg.loaded && cfg.IsActiveAt(now) && cfg.strategy.FlexCorePool? ==> i in isNodeInCorePool
    }

    /** Whether a node accepts a job of the given predicted runtime. Asking about the core pool
        inserts a missing node into the map; if none is missing, nothing changes. */
    method CanNodeAcceptJob(state: NodeState, i: int, predictedRuntime: real, now: real, ignoreTargetPool: bool) returns (accepts: bool)
      requires now >= 0.0
      modifies if HasFlag(i, now) then {} else {this}
      ensures accepts == ShutdownPolicy.CanNodeAcceptJob(cfg, old(View()), state, i, predictedRuntime, now, ignoreTargetPool)
      ensures View() == old(View()) || View() == old(View()).(inCorePool := Touch(old(isNodeInCorePool), i))
    {
      hide ShutdownWindow.IsInWindow;
      hide ShutdownWindow.IsInDrainLeadTime;
      hide ShutdownWindow.GetNextShutdownTime;
      hide PolicyConfig.InAnyWindow;
      hide PolicyConfig.IsActiveAt;
      if !cfg.loaded {
        return true;
      }
      if !cfg.IsActiveAt(now) {
        return true;
      }
      if state.NodeOff? || state.NodeShuttingDown? || state.NodeBooting? {
        return false;
      }
      if cfg.strategy.FlexCorePool? {
        if i !in isNodeInCorePool {
          isNodeInCorePool := isNodeInCorePool[i := false];
        }
        if isNodeInCorePool[i] {
          return true;
        }
      }
      accepts := MeetsDeadlines(state, i, now + predictedRuntime, now, ignoreTargetPool);
    }

    /** The job's predicted end against the starts of the windows. */
    method MeetsDeadlines(state: NodeState, i: int, jobEnd: real, now: real, ignoreTargetPool: bool) returns (meets: bool)
      requires now >= 0.0
      ensures meets <==>
        && (cfg.shutdownTargetPool && View().IsTargeted(i) && !ignoreTargetPool ==>
              !cfg.InAnyWindow(now) && forall k :: 0 <= k < |cfg.windows| ==> jobEnd <= cfg.windows[k].GetNextShutdownTime(now) as real)
        && (state.NodeDraining? || View().IsTargeted(i) ==>
              forall k :: 0 <= k < |cfg.windows| ==> jobEnd <= (cfg.windows[k].GetNextShutdownTime(now) + cfg.jobAcceptanceMargin) as real)
        && (forall k :: 0 <= k < |cfg.windows| && cfg.windows[k].IsInDrainLeadTime(now, cfg.drainLeadTime) ==>
              jobEnd + cfg.jobAcceptanceMargin as real <= cfg.windows[k].GetNextShutdownTime(now) as real)
    {
      hide ShutdownWindow.IsInWindow;
      hide ShutdownWindow.IsInDrainLeadTime;
      hide ShutdownWindow.GetNextShutdownTime;
      hide PolicyConfig.InAnyWindow;
      var isTargeted := i in nodeTargetedForShutdown && nodeTargetedForShutdown[i];
      if cfg.shutdownTargetPool && isTargeted && !ignoreTargetPool {
        var inside := InAnyWindow(now);
        if inside {
          return false;
        }
        var late := EndsAfterAnyStart(jobEnd, now, 0);
        if late {
          return false;
        }
      }
      if state.NodeDraining? || isTargeted {
        var late := EndsAfterAnyStart(jobEnd, now, cfg.jobAcceptanceMargin);
        if late {
          return false;
        }
      }
      var late := EndsAfterDrainedStart(jobEnd + cfg.jobAcceptanceMargin as real, now);
      return !late;
    }

    method EndsAfterDrainedStart(jobEnd: real, now: real) returns (late: bool)
      requires now >= 0.0
      ensures late == exists k :: 0 <= k < |cfg.windows| && cfg.windows[k].IsInDrainLeadTime(now, cfg.drainLeadTime)
                                  && jobEnd > cfg.windows[k].GetNextShutdownTime(now) as real
    {
      late := false;
      for k := 0 to |cfg.windows|
        invariant !late
        invariant forall i :: 0 <= i < k && cfg.windows[i].IsInDrainLeadTime(now, cfg.drainLeadTime) ==> jobEnd <= cfg.windows[i].GetNextShutdownTime(now) as real
      {
        if cfg.windows[k].IsInDrainLeadTime(now, cfg.drainLeadTime) {
          if jobEnd > cfg.windows[k].GetNextShutdownTime(now) as real {
            return true;
          }
        }
      }
    }

    method EndsAfterAnyStart(jobEnd: real, now: real, margin: int) returns (late: bool)
      requires now >= 0.0
      ensures late == exists k :: 0 <= k < |cfg.windows| && jobEnd > (cfg.windows[k].GetNextShutdownTime(now) + margin) as real
    {
      late := false;
      for k := 0 to |cfg.windows|
        invariant !late && forall i :: 0 <= i < k ==> jobEnd <= (cfg.windows[i].GetNextShutdownTime(now) + margin) as real
      {
        if jobEnd > (cfg.windows[k].GetNextShutdownTime(now) + margin) as real {
          return true;
        }
      }
    }

    // ---- Targets ---------------------------------------------------------------------------

    method AssignNodePools(nodeCount: nat)
      modifies this`isNodeInCorePool
      ensures View() == ShutdownPolicy.AssignNodePools(cfg, old(View()), nodeCount)
    {
      hide PrefixFlags;
      ghost var before := isNodeInCorePool;
      hide CorePoolSize;
      var core := CorePoolSize(nodeCount, cfg.corePoolFraction);
      PoolStep(before, 0, core);
      for i := 0 to nodeCount
        invariant isNodeInCorePool == before + PrefixFlags(i, core)
      {
        PoolStep(before, i, core);
        isNodeInCorePool := isNodeInCorePool[i := i < core];
      }
    }

    method AssignShutdownTargetsForFraction(nodeCount: nat, fraction: real)
      modifies this`nodeTargetedForShutdown
      ensures View() == old(View()).(targeted := TargetsFor(nodeCount, fraction))
    {
      var count := TargetCount(nodeCount, fraction);
      nodeTargetedForShutdown := map[];
      for i := 0 to nodeCount
        invariant nodeTargetedForShutdown == PrefixFlags(i, count)
      {
        nodeTargetedForShutdown := nodeTargetedForShutdown[i := i < count];
      }
    }

    method DrainingWindow(now: real) returns (w: int)
      requires now >= 0.0
      ensures w == DrainingWindowFrom(cfg, now, 0)
    {
      for k := 0 to |cfg.windows|
        invariant DrainingWindowFrom(cfg, now, 0) == DrainingWindowFrom(cfg, now, k)
      {
        if cfg.windows[k].IsInDrainLeadTime(now, cfg.drainLeadTime) {
          return k;
        }
      }
      return -1;
    }

    method ActiveWindow(now: real) returns (w: int)
      requires now >= 0.0
      ensures w == ActiveWindowFrom(cfg, now, 0)
    {
      for k := 0 to |cfg.windows|
        invariant ActiveWindowFrom(cfg, now, 0) == ActiveWindowFrom(cfg, now, k)
      {
        if cfg.windows[k].IsInDrainLeadTime(now, cfg.drainLeadTime) || cfg.windows[k].IsInWindow(now) {
          return k;
        }
      }
      return -1;
    }

    method NextWindow(now: real) returns (w: int)
      requires now >= 0.0
      ensures w == NextWindowUpTo(cfg, now, |cfg.windows|)
    {
      w := -1;
      for k := 0 to |cfg.windows|
        invariant w == NextWindowUpTo(cfg, now, k)
      {
        if w == -1 || cfg.windows[k].GetNextShutdownTime(now) < cfg.windows[w].GetNextShutdownTime(now) {
          w := k;
        }
      }
    }

    method AssignShutdownTargets(nodeCount: nat, now: real)
      requires now >= 0.0
      modifies this`nodeTargetedForShutdown
      ensures View() == ShutdownPolicy.AssignShutdownTargets(cfg, old(View()), nodeCount, now)
    {
      var w := DrainingWindow(now);
      var fraction := if w == -1 then -1.0 else cfg.windows[w].targetFraction;
      if fraction < 0.0 {
        return;
      }
      AssignShutdownTargetsForFraction(nodeCount, fraction);
    }

    /** The manager's own maps are brought up to date before the nodes are. */
    method Retarget(nodeCount: nat, now: real)
      requires now >= 0.0
      modifies this
      ensures View() == ShutdownPolicy.Retarget(cfg, old(View()), nodeCount, now)
    {
      if isNodeInCorePool == map[] && cfg.strategy.FlexCorePool? {
        AssignNodePools(nodeCount);
      }
      if cfg.strategy.Simple? {
        var newWindow := ActiveWindow(now);
        if newWindow != currentActiveWindowIndex {
          currentActiveWindowIndex := newWindow;
          if newWindow >= 0 {
            AssignShutdownTargets(nodeCount, now);
          }
        }
      }
      if cfg.shutdownTargetPool {
        var next := NextWindow(now);
        if next >= 0 && (next != currentPoolWindowIndex || nodeTargetedForShutdown == map[]) {
          AssignShutdownTargetsForFraction(nodeCount, cfg.windows[next].targetFraction);
          currentPoolWindowIndex := next;
        }
      }
    }

    // ---- Node states -----------------------------------------------------------------------

    method ShouldDrainNode(node: Node, now: real) returns (drain: bool)
      requires now >= 0.0
      modifies this`isNodeInCorePool, this`nodeTargetedForShutdown
      ensures drain == ShutdownPolicy.ShouldDrainNode(cfg, old(View()), node.View(), node.id, now)
      ensures cfg.strategy.FlexCorePool? && cfg.InAnyDrainLeadTime(now) && node.View().IsIdle() ==>
        View() == old(View()).(inCorePool := Touch(old(isNodeInCorePool), node.id))
      ensures cfg.strategy.Simple? && cfg.InAnyDrainLeadTime(now) && node.View().IsIdle() ==>
        View() == old(View()).(targeted := Touch(old(nodeTargetedForShutdown), node.id))
      ensures cfg.strategy.OtherStrategy? || !cfg.InAnyDrainLeadTime(now) || !node.View().IsIdle() ==> View() == old(View())
    {
      var lead := InAnyDrainLeadTime(now);
      if !lead || node.runningJobs != {} || node.expectedJobs != {} {
        return false;
      }
      if cfg.strategy.FlexCorePool? {
        isNodeInCorePool := Touch(isNodeInCorePool, node.id);
        return !isNodeInCorePool[node.id];
      } else if cfg.strategy.Simple? {
        nodeTargetedForShutdown := Touch(nodeTargetedForShutdown, node.id);
        return nodeTargetedForShutdown[node.id];
      }
      return false;
    }

    method ShouldBootNode(now: real) returns (boot: bool)
      requires now >= 0.0
      ensures boot == ShutdownPolicy.ShouldBootNode(cfg, now)
    {
      boot := false;
      for k := 0 to |cfg.windows|
        invariant !boot && forall i :: 0 <= i < k ==> cfg.windows[i].IsInWindow(now) || cfg.windows[i].IsInDrainLeadTime(now, cfg.drainLeadTime)
      {
        if !cfg.windows[k].IsInWindow(now) && !cfg.windows[k].IsInDrainLeadTime(now, cfg.drainLeadTime) {
          return true;
        }
      }
    }

    method ShutDown(node: Node, now: real)
      modifies node, node.cache`cacheValid
      ensures node.View() == ShutDownNode(cfg, old(node.View()), now) && !node.cache.cacheValid
    {
      node.SetState(NodeShuttingDown);
      node.ScheduleTransition(NodeOff, cfg.downSeconds, now);
    }

    /** A node that is free, allocated or reserved. */
    method StepPoweredNode(node: Node, now: real)
      requires now >= 0.0 && (node.state.NodeFree? || node.state.NodeAllocated? || node.state.NodeReserved?)
      modifies this, node, node.cache`cacheValid
      ensures (View(), node.View()) == ShutdownPolicy.StepNode(cfg, old(View()), old(node.View()), node.id, now) && node.Noticed()
    {
      var idle := node.runningJobs == {} && node.expectedJobs == {};
      if idle {
        nodeTargetedForShutdown := Touch(nodeTargetedForShutdown, node.id);
        if nodeTargetedForShutdown[node.id] {
          var inside := InAnyWindow(now);
          if inside {
            ShutDown(node, now);
            return;
          }
        }
      }
      var drain := ShouldDrainNode(node, now);
      if drain {
        node.SetState(NodeDraining);
        nodeDrainStartTime := nodeDrainStartTime[node.id := now];
      }
    }

    method StepDrainingNode(node: Node, now: real)
      requires now >= 0.0 && node.state.NodeDraining?
      modifies this, node, node.cache`cacheValid
      ensures (View(), node.View()) == ShutdownPolicy.StepNode(cfg, old(View()), old(node.View()), node.id, now) && node.Noticed()
    {
      if node.id in nodeDrainStartTime {
        if now - nodeDrainStartTime[node.id] >= cfg.maxDrainDuration as real {
          node.SetState(NodeFree);
          nodeDrainStartTime := nodeDrainStartTime - {node.id};
          return;
        }
      }
      var inside := InAnyWindow(now);
      if node.runningJobs == {} && node.expectedJobs == {} && inside {
        ShutDown(node, now);
      } else if cfg.forceClearOnWindowEnd {
        var lead := InAnyDrainLeadTime(now);
        if !inside && !lead {
          node.SetState(NodeFree);
          nodeDrainStartTime := nodeDrainStartTime - {node.id};
        }
      }
    }

    method StepNode(node: Node, now: real)
      requires now >= 0.0
      modifies this, node, node.cache`cacheValid
      ensures (View(), node.View()) == ShutdownPolicy.StepNode(cfg, old(View()), old(node.View()), node.id, now) && node.Noticed()
    {
      match node.state {
        case NodeFree | NodeAllocated | NodeReserved => StepPoweredNode(node, now);
        case NodeDraining => StepDrainingNode(node, now);
        case NodeShuttingDown =>
        case NodeOff =>
          var boot := ShouldBootNode(now);
          if boot {
            node.SetState(NodeBooting);
            node.ScheduleTransition(NodeFree, cfg.bootSeconds, now);
          }
        case NodeBooting =>
      }
    }

    /** The state machine takes one step at every node, in list order. */
    method UpdateNodeStates(cluster: Cluster, now: real)
      requires now >= 0.0 && cluster.Valid()
      modifies this, cluster.nodes, cluster.cache`cacheValid
      ensures cluster.Valid() && cluster.View().jobs == old(cluster.View()).jobs
      ensures (View(), cluster.View().nodes) == ShutdownPolicy.UpdateNodeStates(cfg, old(View()), old(cluster.View()).nodes, now)
    {
      hide NodeViews;
      hide JobViews;
      hide ShutdownPolicy.StepNode;
      hide UpdateNodesUpTo;
      ghost var before, views := View(), NodeViews(cluster.nodes);
      UpdateBegins(cfg, before, views, now);
      for i := 0 to |cluster.nodes|
        invariant View() == UpdateNodesUpTo(cfg, before, views, now, i).0
        invariant forall k :: 0 <= k < |views| ==> cluster.nodes[k].View() == UpdateNodesUpTo(cfg, before, views, now, i).1[k]
        invariant cluster.CacheNoticed()
      {
        UpdateSteps(cfg, before, views, now, i);
        assert cluster.nodes[i].cache == cluster.cache && cluster.nodes[i].id == i;
        StepNode(cluster.nodes[i], now);
      }
      cluster.StaysCoherent(views);
      assert NodeViews(cluster.nodes) == UpdateNodesUpTo(cfg, before, views, now, |views|).1;
      forall j | 0 <= j < |cluster.jobQueue| ensures cluster.OwnJob(cluster.jobQueue[j], j) {
        assert old(cluster.OwnJob(cluster.jobQueue[j], j));
      }
    }

    method Update(cluster: Cluster, now: real)
      requires now >= 0.0 && cluster.Valid()
      modifies this, cluster.nodes, cluster.cache`cacheValid
      ensures cluster.Valid() && cluster.View().jobs == old(cluster.View()).jobs
      ensures (View(), cluster.View().nodes) == ShutdownPolicy.Update(cfg, old(View()), old(cluster.View()).nodes, now)
    {
      hide ShutdownPolicy.Retarget;
      hide ShutdownPolicy.UpdateNodeStates;
      hide NodeViews;
      hide JobViews;
      if !cfg.loaded {
        return;
      }
      if !cfg.IsActiveAt(now) {
        return;
      }
      Retarget(|cluster.nodes|, now);
      UpdateNodeStates(cluster, now);
    }
  
    // ---- Malleable jobs make room ------------------------------------------------------------

    method ShrinkWindow(now: real) returns (w: int)
      requires now >= 0.0
      ensures w == ShrinkWindowFrom(cfg, now, 0)
    {
      for k := 0 to |cfg.windows|
        invariant ShrinkWindowFrom(cfg, now, 0) == ShrinkWindowFrom(cfg, now, k)
      {
        if cfg.windows[k].IsInWindow(now) {
          return k;
        }
        if cfg.malleableShrinkLeadTime > 0 {
          var next := cfg.windows[k].GetNextShutdownTime(now) as real;
          if next - cfg.malleableShrinkLeadTime as real <= now < next {
            return k;
          }
        }
      }
      return -1;
    }

    /** Jobs that may shrink hold duplicate-free lists of platform nodes. */
    ghost predicate Shrinkable(cluster: Cluster, order: seq<int>)
      reads cluster, cluster.jobQueue, cluster.nodes
    {
      InRange(cluster.View(), order) && forall k :: 0 <= k < |order| ==> MayShrink(cluster.View().jobs[order[k]])
    }

    method ShrinkAll(cluster: Cluster, order: seq<int>) returns (anyShrink: bool)
      requires cluster.Valid() && Distinct(order) && Shrinkable(cluster, order)
      modifies cluster.jobQueue, cluster.nodes, cluster.cache`cacheValid
      ensures cluster.Valid() && cluster.View() == ShrinkTargeted(View(), old(cluster.View()), order)
      ensures anyShrink == ShrinksAny(View(), old(cluster.View()), order)
    {
      hide NodeViews;
      hide JobViews;
      hide ShrinkTargeted;
      hide TargetedSurplus;
      hide RemoveEach;
      hide Cluster.Valid;
      hide Cluster.View;
      ghost var sys := cluster.View();
      JobCount(cluster);
      anyShrink := false;
      for i := 0 to |order|
        invariant cluster.Valid() && |cluster.jobQueue| == |sys.jobs| && |cluster.View().jobs| == |sys.jobs|
        invariant forall k :: i <= k < |order| ==> cluster.View().jobs[order[k]] == sys.jobs[order[k]]
        invariant InRange(cluster.View(), order[i..]) && ShrinkTargeted(View(), cluster.View(), order[i..]) == ShrinkTargeted(View(), sys, order)
        invariant anyShrink == exists k :: 0 <= k < i && TargetedSurplus(View(), sys.jobs[order[k]]) != []
      {
        var j := order[i];
        assert order[i..][0] == j && order[i..][1..] == order[i + 1..];
        var ns := TargetedSurplus(View(), cluster.View().jobs[j]);
        SurplusCanGo(View(), cluster, j);
        ShrinkStep(View(), cluster.View(), order[i..]);
        if ns != [] {
          cluster.ShrinkJobBy(j, ns);
          anyShrink := true;
        }
      }
      NothingLeft(View(), cluster.View(), order[|order|..]);
    }

    /** Running malleable jobs give up targeted nodes before and in a window. */
    method ApplyMalleableShutdownPolicy(cluster: Cluster, now: real)
      requires now >= 0.0 && cluster.Valid()
      requires forall j :: 0 <= j < |cluster.jobQueue| && IsRunningMalleable(cluster.jobQueue[j].View()) ==> MayShrink(cluster.jobQueue[j].View())
      modifies this, cluster.jobQueue, cluster.nodes, cluster.cache`cacheValid
      ensures cluster.Valid()
      ensures (View(), cluster.View()) == ApplyMalleablePolicy(cfg, old(View()), old(cluster.View()), now)
    {
      hide NodeViews;
      hide JobViews;
      hide ShrinkTargeted;
      hide TargetedSurplus;
      hide ShrinksAny;
      hide ShrinkOrder;
      hide ShutdownPolicy.UpdateNodeStates;
      hide PolicyConfig.IsActiveAt;
      hide ShutdownWindow.IsInWindow;
      if !cfg.loaded || !cfg.malleableShrinkToTarget {
        return;
      }
      if !cfg.IsActiveAt(now) {
        return;
      }
      var w := ShrinkWindow(now);
      if w == -1 {
        return;
      }
      if nodeTargetedForShutdown == map[] {
        AssignShutdownTargetsForFraction(|cluster.nodes|, cfg.windows[w].targetFraction);
      }
      if nodeTargetedForShutdown == map[] {
        return;
      }
      var order := ShrinkOrder(cfg, cluster.View());
      forall k | 0 <= k < |order| ensures 0 <= order[k] < |cluster.jobQueue| && MayShrink(cluster.View().jobs[order[k]]) {
        assert order[k] in order;
      }
      var anyShrink := ShrinkAll(cluster, order);
      if anyShrink && cfg.windows[w].IsInWindow(now) {
        UpdateNodeStates(cluster, now);
      }
    }
  }

  ghost predicate InRange(s: Sys, order: seq<int>) {
    forall k :: 0 <= k < |order| ==> 0 <= order[k] < |s.jobs|
  }

  ghost predicate MayShrink(v: JobView) {
    Distinct(v.assignedNodes) && v.nodesMin >= 0
  }

  lemma ShrinkStep(st: PolicyState, s: Sys, order: seq<int>)
    requires InRange(s, order) && order != []
    ensures 0 <= order[0] < |s.jobs|
    ensures var ns := TargetedSurplus(st, s.jobs[order[0]]); var t := if ns == [] then s else s.ShrinkBy(order[0], ns);
      InRange(t, order[1..]) && ShrinkTargeted(st, s, order) == ShrinkTargeted(st, t, order[1..])
  {
  }

  lemma JobCount(cluster: Cluster)
    ensures |cluster.View().jobs| == |cluster.jobQueue|
  {
  }

  lemma NothingLeft(st: PolicyState, s: Sys, order: seq<int>)
    requires order == []
    ensures ShrinkTargeted(st, s, order) == s
  {
  }

  /** What a job gives up is assigned to it, duplicate-free and above its minimum. */
  lemma SurplusCanGo(st: PolicyState, cluster: Cluster, j: int)
    requires cluster.Valid() && 0 <= j < |cluster.jobQueue|
    requires Distinct(cluster.View().jobs[j].assignedNodes) && cluster.View().jobs[j].nodesMin >= 0
    ensures var ns := TargetedSurplus(st, cluster.View().jobs[j]);
      && cluster.AreNumbers(ns) && Distinct(ns)
      && (ns != [] ==> |cluster.jobQueue[j].assignedNodes| - |ns| >= cluster.jobQueue[j].nodesMin)
      && (forall n :: n in ns ==> n in Ids(cluster.jobQueue[j].assignedNodes))
  {
    var v := cluster.View().jobs[j];
    var ns := TargetedSurplus(st, v);
    TargetedSurplusIsSurplus(st, v);
    assert v == cluster.jobQueue[j].View();
    assert cluster.OwnJob(cluster.jobQueue[j], j);
    IdsDecide(cluster.jobQueue[j].assignedNodes, cluster.jobQueue[j].assignedNodes, cluster.nodes, cluster.cache);
    forall k | 0 <= k < |ns| ensures 0 <= ns[k] < |cluster.nodes| {
      assert ns[k] in ns && ns[k] in v.assignedNodes;
      var m :| 0 <= m < |cluster.jobQueue[j].assignedNodes| && Ids(cluster.jobQueue[j].assignedNodes)[m] == ns[k];
      assert cluster.jobQueue[j].assignedNodes[m] in cluster.nodes;
    }
  }
}
