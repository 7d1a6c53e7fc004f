/** Power management never touches a node in use, and with the simple strategy a fixed tail of
    the node list stays powered for ever. */
module PowerSafety {
  import opened Sequences
  import opened ShutdownCalendar
  import opened ClusterState
  import opened ClusterInvariant
  import opened ShutdownPolicy

  ghost predicate PowerSteps(a: seq<NodeView>, b: seq<NodeView>) {
    |a| == |b| && forall i :: 0 <= i < |a| ==> PowerStep(a[i], b[i])
  }

  lemma StepNodeIsPowerStep(cfg: PolicyConfig, st: PolicyState, s: Sys, i: int, now: real)
    requires now >= 0.0 && Inv(s) && 0 <= i < |s.nodes|
    ensures PowerStep(s.nodes[i], StepNode(cfg, st, s.nodes[i], i, now).1)
  {
  }

  lemma {:induction false} UpdateIsPowerSteps(cfg: PolicyConfig, st: PolicyState, s: Sys, now: real, k: nat)
    requires now >= 0.0 && Inv(s) && k <= |s.nodes|
    ensures PowerSteps(s.nodes, UpdateNodesUpTo(cfg, st, s.nodes, now, k).1)
  {
    if k == 0 {
      forall i | 0 <= i < |s.nodes| ensures PowerStep(s.nodes[i], s.nodes[i]) {
        assert NodeOk(s.jobs, s.nodes[i], i);
      }
    } else {
      UpdateIsPowerSteps(cfg, st, s, now, k - 1);
      var (st1, _) := UpdateNodesUpTo(cfg, st, s.nodes, now, k - 1);
      StepNodeIsPowerStep(cfg, st1, s, k - 1, now);
    }
  }

  /** The policy update keeps the cluster invariant between scheduling rounds. */
  lemma UpdateKeepsInv(cfg: PolicyConfig, st: PolicyState, s: Sys, now: real)
    requires now >= 0.0 && Inv(s) && NoStarts(s)
    ensures Inv(s.(nodes := Update(cfg, st, s.nodes, now).1))
    ensures Inv(s.(nodes := UpdateNodeStates(cfg, st, s.nodes, now).1))
  {
    if cfg.loaded && cfg.IsActiveAt(now) {
      UpdateIsPowerSteps(cfg, Retarget(cfg, st, |s.nodes|, now), s, now, |s.nodes|);
      PowerKeepsInv(s, Update(cfg, st, s.nodes, now).1);
    }
    UpdateIsPowerSteps(cfg, st, s, now, |s.nodes|);
    PowerKeepsInv(s, UpdateNodeStates(cfg, st, s.nodes, now).1);
  }

  /** All nodes check their scheduled transition. */
  function FireTransitions(nodes: seq<NodeView>, now: real): (r: seq<NodeView>)
    ensures |r| == |nodes|
    ensures forall i :: 0 <= i < |nodes| ==> r[i] == nodes[i].CheckScheduledTransition(now)
  {
    seq(|nodes|, i requires 0 <= i < |nodes| => nodes[i].CheckScheduledTransition(now))
  }

  /** A transition that fires only switches an unused node off or back to free. */
  lemma FiringIsSafe(s: Sys, now: real, i: int)
    requires Inv(s) && 0 <= i < |s.nodes|
    ensures var v, r := s.nodes[i], FireTransitions(s.nodes, now)[i];
      && PowerStep(v, r)
      && (r != v ==> v.IsIdle() && ((v.state.NodeShuttingDown? && r.state.NodeOff?) || (v.state.NodeBooting? && r.state.NodeFree?)))
  {
  }

  lemma FiringKeepsInv(s: Sys, now: real)
    requires Inv(s) && NoStarts(s)
    ensures Inv(s.(nodes := FireTransitions(s.nodes, now)))
  {
  }

  /** What the malleable policy gives up is assigned, duplicate-free and above the minimum. */
  lemma TargetedSurplusIsSurplus(st: PolicyState, v: JobView)
    requires Distinct(v.assignedNodes) && v.nodesMin >= 0
    ensures var ns := TargetedSurplus(st, v);
      && Distinct(ns) && (forall n :: n in ns ==> n in v.assignedNodes && st.IsTargeted(n))
      && (ns != [] ==> v.nodesMin <= |v.assignedNodes| - |ns|)
  {
    if v.nodesMin < |v.assignedNodes| {
      DistinctPrefix(v.assignedNodes, v.nodesMin);
      FilterDistinct(n => st.IsTargeted(n), v.assignedNodes[v.nodesMin..]);
    }
  }

  /** A running malleable job gave up assigned nodes and keeps its minimum, or nothing changed. */
  ghost predicate JobLoses(a: JobView, b: JobView) {
    && (b.state == a.state || (a.state.Running? && b.state.PendingReconfiguration?))
    && b == a.(assignedNodes := b.assignedNodes, state := b.state)
    && |b.assignedNodes| <= |a.assignedNodes| && (forall n :: n in b.assignedNodes ==> n in a.assignedNodes)
    && (b != a ==> IsRunningMalleable(a) && b.nodesMin <= |b.assignedNodes|)
  }

  ghost predicate Loses(s: Sys, t: Sys) {
    && |t.jobs| == |s.jobs| && |t.nodes| == |s.nodes|
    && forall j :: 0 <= j < |s.jobs| ==> JobLoses(s.jobs[j], t.jobs[j])
  }

  lemma LosesTransitive(s: Sys, t: Sys, u: Sys)
    requires Loses(s, t) && Loses(t, u)
    ensures Loses(s, u)
  {
  }

  lemma ShrinkLoses(s: Sys, j: int, ns: seq<int>)
    requires 0 <= j < |s.jobs| && IsRunningMalleable(s.jobs[j]) && Distinct(s.jobs[j].assignedNodes)
    requires Distinct(ns) && (forall n :: n in ns ==> n in s.jobs[j].assignedNodes) && s.jobs[j].nodesMin <= |s.jobs[j].assignedNodes| - |ns|
    ensures Loses(s, s.ShrinkBy(j, ns))
  {
    RemoveEachDistinct(s.jobs[j].assignedNodes, ns);
  }

  /** Shrinking for the policy keeps the invariant and only takes nodes away from jobs. */
  lemma {:induction false} ShrinkTargetedKeepsInv(st: PolicyState, s: Sys, order: seq<int>)
    requires Inv(s) && NoStarts(s)
    requires Distinct(order) && forall j :: j in order ==> 0 <= j < |s.jobs| && IsRunningMalleable(s.jobs[j])
    ensures Inv(ShrinkTargeted(st, s, order)) && NoStarts(ShrinkTargeted(st, s, order))
    ensures Loses(s, ShrinkTargeted(st, s, order))
    decreases |order|
  {
    if order != [] {
      var j := order[0];
      assert j in order && forall k :: k in order[1..] ==> k in order && k != j;
      assert JobOk(s.jobs[j], |s.nodes|);
      var ns := TargetedSurplus(st, s.jobs[j]);
      TargetedSurplusIsSurplus(st, s.jobs[j]);
      if ns == [] {
        ShrinkTargetedKeepsInv(st, s, order[1..]);
      } else {
        var t := s.ShrinkBy(j, ns);
        ShrinkKeepsInv(s, j, ns);
        ShrinkLoses(s, j, ns);
        ShrinkTargetedKeepsInv(st, t, order[1..]);
        LosesTransitive(s, t, ShrinkTargeted(st, t, order[1..]));
      }
    }
  }

  lemma ApplyMalleablePolicyKeepsInv(cfg: PolicyConfig, st: PolicyState, s: Sys, now: real)
    requires now >= 0.0 && Inv(s) && NoStarts(s)
    ensures Inv(ApplyMalleablePolicy(cfg, st, s, now).1) && NoStarts(ApplyMalleablePolicy(cfg, st, s, now).1)
    ensures Loses(s, ApplyMalleablePolicy(cfg, st, s, now).1)
  {
    hide Inv;
    hide ShrinkTargeted;
    hide ShrinkOrder;
    hide ShrinksAny;
    hide ShrinkWindowFrom;
    hide TargetsFor;
    hide UpdateNodeStates;
    hide PolicyConfig.IsActiveAt;
    hide ShutdownWindow.IsInWindow;
    var w := if cfg.loaded && cfg.malleableShrinkToTarget && cfg.IsActiveAt(now) then ShrinkWindowFrom(cfg, now, 0) else -1;
    if w != -1 {
      var st1 := if st.targeted == map[] then st.(targeted := TargetsFor(|s.nodes|, cfg.windows[w].targetFraction)) else st;
      var order := ShrinkOrder(cfg, s);
      var u := ShrinkTargeted(st1, s, order);
      assert Inv(u) && NoStarts(u) && Loses(s, u) by {
        ShrinkTargetedKeepsInv(st1, s, order);
      }
      var nodes := UpdateNodeStates(cfg, st1, u.nodes, now).1;
      assert Inv(u.(nodes := nodes)) by {
        UpdateKeepsInv(cfg, st1, u, now);
      }
      assert Loses(s, u.(nodes := nodes));
      var t := ApplyMalleablePolicy(cfg, st, s, now).1;
      assert t == s || t == u || t == u.(nodes := nodes);
      assert Loses(s, s);
    }
  }

  // ---- The powered floor -----------------------------------------------------------------

  predicate Powered(v: NodeView) {
    v.state.NodeFree? || v.state.NodeAllocated? || v.state.NodeReserved?
  }

  /** The largest number of nodes any window may target. */
  ghost function FloorIndex(windows: seq<ShutdownWindow>, nodeCount: nat): nat {
    if windows == [] then 0
    else
      var rest, c := FloorIndex(windows[1..], nodeCount), TargetCount(nodeCount, windows[0].targetFraction);
      if c > rest then c else rest
  }

  lemma {:induction false} FloorIndexBounds(windows: seq<ShutdownWindow>, nodeCount: nat)
    ensures forall k :: 0 <= k < |windows| ==> TargetCount(nodeCount, windows[k].targetFraction) <= FloorIndex(windows, nodeCount)
  {
    if windows != [] {
      FloorIndexBounds(windows[1..], nodeCount);
      forall k | 0 <= k < |windows| ensures TargetCount(nodeCount, windows[k].targetFraction) <= FloorIndex(windows, nodeCount) {
        if k > 0 { assert windows[k] == windows[1..][k - 1]; }
      }
    }
  }

  ghost predicate TargetsBelow(st: PolicyState, k: int) {
    forall i :: st.IsTargeted(i) ==> i < k
  }

  ghost predicate PoweredFrom(nodes: seq<NodeView>, k: int) {
    forall i :: 0 <= i < |nodes| && k <= i ==> Powered(nodes[i])
  }

  lemma TargetsForBelow(cfg: PolicyConfig, nodeCount: nat, k: int)
    requires 0 <= k < |cfg.windows|
    ensures forall i :: i in TargetsFor(nodeCount, cfg.windows[k].targetFraction) && TargetsFor(nodeCount, cfg.windows[k].targetFraction)[i]
                    ==> i < FloorIndex(cfg.windows, nodeCount)
  {
    FloorIndexBounds(cfg.windows, nodeCount);
  }

  lemma RetargetKeepsBound(cfg: PolicyConfig, st: PolicyState, nodeCount: nat, now: real)
    requires now >= 0.0 && TargetsBelow(st, FloorIndex(cfg.windows, nodeCount))
    ensures TargetsBelow(Retarget(cfg, st, nodeCount, now), FloorIndex(cfg.windows, nodeCount))
  {
    var bound := FloorIndex(cfg.windows, nodeCount);
    var pooled := if st.inCorePool == map[] && cfg.strategy.FlexCorePool? then AssignNodePools(cfg, st, nodeCount) else st;
    assert pooled.targeted == st.targeted;
    assert TargetsBelow(pooled, bound) by {
      assert forall i :: pooled.IsTargeted(i) ==> st.IsTargeted(i);
    }
    var moved := RetargetOnTransition(cfg, pooled, nodeCount, now);
    assert TargetsBelow(moved, bound) by {
      var d := DrainingWindowFrom(cfg, now, 0);
      if d != -1 { TargetsForBelow(cfg, nodeCount, d); }
      assert moved.targeted != pooled.targeted ==> d != -1 && moved.targeted == TargetsFor(nodeCount, cfg.windows[d].targetFraction);
      assert moved.targeted == pooled.targeted ==> forall i :: moved.IsTargeted(i) ==> pooled.IsTargeted(i);
    }
    var next := NextWindowUpTo(cfg, now, |cfg.windows|);
    if next != -1 { TargetsForBelow(cfg, nodeCount, next); }
    var last := RetargetPool(cfg, moved, nodeCount, now);
    assert last.targeted == moved.targeted ==> forall i :: last.IsTargeted(i) ==> moved.IsTargeted(i);
  }

  lemma StepNodeKeepsFloor(cfg: PolicyConfig, st: PolicyState, v: NodeView, i: int, now: real, bound: int)
    requires now >= 0.0 && cfg.strategy.Simple? && TargetsBelow(st, bound)
    requires i >= bound ==> Powered(v)
    ensures TargetsBelow(StepNode(cfg, st, v, i, now).0, bound)
    ensures i >= bound ==> Powered(StepNode(cfg, st, v, i, now).1)
  {
    var r := StepNode(cfg, st, v, i, now).0;
    forall k | r.IsTargeted(k) ensures k < bound {
      assert st.IsTargeted(k);
    }
  }

  lemma {:induction false} UpdateKeepsFloor(cfg: PolicyConfig, st: PolicyState, nodes: seq<NodeView>, now: real, k: nat, bound: int)
    requires now >= 0.0 && k <= |nodes| && cfg.strategy.Simple?
    requires TargetsBelow(st, bound) && PoweredFrom(nodes, bound)
    ensures TargetsBelow(UpdateNodesUpTo(cfg, st, nodes, now, k).0, bound)
    ensures PoweredFrom(UpdateNodesUpTo(cfg, st, nodes, now, k).1, bound)
  {
    if k > 0 {
      UpdateKeepsFloor(cfg, st, nodes, now, k - 1, bound);
      var (st1, nodes1) := UpdateNodesUpTo(cfg, st, nodes, now, k - 1);
      StepNodeKeepsFloor(cfg, st1, nodes1[k - 1], k - 1, now, bound);
    }
  }

  /** The nodes that are free, reserved or allocated. */
  function CountPowered(nodes: seq<NodeView>): nat {
    if nodes == [] then 0 else CountPowered(nodes[..|nodes| - 1]) + if Powered(nodes[|nodes| - 1]) then 1 else 0
  }

  lemma {:induction false} FloorCounts(nodes: seq<NodeView>, k: nat)
    requires PoweredFrom(nodes, k)
    ensures CountPowered(nodes) >= |nodes| - k
  {
    if |nodes| > k {
      FloorCounts(nodes[..|nodes| - 1], k);
    }
  }

  /** At least the smallest target fraction of the nodes is powered whenever the tail is. */
  lemma PoweredFloor(cfg: PolicyConfig, nodes: seq<NodeView>, minFraction: real)
    requires PoweredFrom(nodes, FloorIndex(cfg.windows, |nodes|))
    requires minFraction <= 1.0 && forall k :: 0 <= k < |cfg.windows| ==> minFraction <= cfg.windows[k].targetFraction
    ensures CountPowered(nodes) as real >= |nodes| as real * minFraction
  {
    hide CountPowered;
    hide FloorIndex;
    var k := FloorIndex(cfg.windows, |nodes|);
    assert CountPowered(nodes) >= |nodes| - k by { FloorCounts(nodes, k); }
    var share := |nodes| as real * minFraction;
    assert (|nodes| - k) as real >= share by { FloorLeavesShare(cfg.windows, |nodes|, minFraction); }
    AtLeastAsReal(CountPowered(nodes), |nodes| - k, share);
  }

  lemma AtLeastAsReal(a: int, b: int, share: real)
    requires a >= b && b as real >= share
    ensures a as real >= share
  {
  }

  lemma {:induction false} FloorLeavesShare(windows: seq<ShutdownWindow>, n: nat, minFraction: real)
    requires minFraction <= 1.0 && forall k :: 0 <= k < |windows| ==> minFraction <= windows[k].targetFraction
    ensures (n - FloorIndex(windows, n)) as real >= n as real * minFraction
  {
    if windows == [] {
      ShareMonotone(n as real, minFraction, 1.0);
    } else {
      FloorLeavesShare(windows[1..], n, minFraction);
      RemainingShare(n, TargetCount(n, windows[0].targetFraction), windows[0].targetFraction, minFraction);
    }
  }

  lemma RemainingShare(n: nat, k: int, fraction: real, minFraction: real)
    requires k == TargetCount(n, fraction) && minFraction <= fraction
    ensures (n - k) as real >= n as real * minFraction
  {
  }

  lemma ShareMonotone(n: real, smaller: real, larger: real)
    requires n >= 0.0 && smaller <= larger
    ensures n * smaller <= n * larger
    ensures n * (1.0 - larger) == n - n * larger
  {
  }
}
