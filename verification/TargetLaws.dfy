/** Which nodes the shutdown policy targets, by which window, and which nodes malleable jobs give
    up for a window. */
module TargetLaws {
  import opened Sequences
  import opened ShutdownCalendar
  import opened ClusterState
  import opened ClusterInvariant
  import opened ShutdownPolicy
  import opened PowerSafety
  import opened AgreementMaps
  import opened RuntimePrediction
  import opened Scheduler

  // ---- The windows -----------------------------------------------------------------------------

  /** Window `w` starts next, the first one if several start at the same time. */
  ghost predicate StartsNext(cfg: PolicyConfig, now: real, w: int)
    requires now >= 0.0
  {
    && 0 <= w < |cfg.windows|
    && forall m :: 0 <= m < |cfg.windows| && m != w ==>
         var a, b := cfg.windows[w].GetNextShutdownTime(now), cfg.windows[m].GetNextShutdownTime(now);
         a < b || (a == b && w < m)
  }

  lemma {:induction false} NextWindowIsEarliest(cfg: PolicyConfig, now: real, k: nat)
    requires now >= 0.0 && 0 < k <= |cfg.windows|
    ensures var w := NextWindowUpTo(cfg, now, k);
      && 0 <= w < k
      && forall m :: 0 <= m < k && m != w ==>
           var a, b := cfg.windows[w].GetNextShutdownTime(now), cfg.windows[m].GetNextShutdownTime(now);
           a < b || (a == b && w < m)
  {
    hide ShutdownWindow.GetNextShutdownTime;
    if k > 1 { NextWindowIsEarliest(cfg, now, k - 1); }
  }

  /** The window found next is the one that starts next. */
  lemma NextWindowStartsNext(cfg: PolicyConfig, now: real)
    requires now >= 0.0 && cfg.windows != []
    ensures StartsNext(cfg, now, NextWindowUpTo(cfg, now, |cfg.windows|))
    ensures forall w :: StartsNext(cfg, now, w) ==> w == NextWindowUpTo(cfg, now, |cfg.windows|)
  {
    hide ShutdownWindow.GetNextShutdownTime;
    NextWindowIsEarliest(cfg, now, |cfg.windows|);
  }

  /** Window `w` is the first within its draining lead time; -1 if none is. */
  ghost predicate IsFirstNear(cfg: PolicyConfig, now: real, w: int)
    requires now >= 0.0
  {
    && -1 <= w < |cfg.windows|
    && (w >= 0 ==> cfg.windows[w].IsInDrainLeadTime(now, cfg.drainLeadTime))
    && forall m :: 0 <= m < |cfg.windows| && (w == -1 || m < w) ==> !cfg.windows[m].IsInDrainLeadTime(now, cfg.drainLeadTime)
  }

  /** Window `w` is the first that is open or within its draining lead time; -1 if none is. */
  ghost predicate IsFirstCurrent(cfg: PolicyConfig, now: real, w: int)
    requires now >= 0.0
  {
    && -1 <= w < |cfg.windows|
    && (w >= 0 ==> cfg.windows[w].IsInDrainLeadTime(now, cfg.drainLeadTime) || cfg.windows[w].IsInWindow(now))
    && forall m :: 0 <= m < |cfg.windows| && (w == -1 || m < w) ==>
         !cfg.windows[m].IsInDrainLeadTime(now, cfg.drainLeadTime) && !cfg.windows[m].IsInWindow(now)
  }

  lemma {:induction false} DrainingWindowIsFirst(cfg: PolicyConfig, now: real, k: nat)
    requires now >= 0.0 && k <= |cfg.windows| && forall m :: 0 <= m < k ==> !cfg.windows[m].IsInDrainLeadTime(now, cfg.drainLeadTime)
    ensures IsFirstNear(cfg, now, DrainingWindowFrom(cfg, now, k))
    decreases |cfg.windows| - k
  {
    hide ShutdownWindow.IsInDrainLeadTime;
    if k < |cfg.windows| && !cfg.windows[k].IsInDrainLeadTime(now, cfg.drainLeadTime) { DrainingWindowIsFirst(cfg, now, k + 1); }
  }

  lemma {:induction false} ActiveWindowIsFirst(cfg: PolicyConfig, now: real, k: nat)
    requires now >= 0.0 && k <= |cfg.windows|
    requires forall m :: 0 <= m < k ==> !cfg.windows[m].IsInDrainLeadTime(now, cfg.drainLeadTime) && !cfg.windows[m].IsInWindow(now)
    ensures IsFirstCurrent(cfg, now, ActiveWindowFrom(cfg, now, k))
    decreases |cfg.windows| - k
  {
    hide ShutdownWindow.IsInDrainLeadTime;
    hide ShutdownWindow.IsInWindow;
    if k < |cfg.windows| && !cfg.windows[k].IsInDrainLeadTime(now, cfg.drainLeadTime) && !cfg.windows[k].IsInWindow(now) {
      ActiveWindowIsFirst(cfg, now, k + 1);
    }
  }

  /** Malleable jobs make room for window `w`: it is open, or starts within the shrinking lead time. */
  ghost predicate WantsRoom(cfg: PolicyConfig, now: real, w: int)
    requires now >= 0.0 && 0 <= w < |cfg.windows|
  {
    var next := cfg.windows[w].GetNextShutdownTime(now) as real;
    cfg.windows[w].IsInWindow(now) || (cfg.malleableShrinkLeadTime > 0 && next - cfg.malleableShrinkLeadTime as real <= now < next)
  }

  ghost predicate IsFirstWantingRoom(cfg: PolicyConfig, now: real, w: int)
    requires now >= 0.0
  {
    && -1 <= w < |cfg.windows| && (w >= 0 ==> WantsRoom(cfg, now, w))
    && forall m :: 0 <= m < |cfg.windows| && (w == -1 || m < w) ==> !WantsRoom(cfg, now, m)
  }

  lemma {:induction false} ShrinkWindowIsFirst(cfg: PolicyConfig, now: real, k: nat)
    requires now >= 0.0 && k <= |cfg.windows| && forall m :: 0 <= m < k ==> !WantsRoom(cfg, now, m)
    ensures IsFirstWantingRoom(cfg, now, ShrinkWindowFrom(cfg, now, k))
    decreases |cfg.windows| - k
  {
    hide ShutdownWindow.GetNextShutdownTime;
    hide ShutdownWindow.IsInWindow;
    if k < |cfg.windows| && !WantsRoom(cfg, now, k) { ShrinkWindowIsFirst(cfg, now, k + 1); }
  }

  // ---- The targets -----------------------------------------------------------------------------

  /** Exactly the first nodes are targeted, all but the given fraction of them. */
  ghost predicate TargetsAllBut(st: PolicyState, nodeCount: nat, fraction: real) {
    forall i :: st.IsTargeted(i) <==> 0 <= i < nodeCount && i < (nodeCount as real * (1.0 - fraction)).Floor
  }

  lemma FractionIsTargeted(st: PolicyState, nodeCount: nat, fraction: real)
    ensures TargetsAllBut(st.(targeted := TargetsFor(nodeCount, fraction)), nodeCount, fraction)
  {
    hide PrefixFlags;
  }

  /** With the simple strategy targets change when another window comes into reach: then they are
      those of the first window within its lead time. */
  lemma TransitionRetargets(cfg: PolicyConfig, st: PolicyState, nodeCount: nat, now: real, current: int, near: int)
    requires now >= 0.0 && IsFirstCurrent(cfg, now, current) && IsFirstNear(cfg, now, near)
    ensures var st2 := RetargetOnTransition(cfg, st, nodeCount, now);
      var moves := cfg.strategy.Simple? && current != st.activeWindow;
      && st2.poolWindow == st.poolWindow
      && st2.activeWindow == (if cfg.strategy.Simple? then current else st.activeWindow)
      && (moves && near >= 0 && cfg.windows[near].targetFraction >= 0.0 ==> TargetsAllBut(st2, nodeCount, cfg.windows[near].targetFraction))
      && (!moves || near == -1 ==> st2.targeted == st.targeted)
      && (st.targeted != map[] && nodeCount > 0 ==> st2.targeted != map[])
  {
    hide ShutdownWindow.IsInDrainLeadTime;
    hide ShutdownWindow.IsInWindow;
    ActiveWindowIsFirst(cfg, now, 0);
    DrainingWindowIsFirst(cfg, now, 0);
    assert ActiveWindowFrom(cfg, now, 0) == current && DrainingWindowFrom(cfg, now, 0) == near;
    if near >= 0 && nodeCount > 0 { assert 0 in TargetsFor(nodeCount, cfg.windows[near].targetFraction); }
    hide TargetsFor;
    if near >= 0 { FractionIsTargeted(st.(activeWindow := current), nodeCount, cfg.windows[near].targetFraction); }
  }

  /** The target pool follows the window that starts next. */
  lemma PoolFollowsNextWindow(cfg: PolicyConfig, st: PolicyState, nodeCount: nat, now: real, next: int)
    requires now >= 0.0 && cfg.shutdownTargetPool && StartsNext(cfg, now, next)
    ensures var st2 := Retarget(cfg, st, nodeCount, now);
      && st2.poolWindow == next
      && (next != st.poolWindow ==> TargetsAllBut(st2, nodeCount, cfg.windows[next].targetFraction))
  {
    NextWindowStartsNext(cfg, now);
    hide StartsNext;
    hide NextWindowUpTo;
    hide TargetsFor;
    hide ActiveWindowFrom;
    hide AssignShutdownTargets;
    hide AssignNodePools;
    var pooled := if st.inCorePool == map[] && cfg.strategy.FlexCorePool? then AssignNodePools(cfg, st, nodeCount) else st;
    assert pooled.poolWindow == st.poolWindow by { PoolsKeepTargets(cfg, st, nodeCount); }
    var moved := RetargetOnTransition(cfg, pooled, nodeCount, now);
    assert moved.poolWindow == st.poolWindow by { TransitionKeepsPoolWindow(cfg, pooled, nodeCount, now); }
    FractionIsTargeted(moved.(poolWindow := next), nodeCount, cfg.windows[next].targetFraction);
  }

  lemma PoolsKeepTargets(cfg: PolicyConfig, st: PolicyState, nodeCount: nat)
    ensures var p := AssignNodePools(cfg, st, nodeCount); p == st.(inCorePool := p.inCorePool)
  {
  }

  lemma TransitionKeepsPoolWindow(cfg: PolicyConfig, st: PolicyState, nodeCount: nat, now: real)
    requires now >= 0.0
    ensures RetargetOnTransition(cfg, st, nodeCount, now).poolWindow == st.poolWindow
  {
  }

  /** The pool leaves the targets alone if it is off, or if there are some and the same window starts
      next. */
  lemma PoolLeavesTargets(cfg: PolicyConfig, st: PolicyState, nodeCount: nat, now: real)
    requires now >= 0.0 && (!cfg.shutdownTargetPool || (StartsNext(cfg, now, st.poolWindow) && st.targeted != map[]))
    ensures RetargetPool(cfg, st, nodeCount, now) == st
  {
    if cfg.windows != [] { NextWindowStartsNext(cfg, now); }
    hide StartsNext;
    hide NextWindowUpTo;
  }

  /** Without the target pool, or while the same window starts next, targets are those of the
      transition; in particular they stay as they are while the same window is in reach. */
  lemma TargetsStayOtherwise(cfg: PolicyConfig, st: PolicyState, nodeCount: nat, now: real, current: int, near: int)
    requires now >= 0.0 && nodeCount > 0 && IsFirstCurrent(cfg, now, current) && IsFirstNear(cfg, now, near)
    requires !cfg.shutdownTargetPool || (StartsNext(cfg, now, st.poolWindow) && st.targeted != map[])
    ensures var st2, moves := Retarget(cfg, st, nodeCount, now), cfg.strategy.Simple? && current != st.activeWindow;
      && (moves && near >= 0 && cfg.windows[near].targetFraction >= 0.0 ==> TargetsAllBut(st2, nodeCount, cfg.windows[near].targetFraction))
      && (!moves || near == -1 ==> st2.targeted == st.targeted)
  {
    var pooled := if st.inCorePool == map[] && cfg.strategy.FlexCorePool? then AssignNodePools(cfg, st, nodeCount) else st;
    PoolsKeepTargets(cfg, st, nodeCount);
    TransitionRetargets(cfg, pooled, nodeCount, now, current, near);
    hide IsFirstCurrent;
    hide IsFirstNear;
    hide StartsNext;
    hide AssignNodePools;
    hide RetargetOnTransition;
    hide RetargetPool;
    hide TargetsAllBut;
    PoolLeavesTargets(cfg, RetargetOnTransition(cfg, pooled, nodeCount, now), nodeCount, now);
  }

  // ---- Malleable jobs make room ----------------------------------------------------------------

  /** A job gives up exactly the targeted nodes that it lists behind its minimum. */
  lemma TargetedSurplusIsExact(st: PolicyState, v: JobView, n: int)
    requires v.nodesMin >= 0
    ensures n in TargetedSurplus(st, v) <==> st.IsTargeted(n) && exists k :: v.nodesMin <= k < |v.assignedNodes| && v.assignedNodes[k] == n
  {
    if v.nodesMin < |v.assignedNodes| {
      var tail := v.assignedNodes[v.nodesMin..];
      if n in tail {
        var k := IndexIn(tail, n);
        assert v.assignedNodes[v.nodesMin + k] == n;
      }
      if k :| v.nodesMin <= k < |v.assignedNodes| && v.assignedNodes[k] == n { assert tail[k - v.nodesMin] == n; }
    }
  }

  /** The job keeps exactly the nodes that are not targeted, and the targeted ones among the first
      that make up its minimum. */
  ghost predicate MadeRoom(st: PolicyState, v: JobView, w: JobView)
    requires v.nodesMin >= 0
  {
    forall n :: n in w.assignedNodes <==> n in v.assignedNodes && (!st.IsTargeted(n) || forall k :: v.nodesMin <= k < |v.assignedNodes| ==> v.assignedNodes[k] != n)
  }

  lemma RemovingMakesRoom(st: PolicyState, v: JobView)
    requires v.nodesMin >= 0 && Distinct(v.assignedNodes)
    ensures var ns := TargetedSurplus(st, v); MadeRoom(st, v, if ns == [] then v else v.RemoveNodes(ns))
  {
    var ns := TargetedSurplus(st, v);
    TargetedSurplusIsSurplus(st, v);
    RemoveEachDistinct(v.assignedNodes, ns);
    forall n ensures n in ns <==> st.IsTargeted(n) && exists k :: v.nodesMin <= k < |v.assignedNodes| && v.assignedNodes[k] == n {
      TargetedSurplusIsExact(st, v, n);
    }
    hide TargetedSurplus;
  }

  lemma {:induction false} EachShrinksOnce(st: PolicyState, s: Sys, order: seq<int>, j: int)
    requires Distinct(order) && (forall k :: k in order ==> 0 <= k < |s.jobs|) && 0 <= j < |s.jobs|
    ensures var v := s.jobs[j]; var ns := TargetedSurplus(st, v);
      ShrinkTargeted(st, s, order).jobs[j] == if j in order && ns != [] then v.RemoveNodes(ns) else v
    decreases |order|
  {
    hide TargetedSurplus;
    if order != [] {
      var k, tail := order[0], order[1..];
      assert k in order && (forall x :: x in tail ==> x in order) && k !in tail && order == [k] + tail;
      var ns := TargetedSurplus(st, s.jobs[k]);
      EachShrinksOnce(st, if ns == [] then s else s.ShrinkBy(k, ns), tail, j);
    }
  }

  lemma ShrinkingMakesRoom(st: PolicyState, s: Sys, order: seq<int>, j: int)
    requires Distinct(order) && (forall k :: k in order ==> 0 <= k < |s.jobs|) && 0 <= j < |s.jobs|
    requires s.jobs[j].nodesMin >= 0 && Distinct(s.jobs[j].assignedNodes)
    ensures var t := ShrinkTargeted(st, s, order); if j in order then MadeRoom(st, s.jobs[j], t.jobs[j]) else t.jobs[j] == s.jobs[j]
  {
    EachShrinksOnce(st, s, order, j);
    RemovingMakesRoom(st, s.jobs[j]);
  }

  /** The targets by which jobs make room: those there are, else those of the window. */
  ghost function RoomTargets(cfg: PolicyConfig, st: PolicyState, nodeCount: nat, w: int): PolicyState
    requires 0 <= w < |cfg.windows|
  {
    if st.targeted == map[] then st.(targeted := TargetsFor(nodeCount, cfg.windows[w].targetFraction)) else st
  }

  /** While the policy is active, every running malleable job makes room exactly if some window is
      open or close enough, and nobody else gives up anything. */
  lemma JobsMakeRoomExactlyIf(cfg: PolicyConfig, st: PolicyState, s: Sys, now: real, w: int, j: int)
    requires now >= 0.0 && cfg.loaded && cfg.malleableShrinkToTarget && cfg.IsActiveAt(now) && IsFirstWantingRoom(cfg, now, w)
    requires 0 <= j < |s.jobs| && s.jobs[j].nodesMin >= 0 && Distinct(s.jobs[j].assignedNodes) && s.nodes != []
    ensures var t := ApplyMalleablePolicy(cfg, st, s, now).1;
      if w >= 0 && IsRunningMalleable(s.jobs[j]) then MadeRoom(RoomTargets(cfg, st, |s.nodes|, w), s.jobs[j], t.jobs[j]) else t.jobs[j] == s.jobs[j]
  {
    ShrinkWindowIsFirst(cfg, now, 0);
    assert ShrinkWindowFrom(cfg, now, 0) == w;
    hide IsFirstWantingRoom;
    hide ShrinkWindowFrom;
    hide UpdateNodeStates;
    hide ShrinkTargeted;
    hide ShrinksAny;
    hide MadeRoom;
    if w >= 0 {
      assert 0 in TargetsFor(|s.nodes|, cfg.windows[w].targetFraction);
      hide TargetsFor;
      var order := ShrinkOrder(cfg, s);
      assert j in order <==> IsRunningMalleable(s.jobs[j]);
      hide ShrinkOrder;
      ShrinkingMakesRoom(RoomTargets(cfg, st, |s.nodes|, w), s, order, j);
    }
  }

  /** An invocation first brings the progress of running jobs up to date; then, if the policy asks
      for it, malleable jobs make room by the targets of this invocation. */
  lemma InvocationMakesRoom(cfg: PolicyConfig, st: PolicyState, s: Sys, now: real, w: int, j: int)
    requires now >= 0.0 && cfg.loaded && cfg.malleableShrinkToTarget && cfg.IsActiveAt(now) && IsFirstWantingRoom(cfg, now, w)
    requires 0 <= j < |s.jobs| && s.jobs[j].nodesMin >= 0 && Distinct(s.jobs[j].assignedNodes) && s.nodes != []
    ensures var t, targets := Prepare(cfg, st, s, now).1, Update(cfg, st, s.nodes, now).0;
      && (w >= 0 && IsRunningMalleable(s.jobs[j]) ==> MadeRoom(RoomTargets(cfg, targets, |s.nodes|, w), s.jobs[j], t.jobs[j]))
      && (w == -1 || !IsRunningMalleable(s.jobs[j]) ==> t.jobs[j].assignedNodes == s.jobs[j].assignedNodes)
  {
    hide Update;
    hide ApplyMalleablePolicy;
    hide MadeRoom;
    var s1 := UpdateRunningPredictions(s, now);
    var (policy1, nodes1) := Update(cfg, st, s1.nodes, now);
    JobsMakeRoomExactlyIf(cfg, policy1, s1.(nodes := nodes1), now, w, j);
    if w >= 0 { SameRoom(RoomTargets(cfg, policy1, |s.nodes|, w), s.jobs[j], s1.jobs[j], Prepare(cfg, st, s, now).1.jobs[j]); }
  }

  lemma SameRoom(st: PolicyState, v: JobView, u: JobView, w: JobView)
    requires v.nodesMin >= 0 && u.nodesMin == v.nodesMin && u.assignedNodes == v.assignedNodes
    ensures MadeRoom(st, u, w) <==> MadeRoom(st, v, w)
  {
  }
}
