/** The malleable strategies as they run: loops over mutable lists that start, shrink and grow
    jobs and update the agreement maps in place. Every method is proved to do to the objects what
    the corresponding function does to values. */
module MalleableScheduling {
  import opened Sequences
  import opened RuntimePrediction
  import opened ClusterState
  import opened ClusterInvariant
  import opened ShutdownPolicy
  import opened AgreementMaps
  import opened AgreementHandlers
  import opened ClusterObjects
  import opened Cluster
  import ShutdownManagers
  import opened SchedulingRound
  import opened RoundInvariant
  import opened RoundProperties

  /** The vectors that a round hands from phase to phase. */
  datatype Lists = Lists(pending: seq<int>, free: seq<int>, started: seq<int>)

  class MalleableScheduler {
    const strategy: Strategy
    const agreements: AgreementHandler
    const cluster: Cluster
    const shutdownPolicy: ShutdownManagers.ShutdownPolicyManager

    constructor (strategy: Strategy, cluster: Cluster, shutdownPolicy: ShutdownManagers.ShutdownPolicyManager)
      ensures this.strategy == strategy && this.cluster == cluster && this.shutdownPolicy == shutdownPolicy
      ensures fresh(agreements) && agreements.View() == NO_AGREEMENTS
    {
      this.strategy, this.cluster, this.shutdownPolicy := strategy, cluster, shutdownPolicy;
      agreements := new AgreementHandler();
    }

    /** The state of a round: the cluster, the agreements, and the lists. */
    function View(l: Lists): Round
      reads agreements, cluster, cluster.nodes, cluster.jobQueue
    {
      Round(cluster.View(), agreements.View(), l.pending, l.free, l.started)
    }

    /** The objects are intact and the values satisfy the invariant of a round that began in
        state `s0`. */
    ghost predicate InRound(ctx: Ctx, s0: Sys, l: Lists, partial: int)
      reads agreements, cluster, cluster.nodes, cluster.cache, cluster.jobQueue
    {
      cluster.Valid() && RoundOk(strategy, ctx.cfg.loaded, s0, View(l), partial)
    }

    /** The round asks the policy manager, and no question changes a later answer. */
    ghost predicate Informed(ctx: Ctx)
      reads shutdownPolicy
    {
      && shutdownPolicy.cfg == ctx.cfg && shutdownPolicy.View() == ctx.policy
      && forall i :: 0 <= i < |cluster.nodes| ==> shutdownPolicy.HasFlag(i, ctx.now)
    }

    // ---- Node filters ------------------------------------------------------------------------

    method AcceptingNodes(ctx: Ctx, ns: seq<int>, runtime: real, ignoreTargetPool: bool) returns (r: seq<int>)
      requires cluster.Valid() && Informed(ctx)
      ensures r == Accepting(ctx, cluster.View().nodes, ns, runtime, ignoreTargetPool)
    {
      hide NodeViews;
      ghost var views := cluster.View().nodes;
      r := [];
      assert ns[..0] == [];
      for i := 0 to |ns|
        invariant r == Filter(n => Accepts(ctx, views, n, runtime, ignoreTargetPool), ns[..i])
      {
        assert ns[..i + 1][..i] == ns[..i];
        if 0 <= ns[i] < |cluster.nodes| {
          var accepts := shutdownPolicy.CanNodeAcceptJob(cluster.nodes[ns[i]].state, ns[i], runtime, ctx.now, ignoreTargetPool);
          if accepts {
            r := r + [ns[i]];
          }
        }
      }
      assert ns[..|ns|] == ns;
    }

    method FilterNodesForPendingAllocation(ctx: Ctx, j: int, ns: seq<int>, plannedNodes: int) returns (r: seq<int>)
      requires cluster.Valid() && Informed(ctx) && 0 <= j < |cluster.jobQueue| && plannedNodes > 0
      ensures r == EligibleForPending(ctx, cluster.View(), j, ns, plannedNodes)
    {
      r := AcceptingNodes(ctx, ns, PlannedRuntime(cluster.jobQueue[j].View(), plannedNodes), false);
    }

    method FilterNodesForRunningJob(ctx: Ctx, j: int, ns: seq<int>, plannedNodes: int) returns (r: seq<int>)
      requires cluster.Valid() && Informed(ctx) && 0 <= j < |cluster.jobQueue|
      requires plannedNodes > 0 && cluster.jobQueue[j].prediction.Prediction?
      ensures r == EligibleForRunning(ctx, cluster.View(), j, ns, plannedNodes)
    {
      r := AcceptingNodes(ctx, ns, PlannedRemainingRuntime(ctx, cluster.jobQueue[j].View(), plannedNodes), true);
    }

    method Without(ns: seq<int>, gone: seq<int>) returns (r: seq<int>)
      ensures r == RemoveEach(ns, gone)
    {
      r := ns;
      for i := 0 to |gone|
        invariant RemoveEach(r, gone[i..]) == RemoveEach(ns, gone)
      {
        assert gone[i..][0] == gone[i] && gone[i..][1..] == gone[i + 1..];
        r := RemoveFirst(r, gone[i]);
      }
      assert gone[|gone|..] == [];
    }

    // ---- Phase 1 -----------------------------------------------------------------------------

    method ApplyAgreement(l: Lists, j: int, ns: seq<int>, now: real) returns (after: Lists)
      requires cluster.Valid() && 0 <= j < |cluster.jobQueue| && cluster.jobQueue[j].state.Pending? && cluster.AreNumbers(ns)
      modifies cluster.jobQueue, cluster.nodes, cluster.cache`cacheValid
      ensures cluster.Valid() && View(after) == SchedulingRound.ApplyAgreement(old(View(l)), j, ns)
    {
      hide NodeViews;
      hide JobViews;
      cluster.StartJob(j, ns, now);
      var free := Without(l.free, ns);
      after := Lists(RemoveFirst(l.pending, j), free, l.started + [j]);
    }

    method ReservedFreeNodes(j: int, ns: seq<int>) returns (r: seq<int>)
      ensures r == ReservedFor(agreements.View(), j, ns)
    {
      ghost var view := agreements.View();
      r := [];
      assert ns[..0] == [];
      for i := 0 to |ns|
        invariant r == Filter(n => n in view.NodesOf(j), ns[..i])
      {
        assert ns[..i + 1][..i] == ns[..i];
        if j in agreements.jobToNodeIds && ns[i] in agreements.jobToNodeIds[j] {
          r := r + [ns[i]];
        }
      }
      assert ns[..|ns|] == ns;
    }

    method NodesByAgreement(ns: seq<int>) returns (withAgreement: seq<int>, without: seq<int>)
      ensures withAgreement == NodesWithAgreement(agreements.View(), ns) && without == NodesWithoutAgreement(agreements.View(), ns)
    {
      ghost var view := agreements.View();
      withAgreement, without := [], [];
      assert ns[..0] == [];
      for i := 0 to |ns|
        invariant withAgreement == Filter(n => view.HasNode(n), ns[..i]) && without == Filter(n => !view.HasNode(n), ns[..i])
      {
        assert ns[..i + 1][..i] == ns[..i];
        if ns[i] in agreements.nodeToJobId {
          withAgreement := withAgreement + [ns[i]];
        } else {
          without := without + [ns[i]];
        }
      }
      assert ns[..|ns|] == ns;
    }

    method JobsByAgreement(js: seq<int>) returns (withAgreement: seq<int>, without: seq<int>)
      ensures withAgreement == WithAgreement(agreements.View(), js) && without == JobsWithoutAgreement(agreements.View(), js)
    {
      ghost var view := agreements.View();
      withAgreement, without := [], [];
      assert js[..0] == [];
      for i := 0 to |js|
        invariant withAgreement == Filter(j => view.HasJob(j), js[..i]) && without == Filter(j => !view.HasJob(j), js[..i])
      {
        assert js[..i + 1][..i] == js[..i];
        if js[i] in agreements.jobToNodeIds {
          withAgreement := withAgreement + [js[i]];
        } else {
          without := without + [js[i]];
        }
      }
      assert js[..|js|] == js;
    }

    lemma FreeAreNumbers(free: seq<int>, ns: seq<int>)
      requires cluster.AreNumbers(free) && forall n :: n in ns ==> n in free
      ensures cluster.AreNumbers(ns)
    {
      forall k | 0 <= k < |ns| ensures 0 <= ns[k] < |cluster.nodes| {
        assert ns[k] in ns;
      }
    }

    /** What starting a pending job demands of the objects. */
    ghost predicate MayStart(l: Lists, j: int)
      reads cluster, cluster.nodes, cluster.cache, cluster.jobQueue
    {
      cluster.Valid() && 0 <= j < |cluster.jobQueue| && cluster.jobQueue[j].state.Pending? && cluster.AreNumbers(l.free)
    }

    method ResolveDirectOne(ctx: Ctx, l: Lists, j: int) returns (after: Lists)
      requires MayStart(l, j) && Informed(ctx) && agreements.View().NodesOf(j) != {}
      modifies agreements, cluster.jobQueue, cluster.nodes, cluster.cache`cacheValid
      ensures cluster.Valid() && View(after) == SchedulingRound.ResolveDirectOne(ctx, old(View(l)), j)
    {
      hide EligibleForPending;
      hide SchedulingRound.ApplyAgreement;
      hide Agreements.Remove;
      hide ReservedFor;
      hide Cluster.Valid;
      hide Cluster.View;
      after := l;
      var reserved := if j in agreements.jobToNodeIds then agreements.jobToNodeIds[j] else {};
      var freeAgreementNodes := ReservedFreeNodes(j, l.free);
      assert forall n :: n in freeAgreementNodes ==> n in l.free by { ReservedAreListed(agreements.View(), j, l.free); }
      FreeAreNumbers(l.free, freeAgreementNodes);
      if |freeAgreementNodes| == |reserved| {
        var eligible := FilterNodesForPendingAllocation(ctx, j, freeAgreementNodes, |reserved|);
        if |eligible| == |reserved| {
          after := ApplyAgreement(l, j, freeAgreementNodes, ctx.now);
          agreements.RemoveAgreement(j);
        } else {
          agreements.RemoveAgreement(j);
        }
      }
    }

    method AssignStolen(ctx: Ctx, l: Lists, j: int, freeAgreementNodes: seq<int>, nodesNeeded: nat) returns (after: Lists)
      requires MayStart(l, j) && Informed(ctx) && nodesNeeded > 0 && forall n :: n in freeAgreementNodes ==> n in l.free
      modifies agreements, cluster.jobQueue, cluster.nodes, cluster.cache`cacheValid
      ensures cluster.Valid() && View(after) == SchedulingRound.AssignStolen(ctx, old(View(l)), j, freeAgreementNodes, nodesNeeded)
    {
      hide EligibleForPending;
      hide SchedulingRound.ApplyAgreement;
      hide Cluster.Valid;
      hide Cluster.View;
      after := l;
      var nodesToAssign := ReservedFreeNodes(j, freeAgreementNodes);
      if |nodesToAssign| < nodesNeeded {
        return;
      }
      FreeAreNumbers(l.free, nodesToAssign);
      var eligible := FilterNodesForPendingAllocation(ctx, j, nodesToAssign, nodesNeeded);
      if |eligible| != nodesNeeded {
        agreements.RemoveAgreement(j);
        return;
      }
      after := ApplyAgreement(l, j, nodesToAssign, ctx.now);
      agreements.RemoveAgreement(j);
    }

    method ResolveStealOne(ctx: Ctx, l: Lists, j: int) returns (after: Lists)
      requires MayStart(l, j) && Informed(ctx) && agreements.View().NodesOf(j) != {}
      modifies agreements, cluster.jobQueue, cluster.nodes, cluster.cache`cacheValid
      ensures cluster.Valid() && View(after) == SchedulingRound.ResolveStealOne(ctx, old(View(l)), j)
    {
      hide SchedulingRound.AssignStolen;
      hide Cluster.Valid;
      hide Cluster.View;
      after := l;
      var freeAgreementNodes, _ := NodesByAgreement(l.free);
      var nodesNeeded := if j in agreements.jobToNodeIds then |agreements.jobToNodeIds[j]| else 0;
      if nodesNeeded > |freeAgreementNodes| {
        return;
      }
      agreements.StealAgreementNodes(j, freeAgreementNodes);
      after := AssignStolen(ctx, l, j, freeAgreementNodes, nodesNeeded);
    }

    method ResolvePoolOne(ctx: Ctx, l: Lists, j: int) returns (after: Lists)
      requires MayStart(l, j) && Informed(ctx) && agreements.View().NodesOf(j) != {}
      modifies agreements, cluster.jobQueue, cluster.nodes, cluster.cache`cacheValid
      ensures cluster.Valid() && View(after) == SchedulingRound.ResolvePoolOne(ctx, old(View(l)), j)
    {
      hide NodeViews;
      hide JobViews;
      hide SchedulingRound.ApplyAgreement;
      hide EligibleForPending;
      hide Agreements.SelectFromPool;
      hide Agreements.FinalizePool;
      hide Cluster.Valid;
      hide Cluster.View;
      after := l;
      var nodesNeeded := if j in agreements.jobToNodeIds then |agreements.jobToNodeIds[j]| else 0;
      if nodesNeeded > |l.free| {
        return;
      }
      var eligible := FilterNodesForPendingAllocation(ctx, j, l.free, nodesNeeded);
      var nodesToAssign := agreements.SelectNodesFromPool(j, eligible);
      if |nodesToAssign| < nodesNeeded {
        return;
      }
      JobCount();
      PoolPicksEligible(agreements.View(), j, eligible);
      EligibleAreFree(ctx, cluster.View(), j, l.free, nodesNeeded);
      FreeAreNumbers(l.free, nodesToAssign);
      after := ApplyAgreement(l, j, nodesToAssign, ctx.now);
      agreements.FinalizePoolAssignments(j, nodesToAssign);
    }
  
    method ResolveOne(ctx: Ctx, l: Lists, j: int) returns (after: Lists)
      requires MayStart(l, j) && Informed(ctx) && agreements.View().NodesOf(j) != {}
      modifies agreements, cluster.jobQueue, cluster.nodes, cluster.cache`cacheValid
      ensures cluster.Valid() && View(after) == SchedulingRound.ResolveOne(strategy, ctx, old(View(l)), j)
    {
      hide SchedulingRound.ResolveDirectOne;
      hide SchedulingRound.ResolveStealOne;
      hide SchedulingRound.ResolvePoolOne;
      hide Cluster.Valid;
      hide Cluster.View;
      match strategy {
        case MinAgreement => after := ResolveDirectOne(ctx, l, j);
        case MinStealAgreement => after := ResolveStealOne(ctx, l, j);
        case MinCommonPool => after := ResolvePoolOne(ctx, l, j);
        case PrefStealAgreement => after := ResolveStealOne(ctx, l, j);
      }
    }

    method ShouldStop(l: Lists) returns (stop: bool)
      ensures stop == StopsResolving(strategy, View(l))
    {
      if strategy.MinAgreement? {
        return false;
      }
      if l.free == [] {
        return true;
      }
      if strategy.MinCommonPool? {
        return false;
      }
      var freeAgreementNodes, _ := NodesByAgreement(l.free);
      return freeAgreementNodes == [];
    }

    /** In a round, pending jobs can be started on the free nodes. */
    lemma RoundMayStart(ctx: Ctx, s0: Sys, l: Lists, j: int)
      requires InRound(ctx, s0, l, -1) && j in l.pending
      ensures MayStart(l, j) && cluster.jobQueue[j].View() == View(l).sys.jobs[j]
    {
      forall k | 0 <= k < |l.free| ensures 0 <= l.free[k] < |cluster.nodes| {
        assert l.free[k] in l.free;
        assert Available(View(l).sys, l.free[k]);
      }
    }

    lemma RoundIsIndexed(ctx: Ctx, s0: Sys, l: Lists, targets: seq<int>)
      requires InRound(ctx, s0, l, -1)
      ensures View(l).Indexed()
      ensures targets == WithAgreement(agreements.View(), l.pending) ==> Targets(View(l), targets)
    {
      if targets == WithAgreement(agreements.View(), l.pending) { TargetsAtStart(ctx, s0, View(l), targets); }
    }

    /** The loop over the pending jobs that hold reservations. */
    method ResolveAgreements(ctx: Ctx, ghost s0: Sys, l: Lists) returns (after: Lists)
      requires InRound(ctx, s0, l, -1) && Informed(ctx)
      modifies agreements, cluster.jobQueue, cluster.nodes, cluster.cache`cacheValid
      ensures InRound(ctx, s0, after, -1) && View(after) == ResolvePhase(strategy, ctx, old(View(l)))
    {
      hide Cluster.Valid;
      hide Cluster.View;
      hide RoundOk;
      hide Resolve;
      hide SchedulingRound.ResolveOne;
      hide StopsResolving;
      hide WithAgreement;
      hide MayStart;
      var targets, _ := JobsByAgreement(l.pending);
      ghost var r0 := View(l);
      RoundIsIndexed(ctx, s0, l, targets);
      after := l;
      assert targets[0..] == targets;
      var i := 0;
      while i < |targets|
        invariant i <= |targets| && InRound(ctx, s0, after, -1) && Targets(View(after), targets[i..])
        invariant Resolve(strategy, ctx, View(after), targets[i..]) == Resolve(strategy, ctx, r0, targets)
      {
        var stop := ShouldStop(after);
        ResolveStep(strategy, ctx, s0, View(after), targets[i..]);
        if stop {
          return;
        }
        assert targets[i..][0] == targets[i] && targets[i..][1..] == targets[i + 1..];
        RoundMayStart(ctx, s0, after, targets[i]);
        after := ResolveOne(ctx, after, targets[i]);
        i := i + 1;
      }
      ResolveStep(strategy, ctx, s0, View(after), targets[i..]);
    }

    // ---- Phase 2 -----------------------------------------------------------------------------

    /** Walk over the running jobs until enough nodes are gathered. */
    method GatherNodes(ctx: Ctx, running: seq<int>, nodesNeeded: int) returns (needed: int, start: real)
      requires cluster.Valid() && HavePredictions(cluster.View(), running)
      ensures (needed, start) == HeadStart(ctx, cluster.View(), running, nodesNeeded, ctx.now)
    {
      hide NodeViews;
      hide JobViews;
      hide CurrentRemainingRuntime;
      ghost var sys := cluster.View();
      needed, start := nodesNeeded, ctx.now;
      var i := 0;
      assert running[0..] == running;
      while i < |running| && needed > 0
        invariant i <= |running| && HavePredictions(sys, running[i..])
        invariant HeadStart(ctx, sys, running[i..], needed, start) == HeadStart(ctx, sys, running, nodesNeeded, ctx.now)
      {
        assert running[i..][0] == running[i] && running[i..][1..] == running[i + 1..] && running[i] in running;
        SuffixHavePredictions(sys, running, i + 1);
        var v := cluster.jobQueue[running[i]].View();
        needed := needed - |v.assignedNodes|;
        start := ctx.now + CurrentRemainingRuntime(ctx, v);
        i := i + 1;
      }
    }

    /** Would starting the job push the head of the queue back? */
    method DelaysHead(ctx: Ctx, j: int, head: int, freeForHead: int, running: seq<int>) returns (delays: bool)
      requires cluster.Valid() && 0 <= j < |cluster.jobQueue| && 0 <= head < |cluster.jobQueue|
      requires cluster.jobQueue[head].nodesMin > 0 && HavePredictions(cluster.View(), running)
      ensures delays == SchedulingRound.DelaysHead(ctx, cluster.View(), j, head, freeForHead, running)
    {
      hide NodeViews;
      hide HeadStart;
      hide PlannedRuntime;
      if j == head {
        return false;
      }
      assert cluster.jobQueue[j].View() == cluster.View().jobs[j] && cluster.jobQueue[head].View() == cluster.View().jobs[head];
      var needed, start := GatherNodes(ctx, running, cluster.jobQueue[j].nodesMin - freeForHead);
      delays := needed <= 0 && start < PlannedRuntime(cluster.jobQueue[head].View(), cluster.jobQueue[head].nodesMin);
    }

    lemma JobCount()
      ensures |cluster.View().jobs| == |cluster.jobQueue| && |cluster.View().nodes| == |cluster.nodes|
    {
    }

    lemma QueueIsIndexed(l: Lists, i: nat)
      requires i < |l.pending| && MayStart(l, l.pending[i]) && View(l).Indexed()
      ensures cluster.Valid() && cluster.AreNumbers(l.free)
      ensures 0 <= l.pending[i] < |cluster.jobQueue| && 0 <= l.pending[0] < |cluster.jobQueue|
      ensures cluster.jobQueue[l.pending[i]].View() == View(l).sys.jobs[l.pending[i]]
      ensures cluster.jobQueue[l.pending[0]].View() == View(l).sys.jobs[l.pending[0]]
    {
      assert l.pending[i] in l.pending && l.pending[0] in l.pending;
    }

    method StartAt(l: Lists, i: nat, ns: seq<int>, now: real) returns (after: Lists)
      requires i < |l.pending| && MayStart(l, l.pending[i]) && View(l).Indexed() && cluster.AreNumbers(ns)
      modifies cluster.jobQueue, cluster.nodes, cluster.cache`cacheValid
      ensures cluster.Valid() && View(after) == BackfillStart(old(View(l)), i, ns)
    {
      hide Cluster.Valid;
      hide Cluster.View;
      cluster.StartJob(l.pending[i], ns, now);
      var free := Without(l.free, ns);
      after := Lists(l.pending[..i] + l.pending[i + 1..], free, l.started + [l.pending[i]]);
    }

    method BackfillAtMinimum(ctx: Ctx, l: Lists, i: nat, running: seq<int>) returns (after: Lists)
      requires i < |l.pending| && MayStart(l, l.pending[i]) && View(l).Indexed() && Informed(ctx)
      requires Plannable(View(l), i, running)
      modifies cluster.jobQueue, cluster.nodes, cluster.cache`cacheValid
      ensures cluster.Valid() && View(after) == SchedulingRound.BackfillAtMinimum(ctx, old(View(l)), i, running)
    {
      hide EligibleForPending;
      hide SchedulingRound.DelaysHead;
      hide BackfillStart;
      hide MayStart;
      hide Cluster.Valid;
      hide Cluster.View;
      hide Cluster.AreNumbers;
      after := l;
      QueueIsIndexed(l, i);
      var job, head := l.pending[i], l.pending[0];
      var reqNodes, headNodes := cluster.jobQueue[job].nodesMin, cluster.jobQueue[head].nodesMin;
      var eligible := FilterNodesForPendingAllocation(ctx, job, l.free, reqNodes);
      if reqNodes <= |eligible| {
        var forHead := FilterNodesForPendingAllocation(ctx, head, l.free, headNodes);
        var delayed := DelaysHead(ctx, job, head, |forHead|, running);
        if !delayed {
          JobCount();
          EligibleAreFree(ctx, cluster.View(), job, l.free, reqNodes);
          FreeAreNumbers(l.free, eligible[..reqNodes]);
          after := StartAt(l, i, eligible[..reqNodes], ctx.now);
        }
      }
    }

    /** Try the preferred size, then the minimum. */
    method PreferredStart(ctx: Ctx, j: int, free: seq<int>) returns (reqNodes: int, eligible: seq<int>)
      requires cluster.Valid() && Informed(ctx) && 0 <= j < |cluster.jobQueue| && HasSizes(cluster.jobQueue[j].View())
      ensures 0 <= j < |cluster.View().jobs| && HasSizes(cluster.View().jobs[j])
      ensures (reqNodes, eligible) == SchedulingRound.PreferredStart(ctx, cluster.View(), j, free)
    {
      assert cluster.jobQueue[j].View() == cluster.View().jobs[j];
      hide EligibleForPending;
      hide Cluster.Valid;
      hide Cluster.View;
      JobCount();
      var prefNodes, minNodes := cluster.jobQueue[j].nodesPref, cluster.jobQueue[j].nodesMin;
      eligible := FilterNodesForPendingAllocation(ctx, j, free, prefNodes);
      if prefNodes <= |eligible| {
        return prefNodes, eligible;
      }
      eligible := FilterNodesForPendingAllocation(ctx, j, free, minNodes);
      reqNodes := if minNodes <= |eligible| then minNodes else 0;
    }

    /** What the head of the queue could have now. */
    method PlanHead(ctx: Ctx, head: int, free: seq<int>) returns (freeForHead: int, headRuntime: real)
      requires cluster.Valid() && Informed(ctx) && 0 <= head < |cluster.jobQueue| && HasSizes(cluster.jobQueue[head].View())
      ensures 0 <= head < |cluster.View().jobs| && HasSizes(cluster.View().jobs[head])
      ensures (freeForHead, headRuntime) == HeadPlan(ctx, cluster.View(), head, free)
    {
      assert cluster.jobQueue[head].View() == cluster.View().jobs[head];
      hide Cluster.Valid;
      hide Cluster.View;
      hide PlannedRuntime;
      hide SchedulingRound.PreferredStart;
      var size, headEligible := PreferredStart(ctx, head, free);
      freeForHead := |headEligible|;
      headRuntime := if size > 0 then PlannedRuntime(cluster.jobQueue[head].View(), size) else 0.0;
    }

    /** Would starting the job on that many nodes push the head of the queue back? */
    method PreferredDelaysHead(ctx: Ctx, j: int, reqNodes: int, head: int, freeForHead: int, headRuntime: real, running: seq<int>) returns (delays: bool)
      requires cluster.Valid() && 0 <= j < |cluster.jobQueue| && 0 <= head < |cluster.jobQueue|
      requires HavePredictions(cluster.View(), running)
      ensures |cluster.View().jobs| == |cluster.jobQueue|
      ensures delays == SchedulingRound.PreferredDelaysHead(ctx, cluster.View(), j, reqNodes, head, (freeForHead, headRuntime), running)
    {
      hide Cluster.Valid;
      hide Cluster.View;
      hide HeadStart;
      JobCount();
      if j == head || headRuntime <= 0.0 {
        return false;
      }
      var needed, start := GatherNodes(ctx, running, reqNodes - freeForHead);
      delays := needed <= 0 && start < headRuntime;
    }

    method BackfillPreferred(ctx: Ctx, l: Lists, i: nat, running: seq<int>) returns (after: Lists)
      requires i < |l.pending| && MayStart(l, l.pending[i]) && View(l).Indexed() && Informed(ctx)
      requires Plannable(View(l), i, running)
      modifies cluster.jobQueue, cluster.nodes, cluster.cache`cacheValid
      ensures cluster.Valid() && View(after) == SchedulingRound.BackfillPreferred(ctx, old(View(l)), i, running)
    {
      hide SchedulingRound.PreferredStart;
      hide SchedulingRound.PreferredDelaysHead;
      hide HeadPlan;
      hide BackfillStart;
      hide MayStart;
      hide Cluster.Valid;
      hide Cluster.View;
      hide Cluster.AreNumbers;
      after := l;
      QueueIsIndexed(l, i);
      var job, head := l.pending[i], l.pending[0];
      var reqNodes, eligible := PreferredStart(ctx, job, l.free);
      if 0 < reqNodes <= |eligible| {
        var freeForHead, headRuntime := PlanHead(ctx, head, l.free);
        var delayed := PreferredDelaysHead(ctx, job, reqNodes, head, freeForHead, headRuntime, running);
        if !delayed {
          PreferredAreFree(ctx, cluster.View(), job, l.free);
          FreeAreNumbers(l.free, eligible[..reqNodes]);
          after := StartAt(l, i, eligible[..reqNodes], ctx.now);
        }
      }
    }

    method BackfillOne(ctx: Ctx, l: Lists, i: nat, running: seq<int>) returns (after: Lists)
      requires i < |l.pending| && MayStart(l, l.pending[i]) && View(l).Indexed() && Informed(ctx)
      requires Plannable(View(l), i, running)
      modifies cluster.jobQueue, cluster.nodes, cluster.cache`cacheValid
      ensures cluster.Valid() && View(after) == SchedulingRound.BackfillOne(strategy, ctx, old(View(l)), i, running)
    {
      hide SchedulingRound.BackfillAtMinimum;
      hide SchedulingRound.BackfillPreferred;
      hide Cluster.Valid;
      hide Cluster.View;
      if strategy.Prefers() {
        after := BackfillPreferred(ctx, l, i, running);
      } else {
        after := BackfillAtMinimum(ctx, l, i, running);
      }
    }

    method Backfill(ctx: Ctx, ghost s0: Sys, l: Lists, running: seq<int>) returns (after: Lists)
      requires InRound(ctx, s0, l, -1) && Unreserved(View(l)) && View(l).Indexed() && Informed(ctx)
      requires RanAtStart(s0, running) && forall k :: k in running ==> 0 <= k < |View(l).sys.jobs|
      modifies cluster.jobQueue, cluster.nodes, cluster.cache`cacheValid
      ensures InRound(ctx, s0, after, -1) && Unreserved(View(after)) && View(after) == AllocatePhase(strategy, ctx, old(View(l)), running)
    {
      hide Cluster.Valid;
      hide Cluster.View;
      hide RoundOk;
      hide SchedulingRound.BackfillOne;
      hide SchedulingRound.Backfill;
      hide MayStart;
      hide Unreserved;
      after := l;
      if l.pending == [] || l.free == [] {
        return;
      }
      ghost var r0 := View(l);
      AllocateIsBackfill(strategy, ctx, s0, r0, running);
      var i := 0;
      BackfillStep(strategy, ctx, s0, View(after), i, running);
      while i < |after.pending| && after.free != []
        invariant InRound(ctx, s0, after, -1) && Unreserved(View(after)) && View(after).Indexed()
        invariant HavePredictions(View(after).sys, running)
        invariant SchedulingRound.Backfill(strategy, ctx, View(after), i, running) == SchedulingRound.Backfill(strategy, ctx, r0, 0, running)
        decreases |after.pending| - i
      {
        BackfillStep(strategy, ctx, s0, View(after), i, running);
        assert after.pending[i] in after.pending;
        RoundMayStart(ctx, s0, after, after.pending[i]);
        after := BackfillOne(ctx, after, i, running);
        i := i + 1;
      }
      BackfillStep(strategy, ctx, s0, View(after), i, running);
    }

    // ---- Phase 3 -----------------------------------------------------------------------------

    /** The numbers of the job's nodes beyond the given size. */
    ghost function Above(j: int, aim: Aim): seq<int>
      requires 0 <= j < |cluster.jobQueue| && 0 <= aim.Of(cluster.jobQueue[j].View()) <= |cluster.jobQueue[j].assignedNodes|
      reads cluster, cluster.jobQueue
    {
      Ids(cluster.jobQueue[j].assignedNodes)[aim.Of(cluster.jobQueue[j].View())..]
    }

    lemma SurplusOfJob(j: int, aim: Aim)
      requires cluster.Valid() && 0 <= j < |cluster.jobQueue| && aim.Of(cluster.jobQueue[j].View()) >= 0
      ensures var job := cluster.jobQueue[j];
        Surplus(cluster.View(), agreements.View(), j, aim)
        == if |job.assignedNodes| <= aim.Of(job.View()) then [] else NodesWithoutAgreement(agreements.View(), Above(j, aim))
    {
    }

    /** How many nodes above the job's minimum are unreserved. */
    method GetAvailableNodesForShrinking(j: int) returns (count: int)
      requires cluster.Valid() && 0 <= j < |cluster.jobQueue| && cluster.jobQueue[j].nodesMin >= 0
      ensures count == |Surplus(cluster.View(), agreements.View(), j, ToMin)|
    {
      hide Cluster.Valid;
      hide Cluster.View;
      hide Surplus;
      hide NodesWithoutAgreement;
      var job := cluster.jobQueue[j];
      ghost var a := agreements.View();
      SurplusOfJob(j, ToMin);
      count := 0;
      if |job.assignedNodes| <= job.nodesMin {
        return;
      }
      ghost var above := Above(j, ToMin);
      UnreservedGrow(a, above, 0);
      for i := job.nodesMin to |job.assignedNodes|
        invariant count == |NodesWithoutAgreement(a, above[..i - job.nodesMin])|
      {
        UnreservedGrow(a, above, i - job.nodesMin);
        if job.assignedNodes[i].id !in agreements.nodeToJobId {
          count := count + 1;
        }
      }
      UnreservedGrow(a, above, |above|);
    }

    /** The first unreserved nodes beyond the given size, at most `limit`. */
    method TakeAbove(j: int, aim: Aim, limit: int) returns (nodesToRemove: seq<int>)
      requires cluster.Valid() && 0 <= j < |cluster.jobQueue| && 0 <= aim.Of(cluster.jobQueue[j].View()) < |cluster.jobQueue[j].assignedNodes| && limit >= 0
      ensures var surplus := Surplus(cluster.View(), agreements.View(), j, aim);
        nodesToRemove == surplus[..if limit < |surplus| then limit else |surplus|]
    {
      hide Cluster.Valid;
      hide Cluster.View;
      hide Surplus;
      hide NodesWithoutAgreement;
      hide Ids;
      var job := cluster.jobQueue[j];
      var size := aim.Of(job.View());
      ghost var a := agreements.View();
      SurplusOfJob(j, aim);
      nodesToRemove := [];
      ghost var above := Above(j, aim);
      UnreservedGrow(a, above, 0);
      var i := size;
      while i < |job.assignedNodes| && |nodesToRemove| < limit
        invariant size <= i <= |job.assignedNodes|
        invariant nodesToRemove == NodesWithoutAgreement(a, above[..i - size]) && |nodesToRemove| <= limit
      {
        UnreservedGrow(a, above, i - size);
        if job.assignedNodes[i].id !in agreements.nodeToJobId {
          nodesToRemove := nodesToRemove + [job.assignedNodes[i].id];
        }
        i := i + 1;
      }
      UnreservedGrow(a, above, i - size);
    }

    /** The helper first counts what is available; the preferring strategy takes it right away. */
    method AllocateResourcesFromJob(j: int, requiredNodes: int, aim: Aim) returns (nodesToRemove: seq<int>)
      requires cluster.Valid() && 0 <= j < |cluster.jobQueue| && aim.Of(cluster.jobQueue[j].View()) >= 0
      ensures nodesToRemove == SchedulingRound.AllocateResourcesFromJob(cluster.View(), agreements.View(), j, requiredNodes, aim)
    {
      hide Cluster.Valid;
      hide Cluster.View;
      hide Surplus;
      hide NodesWithoutAgreement;
      var job := cluster.jobQueue[j];
      SurplusOfJob(j, aim);
      nodesToRemove := [];
      if requiredNodes <= 0 || |job.assignedNodes| <= aim.Of(job.View()) {
        return;
      }
      var nodesToTake := requiredNodes;
      if !strategy.Prefers() && aim.ToMin? {
        var available := GetAvailableNodesForShrinking(j);
        if available <= 0 {
          return;
        }
        nodesToTake := if requiredNodes < available then requiredNodes else available;
      }
      nodesToRemove := TakeAbove(j, aim, nodesToTake);
    }

    ghost predicate AreDonors(donors: seq<int>)
      reads cluster, cluster.jobQueue
    {
      forall j :: j in donors ==> 0 <= j < |cluster.jobQueue| && cluster.jobQueue[j].nodesMin >= 0 && cluster.jobQueue[j].nodesPref >= 0
    }

    method SelectShrinkJobs(orderedJobs: seq<int>, requiredNodes: int, aim: Aim) returns (jobsToShrink: seq<Donation>)
      requires cluster.Valid() && AreDonors(orderedJobs) && !aim.ToMax?
      ensures jobsToShrink == SchedulingRound.SelectShrinkJobs(cluster.View(), agreements.View(), orderedJobs, requiredNodes, aim)
    {
      hide Cluster.Valid;
      hide Cluster.View;
      hide SchedulingRound.AllocateResourcesFromJob;
      hide CollectDonations;
      hide SchedulingRound.SelectShrinkJobs;
      hide TotalDonated;
      hide Joined;
      ghost var s, a := cluster.View(), agreements.View();
      jobsToShrink := [];
      var nodesCollected := 0;
      var i := 0;
      CollectBegins(s, a, orderedJobs, requiredNodes, aim);
      while i < |orderedJobs| && nodesCollected < requiredNodes
        invariant i <= |orderedJobs| && nodesCollected == TotalDonated(jobsToShrink)
        invariant Joined(jobsToShrink, CollectDonations(s, a, orderedJobs[i..], requiredNodes - nodesCollected, aim))
               == CollectDonations(s, a, orderedJobs, requiredNodes, aim)
      {
        CollectStep(s, a, orderedJobs, i, requiredNodes - nodesCollected, jobsToShrink, aim);
        assert orderedJobs[i] in orderedJobs;
        var nodesToRemove := AllocateResourcesFromJob(orderedJobs[i], requiredNodes - nodesCollected, aim);
        if nodesToRemove != [] {
          jobsToShrink := jobsToShrink + [Donation(orderedJobs[i], nodesToRemove)];
          nodesCollected := nodesCollected + |nodesToRemove|;
        }
        i := i + 1;
      }
      CollectEnds(s, a, orderedJobs, i, requiredNodes, nodesCollected, jobsToShrink, aim);
      if nodesCollected < requiredNodes {
        jobsToShrink := [];
      }
    }

    /** The preferring strategy tries three times. */
    method SelectDonations(donors: seq<int>, pendingJob: int) returns (jobsToShrink: seq<Donation>)
      requires cluster.Valid() && AreDonors(donors) && 0 <= pendingJob < |cluster.jobQueue|
      ensures jobsToShrink
           == SchedulingRound.SelectDonations(strategy, cluster.View(), agreements.View(), donors, cluster.jobQueue[pendingJob].View())
    {
      hide Cluster.Valid;
      hide Cluster.View;
      hide SchedulingRound.SelectShrinkJobs;
      var job := cluster.jobQueue[pendingJob];
      if strategy.Prefers() {
        jobsToShrink := SelectShrinkJobs(donors, job.nodesPref, ToPref);
        if jobsToShrink == [] {
          jobsToShrink := SelectShrinkJobs(donors, job.nodesMin, ToPref);
        }
        if jobsToShrink == [] {
          jobsToShrink := SelectShrinkJobs(donors, job.nodesMin, ToMin);
        }
      } else {
        jobsToShrink := SelectShrinkJobs(donors, job.nodesMin, ToMin);
      }
    }

    method FilterForReservation(ctx: Ctx, pendingJob: int, rawNodes: seq<int>) returns (nodesToRemove: seq<int>)
      requires cluster.Valid() && Informed(ctx) && 0 <= pendingJob < |cluster.jobQueue|
      ensures nodesToRemove == SchedulingRound.FilterForReservation(ctx, cluster.View(), pendingJob, rawNodes)
    {
      hide Cluster.Valid;
      hide Cluster.View;
      ghost var s := cluster.View();
      JobCount();
      nodesToRemove := rawNodes;
      while nodesToRemove != []
        invariant SchedulingRound.FilterForReservation(ctx, s, pendingJob, nodesToRemove) == SchedulingRound.FilterForReservation(ctx, s, pendingJob, rawNodes)
        decreases |nodesToRemove|
      {
        var filteredNodes := FilterNodesForPendingAllocation(ctx, pendingJob, nodesToRemove, |nodesToRemove|);
        if |filteredNodes| == |nodesToRemove| {
          break;
        }
        nodesToRemove := filteredNodes;
      }
    }

    /** The donor can spare the nodes. */
    ghost predicate MayDonate(d: Donation)
      reads cluster, cluster.jobQueue
    {
      && 0 <= d.donor < |cluster.jobQueue| && cluster.AreNumbers(d.nodes) && Distinct(d.nodes)
      && |cluster.jobQueue[d.donor].assignedNodes| - |d.nodes| >= cluster.jobQueue[d.donor].nodesMin
      && forall n :: n in d.nodes ==> n in Ids(cluster.jobQueue[d.donor].assignedNodes)
    }

    lemma SpareNodes(d: Donation, ns: seq<int>)
      requires MayDonate(d) && Distinct(ns) && |ns| <= |d.nodes| && forall n :: n in ns ==> n in d.nodes
      ensures 0 <= d.donor < |cluster.jobQueue| && cluster.AreNumbers(ns) && Distinct(ns)
      ensures |cluster.jobQueue[d.donor].assignedNodes| - |ns| >= cluster.jobQueue[d.donor].nodesMin
      ensures forall n :: n in ns ==> n in Ids(cluster.jobQueue[d.donor].assignedNodes)
    {
      FreeAreNumbers(d.nodes, ns);
    }

    method ApplyDonation(ctx: Ctx, l: Lists, d: Donation, pendingJob: int)
      requires cluster.Valid() && Informed(ctx) && MayDonate(d) && Distinct(d.nodes) && 0 <= pendingJob < |cluster.jobQueue|
      modifies agreements, cluster.jobQueue, cluster.nodes, cluster.cache`cacheValid
      ensures cluster.Valid() && View(l) == SchedulingRound.ApplyDonation(ctx, old(View(l)), d, pendingJob)
    {
      hide Cluster.Valid;
      hide Cluster.View;
      hide SchedulingRound.FilterForReservation;
      hide Agreements.Add;
      hide Sys.ShrinkBy;
      hide MayDonate;
      hide Supports;
      JobCount();
      var nodesToRemove := FilterForReservation(ctx, pendingJob, d.nodes);
      FilterIsGreatest(ctx, cluster.View(), pendingJob, d.nodes);
      if nodesToRemove != [] {
        SpareNodes(d, nodesToRemove);
        agreements.AddAgreement(pendingJob, nodesToRemove);
        cluster.ShrinkJobBy(d.donor, nodesToRemove);
      }
    }

    lemma DonorIsAble(ctx: Ctx, s0: Sys, l: Lists, ds: seq<Donation>, p: int)
      requires cluster.Valid() && Donating(strategy, ctx.cfg.loaded, s0, View(l), ds, p) && ds != []
      ensures MayDonate(ds[0]) && Distinct(ds[0].nodes) && 0 <= p < |cluster.jobQueue|
    {
      hide Donating;
      hide NodeViews;
      var d := ds[0];
      FirstDonation(strategy, ctx.cfg.loaded, s0, View(l), ds, p);
      JobCount();
      assert View(l).sys.jobs[d.donor] == cluster.jobQueue[d.donor].View();
      forall k | 0 <= k < |d.nodes| ensures 0 <= d.nodes[k] < |cluster.nodes| { assert d.nodes[k] in d.nodes; }
    }

    /** The nodes that donors give up become reservations of the pending job. */
    method ApplyShrinking(ctx: Ctx, ghost s0: Sys, l: Lists, jobsToShrink: seq<Donation>, pendingJob: int)
      requires cluster.Valid() && Informed(ctx) && 0 <= pendingJob < |cluster.jobQueue|
      requires jobsToShrink != [] ==> Donating(strategy, ctx.cfg.loaded, s0, View(l), jobsToShrink, pendingJob)
      requires forall k :: 0 <= k < |jobsToShrink| ==> 0 <= jobsToShrink[k].donor < |cluster.jobQueue|
      modifies agreements, cluster.jobQueue, cluster.nodes, cluster.cache`cacheValid
      ensures cluster.Valid() && View(l) == SchedulingRound.ApplyShrinking(ctx, old(View(l)), jobsToShrink, pendingJob)
    {
      hide Cluster.Valid;
      hide Cluster.View;
      hide Donating;
      hide MayDonate;
      hide SchedulingRound.ApplyDonation;
      hide SchedulingRound.ApplyShrinking;
      ghost var r0 := View(l);
      JobCount();
      if jobsToShrink == [] {
        ShrinkEnds(ctx, r0, jobsToShrink, pendingJob);
        return;
      }
      var i := 0;
      assert jobsToShrink[0..] == jobsToShrink;
      while i < |jobsToShrink|
        invariant i <= |jobsToShrink| && cluster.Valid() && Donating(strategy, ctx.cfg.loaded, s0, View(l), jobsToShrink[i..], pendingJob)
        invariant DonorsListed(View(l), jobsToShrink[i..], pendingJob)
        invariant SchedulingRound.ApplyShrinking(ctx, View(l), jobsToShrink[i..], pendingJob) == SchedulingRound.ApplyShrinking(ctx, r0, jobsToShrink, pendingJob)
      {
        ShrinkStep(strategy, ctx, s0, View(l), jobsToShrink[i..], pendingJob);
        DonorIsAble(ctx, s0, l, jobsToShrink[i..], pendingJob);
        assert jobsToShrink[i..][0] == jobsToShrink[i] && jobsToShrink[i..][1..] == jobsToShrink[i + 1..];
        ApplyDonation(ctx, l, jobsToShrink[i], pendingJob);
        i := i + 1;
      }
      ShrinkEnds(ctx, View(l), jobsToShrink[i..], pendingJob);
    }

    lemma DonorsAreAble(ctx: Ctx, s0: Sys, l: Lists, donors: seq<int>)
      requires InRound(ctx, s0, l, -1) && forall j :: j in donors ==> 0 <= j < |View(l).sys.jobs|
      ensures AreDonors(donors)
    {
    }

    lemma WaitingIsPending(ctx: Ctx, s0: Sys, l: Lists, waiting: seq<int>, sorted: seq<int>, malleable: seq<int>)
      requires cluster.Valid() && Waiting(strategy, ctx.cfg.loaded, s0, View(l), waiting, sorted, malleable) && waiting != []
      ensures 0 <= waiting[0] < |cluster.jobQueue| && cluster.jobQueue[waiting[0]].View() == View(l).sys.jobs[waiting[0]]
      ensures AreDonors(DonorOrder(strategy, cluster.View(), sorted, malleable))
    {
      assert waiting[0] in waiting;
      DonorsAreAble(ctx, s0, l, DonorOrder(strategy, cluster.View(), sorted, malleable));
    }

    method ShrinkForOne(ctx: Ctx, ghost s0: Sys, l: Lists, ghost waiting: seq<int>, pendingJob: int, sorted: seq<int>, malleable: seq<int>)
      requires cluster.Valid() && Informed(ctx) && Waiting(strategy, ctx.cfg.loaded, s0, View(l), waiting, sorted, malleable)
      requires waiting != [] && waiting[0] == pendingJob
      modifies agreements, cluster.jobQueue, cluster.nodes, cluster.cache`cacheValid
      ensures cluster.Valid() && RoundIndices(old(View(l)), pendingJob, sorted, malleable)
      ensures View(l) == SchedulingRound.ShrinkForOne(strategy, ctx, old(View(l)), pendingJob, sorted, malleable)
    {
      hide Cluster.Valid;
      hide Cluster.View;
      hide Waiting;
      hide SchedulingRound.SelectDonations;
      hide SchedulingRound.ApplyShrinking;
      hide AreDonors;
      hide DonorOrder;
      hide Donating;
      JobCount();
      WaitingIsPending(ctx, s0, l, waiting, sorted, malleable);
      WaitingMayReserve(strategy, ctx, s0, View(l), waiting, sorted, malleable);
      var donors := DonorOrder(strategy, cluster.View(), sorted, malleable);
      var jobsToShrink := SelectDonations(donors, pendingJob);
      ApplyShrinking(ctx, s0, l, jobsToShrink, pendingJob);
    }

    /** Pending jobs without an agreement, one after the other, reserve what donors can spare. */
    method ShrinkForPending(ctx: Ctx, ghost s0: Sys, l: Lists, sorted: seq<int>, malleable: seq<int>)
      requires cluster.Valid() && Informed(ctx) && Waiting(strategy, ctx.cfg.loaded, s0, View(l), l.pending, sorted, malleable)
      requires WaitingIndices(View(l), l.pending, sorted, malleable)
      modifies agreements, cluster.jobQueue, cluster.nodes, cluster.cache`cacheValid
      ensures cluster.Valid() && View(l) == SchedulingRound.ShrinkForPending(strategy, ctx, old(View(l)), l.pending, sorted, malleable)
    {
      hide Cluster.Valid;
      hide Cluster.View;
      hide Waiting;
      hide SchedulingRound.ShrinkForOne;
      hide SchedulingRound.ShrinkForPending;
      var waiting := l.pending;
      ghost var r0 := View(l);
      assert waiting[0..] == waiting;
      var i := 0;
      while i < |waiting|
        invariant i <= |waiting| && cluster.Valid() && Waiting(strategy, ctx.cfg.loaded, s0, View(l), waiting[i..], sorted, malleable)
        invariant WaitingIndices(View(l), waiting[i..], sorted, malleable)
        invariant SchedulingRound.ShrinkForPending(strategy, ctx, View(l), waiting[i..], sorted, malleable)
               == SchedulingRound.ShrinkForPending(strategy, ctx, r0, waiting, sorted, malleable)
      {
        WaitingStep(strategy, ctx, s0, View(l), waiting[i..], sorted, malleable);
        assert waiting[i..][0] == waiting[i] && waiting[i..][1..] == waiting[i + 1..];
        ShrinkForOne(ctx, s0, l, waiting[i..], waiting[i], sorted, malleable);
        i := i + 1;
      }
      WaitingStep(strategy, ctx, s0, View(l), waiting[i..], sorted, malleable);
    }

    // ---- Phase 4 -----------------------------------------------------------------------------

    /** Count the target down until enough nodes accept the job at its new size. */
    method FindExpansion(ctx: Ctx, j: int, free: seq<int>, targetNodes: int) returns (addedNodes: seq<int>)
      requires cluster.Valid() && Informed(ctx) && 0 <= j < |cluster.jobQueue| && cluster.jobQueue[j].prediction.Prediction?
      ensures addedNodes == ExpansionFor(ctx, cluster.View(), j, free, targetNodes)
    {
      hide NodeViews;
      hide JobViews;
      hide EligibleForRunning;
      ghost var s := cluster.View();
      var currentNodes := |cluster.jobQueue[j].assignedNodes|;
      assert currentNodes == |s.jobs[j].assignedNodes|;
      hide Cluster.Valid;
      hide Cluster.View;
      addedNodes := [];
      var candidateTarget := targetNodes;
      while candidateTarget > currentNodes
        invariant ExpansionFor(ctx, s, j, free, candidateTarget) == ExpansionFor(ctx, s, j, free, targetNodes)
        decreases candidateTarget
      {
        var eligibleNodes := FilterNodesForRunningJob(ctx, j, free, candidateTarget);
        var candidateNodesToAdd := candidateTarget - currentNodes;
        if |eligibleNodes| >= candidateNodesToAdd {
          return eligibleNodes[..candidateNodesToAdd];
        }
        candidateTarget := candidateTarget - 1;
      }
    }

    /** What growing a job on free nodes demands of the objects. */
    ghost predicate MayGrow(l: Lists, j: int)
      reads cluster, cluster.nodes, cluster.cache, cluster.jobQueue
    {
      && cluster.Valid() && 0 <= j < |cluster.jobQueue| && cluster.AreNumbers(l.free) && Distinct(l.free)
      && !cluster.jobQueue[j].state.Pending? && cluster.jobQueue[j].kind.Malleable? && cluster.jobQueue[j].prediction.Prediction?
    }

    method Grow(l: Lists, j: int, addedNodes: seq<int>) returns (after: Lists)
      requires MayGrow(l, j) && Distinct(addedNodes) && forall n :: n in addedNodes ==> n in l.free
      modifies cluster.jobQueue, cluster.nodes, cluster.cache`cacheValid
      ensures cluster.Valid() && 0 <= j < |old(View(l)).sys.jobs| && View(after) == SchedulingRound.Grow(old(View(l)), j, addedNodes)
    {
      hide Cluster.Valid;
      hide Cluster.View;
      JobCount();
      after := l;
      if addedNodes != [] {
        FreeAreNumbers(l.free, addedNodes);
        cluster.ExpandJobBy(j, addedNodes);
        var free := Without(l.free, addedNodes);
        after := l.(free := free);
      }
    }

    method ExpandJob(ctx: Ctx, l: Lists, j: int, aim: Aim) returns (after: Lists)
      requires MayGrow(l, j) && Informed(ctx)
      modifies cluster.jobQueue, cluster.nodes, cluster.cache`cacheValid
      ensures cluster.Valid() && 0 <= j < |old(View(l)).sys.jobs| && View(after) == SchedulingRound.ExpandJob(strategy, ctx, old(View(l)), j, aim)
    {
      hide NodeViews;
      hide JobViews;
      hide ExpansionFor;
      hide SchedulingRound.Grow;
      assert cluster.jobQueue[j].View() == cluster.View().jobs[j];
      hide Cluster.Valid;
      hide Cluster.View;
      JobCount();
      var addedNodes := [];
      ExpandJobGrows(strategy, ctx, View(l), j, aim);
      hide SchedulingRound.ExpandJob;
      if l.free != [] {
        var currentNodes, targetNodes := |cluster.jobQueue[j].assignedNodes|, aim.Of(cluster.jobQueue[j].View());
        if !strategy.Prefers() && currentNodes + |l.free| < targetNodes {
          targetNodes := currentNodes + |l.free|;
        }
        addedNodes := FindExpansion(ctx, j, l.free, targetNodes);
        ExpansionFits(ctx, cluster.View(), j, l.free, targetNodes);
      }
      after := Grow(l, j, addedNodes);
    }

    lemma GrowingMayGrow(ctx: Ctx, s0: Sys, l: Lists, jobs: seq<int>)
      requires cluster.Valid() && Growing(strategy, ctx.cfg.loaded, s0, View(l), jobs) && jobs != []
      ensures MayGrow(l, jobs[0])
    {
      assert jobs[0] in jobs;
      ActiveIsSized(strategy, ctx.cfg.loaded, s0, View(l).sys, jobs[0]);
      assert cluster.jobQueue[jobs[0]].View() == View(l).sys.jobs[jobs[0]];
      forall k | 0 <= k < |l.free| ensures 0 <= l.free[k] < |cluster.nodes| {
        assert Available(View(l).sys, l.free[k]);
      }
    }

    method ExpandJobs(ctx: Ctx, ghost s0: Sys, l: Lists, jobs: seq<int>, aim: Aim) returns (after: Lists)
      requires cluster.Valid() && Informed(ctx) && Growing(strategy, ctx.cfg.loaded, s0, View(l), jobs) && InRange(View(l), jobs)
      modifies cluster.jobQueue, cluster.nodes, cluster.cache`cacheValid
      ensures cluster.Valid() && View(after) == SchedulingRound.ExpandJobs(strategy, ctx, old(View(l)), jobs, aim)
    {
      hide Cluster.Valid;
      hide Cluster.View;
      hide Growing;
      hide MayGrow;
      hide SchedulingRound.ExpandJob;
      hide SchedulingRound.ExpandJobs;
      ghost var r0 := View(l);
      after := l;
      assert jobs[0..] == jobs;
      var i := 0;
      while i < |jobs| && after.free != []
        invariant i <= |jobs| && cluster.Valid() && Growing(strategy, ctx.cfg.loaded, s0, View(after), jobs[i..]) && InRange(View(after), jobs[i..])
        invariant SchedulingRound.ExpandJobs(strategy, ctx, View(after), jobs[i..], aim) == SchedulingRound.ExpandJobs(strategy, ctx, r0, jobs, aim)
      {
        GrowingStep(strategy, ctx, s0, View(after), jobs[i..], aim);
        GrowingMayGrow(ctx, s0, after, jobs[i..]);
        assert jobs[i..][0] == jobs[i] && jobs[i..][1..] == jobs[i + 1..];
        after := ExpandJob(ctx, after, jobs[i], aim);
        i := i + 1;
      }
      GrowingStep(strategy, ctx, s0, View(after), jobs[i..], aim);
    }

    /** All malleable jobs grow towards the aim. */
    method ExpandTo(ctx: Ctx, ghost s0: Sys, l: Lists, malleable: seq<int>, aim: Aim) returns (after: Lists)
      requires InRound(ctx, s0, l, -1) && Informed(ctx) && forall n :: n in l.free ==> !agreements.View().HasNode(n)
      requires Donors(s0, malleable) && InRange(View(l), malleable)
      modifies cluster.jobQueue, cluster.nodes, cluster.cache`cacheValid
      ensures cluster.Valid() && View(after) == SchedulingRound.ExpandTo(strategy, ctx, old(View(l)), malleable, aim)
    {
      hide Cluster.Valid;
      hide Cluster.View;
      hide RoundOk;
      hide LeastSurplusFirst;
      hide SchedulingRound.ExpandJobs;
      after := l;
      if l.free != [] {
        after := ExpandJobs(ctx, s0, l, LeastSurplusFirst(cluster.View(), malleable, strategy.RankedBy()), aim);
      }
    }

    // ---- The round ---------------------------------------------------------------------------

    method GetPending() returns (pending: seq<int>)
      requires cluster.Valid()
      ensures pending == PendingJobs(cluster.View().jobs)
    {
      hide NodeViews;
      ghost var views := cluster.View().jobs;
      PendingBelow(views);
      pending := [];
      for j := 0 to |cluster.jobQueue|
        invariant pending == QueueBelow(views, IS_PENDING, j)
      {
        QueueBelowGrows(views, IS_PENDING, j);
        if cluster.jobQueue[j].state.Pending? {
          pending := pending + [j];
        }
      }
    }

    method GetRunning() returns (running: seq<int>)
      requires cluster.Valid()
      ensures running == RunningJobs(cluster.View().jobs)
    {
      hide NodeViews;
      ghost var views := cluster.View().jobs;
      RunningBelow(views);
      running := [];
      for j := 0 to |cluster.jobQueue|
        invariant running == QueueBelow(views, IS_RUNNING, j)
      {
        QueueBelowGrows(views, IS_RUNNING, j);
        if cluster.jobQueue[j].state.Running? {
          running := running + [j];
        }
      }
    }

    method GetRunningMalleable() returns (malleable: seq<int>)
      requires cluster.Valid()
      ensures malleable == RunningMalleable(cluster.View().jobs)
    {
      hide NodeViews;
      ghost var views := cluster.View().jobs;
      MalleableBelow(views);
      malleable := [];
      for j := 0 to |cluster.jobQueue|
        invariant malleable == QueueBelow(views, IS_MALLEABLE, j)
      {
        QueueBelowGrows(views, IS_MALLEABLE, j);
        if cluster.jobQueue[j].state.Running? && cluster.jobQueue[j].kind.Malleable? {
          malleable := malleable + [j];
        }
      }
    }

    /** The pending jobs and the free nodes when the round begins. */
    method BeginRound() returns (l: Lists)
      requires cluster.Valid()
      modifies cluster.cache
      ensures cluster.Valid() && View(l) == SchedulingRound.BeginRound(old(cluster.View()), old(agreements.View()))
    {
      hide NodeViews;
      hide JobViews;
      hide FreeNodes;
      hide PendingJobs;
      var pending := GetPending();
      var free := cluster.GetFreeNodes();
      l := Lists(pending, Ids(free), []);
    }

    method WithoutAgreements(l: Lists) returns (after: Lists)
      ensures View(after) == SchedulingRound.WithoutAgreements(View(l))
    {
      var _, pending := JobsByAgreement(l.pending);
      var _, free := NodesByAgreement(l.free);
      after := l.(pending := pending, free := free);
    }

    method ShrinkPhase(ctx: Ctx, ghost s0: Sys, l: Lists, malleable: seq<int>)
      requires InRound(ctx, s0, l, -1) && Unreserved(View(l)) && View(l).Indexed() && Informed(ctx)
      requires Donors(s0, malleable) && InRange(View(l), malleable)
      modifies agreements, cluster.jobQueue, cluster.nodes, cluster.cache`cacheValid
      ensures cluster.Valid() && View(l) == SchedulingRound.ShrinkPhase(strategy, ctx, old(View(l)), malleable)
    {
      hide Cluster.Valid;
      hide Cluster.View;
      hide RoundOk;
      hide MostSurplusFirst;
      hide SchedulingRound.ShrinkForPending;
      if l.pending == [] || malleable == [] {
        return;
      }
      var sorted := MostSurplusFirst(cluster.View(), malleable, strategy.RankedBy());
      assert Distinct(l.pending) by { RoundPendingIsDistinct(strategy, ctx.cfg.loaded, s0, View(l)); }
      ShrinkForPending(ctx, s0, l, sorted, malleable);
    }

    method ExpandPhase(ctx: Ctx, ghost s0: Sys, l: Lists, malleable: seq<int>) returns (after: Lists)
      requires InRound(ctx, s0, l, -1) && Informed(ctx) && forall n :: n in l.free ==> !agreements.View().HasNode(n)
      requires Donors(s0, malleable) && InRange(View(l), malleable)
      modifies cluster.jobQueue, cluster.nodes, cluster.cache`cacheValid
      ensures cluster.Valid() && View(after) == SchedulingRound.ExpandPhase(strategy, ctx, old(View(l)), malleable)
    {
      hide Cluster.Valid;
      hide Cluster.View;
      hide RoundOk;
      hide SchedulingRound.ExpandTo;
      after := l;
      if l.free == [] || malleable == [] {
        return;
      }
      if strategy.Prefers() {
        ExpandToKeeps(strategy, ctx, s0, View(l), malleable, ToPref);
        after := ExpandTo(ctx, s0, l, malleable, ToPref);
      }
      after := ExpandTo(ctx, s0, after, malleable, ToMax);
    }

    /** Phases 1 and 2. */
    method StartJobs(ctx: Ctx, ghost s0: Sys, running: seq<int>) returns (l: Lists)
      requires cluster.Valid() && s0 == cluster.View() && Settled(strategy, ctx.cfg.loaded, s0, agreements.View())
      requires Informed(ctx) && RanAtStart(s0, running)
      modifies agreements, cluster.jobQueue, cluster.nodes, cluster.cache
      ensures InRound(ctx, s0, l, -1) && Unreserved(View(l)) && View(l).Indexed() && |View(l).sys.jobs| == |s0.jobs|
      ensures View(l) == AllocatePhase(strategy, ctx, SchedulingRound.WithoutAgreements(ResolvePhase(strategy, ctx, SchedulingRound.BeginRound(s0, old(agreements.View())))), running)
    {
      hide Cluster.Valid;
      hide Cluster.View;
      hide RoundOk;
      hide Settled;
      hide Unreserved;
      hide SchedulingRound.BeginRound;
      hide SchedulingRound.ResolvePhase;
      hide SchedulingRound.WithoutAgreements;
      hide SchedulingRound.AllocatePhase;
      RoundBeginsOk(strategy, ctx.cfg.loaded, s0, agreements.View());
      l := BeginRound();
      ResolvePhaseKeeps(strategy, ctx, s0, View(l));
      l := ResolveAgreements(ctx, s0, l);
      l := WithoutAgreements(l);
      JobCount();
      l := Backfill(ctx, s0, l, running);
    }

    /** The whole round: the objects end as the round on values says. */
    method Schedule(ctx: Ctx) returns (scheduled: seq<int>)
      requires cluster.Valid() && Settled(strategy, ctx.cfg.loaded, cluster.View(), agreements.View()) && Informed(ctx)
      modifies agreements, cluster.jobQueue, cluster.nodes, cluster.cache
      ensures cluster.Valid()
      ensures var t := ScheduleRound(strategy, ctx, old(cluster.View()), old(agreements.View()));
        cluster.View() == t.sys && agreements.View() == t.agreements && scheduled == t.started
    {
      hide Cluster.Valid;
      hide Cluster.View;
      hide RoundOk;
      hide Settled;
      hide Unreserved;
      hide BySoonestEnd;
      hide RunningJobs;
      hide RunningMalleable;
      hide SchedulingRound.BeginRound;
      hide SchedulingRound.ResolvePhase;
      hide SchedulingRound.WithoutAgreements;
      hide SchedulingRound.AllocatePhase;
      hide SchedulingRound.ShrinkPhase;
      hide SchedulingRound.ExpandPhase;
      ghost var s0 := cluster.View();
      JobCount();
      var running := GetRunning();
      running := BySoonestEnd(ctx, cluster.View(), running);
      assert running == SoonestEndFirst(ctx, s0);
      var malleable := GetRunningMalleable();
      var l := StartJobs(ctx, s0, running);
      ShrinkPhaseKeeps(strategy, ctx, s0, View(l), malleable);
      ShrinkPhase(ctx, s0, l, malleable);
      l := ExpandPhase(ctx, s0, l, malleable);
      scheduled := l.started;
    }
  }

  /** The jobs still to be resolved are pending and hold reservations. */
  ghost predicate Targets(r: Round, targets: seq<int>) {
    Distinct(targets) && forall k :: 0 <= k < |targets| ==> 0 <= targets[k] < |r.sys.jobs| && targets[k] in r.pending && r.agreements.HasJob(targets[k])
  }

  lemma TargetsAtStart(ctx: Ctx, s0: Sys, r: Round, targets: seq<int>)
    requires Distinct(r.pending) && (forall j :: j in r.pending ==> 0 <= j < |r.sys.jobs|) && targets == WithAgreement(r.agreements, r.pending)
    ensures Targets(r, targets)
  {
    FilterDistinct(j => r.agreements.HasJob(j), r.pending);
    forall k | 0 <= k < |targets| ensures 0 <= targets[k] < |r.sys.jobs| && targets[k] in r.pending && r.agreements.HasJob(targets[k]) {
      assert targets[k] in targets;
    }
  }

  lemma TargetIsReserved(strategy: Strategy, loaded: bool, s0: Sys, r: Round, j: int)
    requires RoundOk(strategy, loaded, s0, r, -1) && r.agreements.HasJob(j)
    ensures r.agreements.NodesOf(j) != {}
  {
    ReservationNonEmpty(strategy, r.agreements, j, |r.sys.jobs|);
  }

  lemma ResolveStep(strategy: Strategy, ctx: Ctx, s0: Sys, r: Round, targets: seq<int>)
    requires RoundOk(strategy, ctx.cfg.loaded, s0, r, -1) && Targets(r, targets)
    ensures targets != [] ==> 0 <= targets[0] < |r.sys.jobs| && targets[0] in r.pending && r.agreements.NodesOf(targets[0]) != {}
    ensures targets == [] || StopsResolving(strategy, r) ==> Resolve(strategy, ctx, r, targets) == r
    ensures targets != [] && !StopsResolving(strategy, r) ==> var next := SchedulingRound.ResolveOne(strategy, ctx, r, targets[0]);
      && RoundOk(strategy, ctx.cfg.loaded, s0, next, -1) && Targets(next, targets[1..])
      && Resolve(strategy, ctx, r, targets) == Resolve(strategy, ctx, next, targets[1..])
  {
    hide RoundOk;
    hide SchedulingRound.ResolveOne;
    if targets != [] { TargetIsReserved(strategy, ctx.cfg.loaded, s0, r, targets[0]); }
    if targets != [] && !StopsResolving(strategy, r) {
      ResolveOneKeeps(strategy, ctx, s0, r, targets[0]);
      ResolveOneKeepsOthersPending(strategy, ctx, r, targets[0]);
    }
  }

  lemma SuffixHavePredictions(s: Sys, running: seq<int>, i: nat)
    requires i <= |running| && HavePredictions(s, running)
    ensures HavePredictions(s, running[i..])
  {
    assert forall x :: x in running[i..] ==> x in running;
  }

  lemma EligibleAreFree(ctx: Ctx, s: Sys, j: int, free: seq<int>, planned: int)
    requires 0 <= j < |s.jobs| && planned > 0
    ensures forall n :: n in EligibleForPending(ctx, s, j, free, planned) ==> n in free
  {
  }

  lemma ReservedAreListed(a: Agreements, j: int, ns: seq<int>)
    ensures forall n :: n in ReservedFor(a, j, ns) ==> n in ns
  {
  }

  lemma PoolPicksEligible(a: Agreements, j: int, eligible: seq<int>)
    ensures forall n :: n in a.SelectFromPool(j, eligible) ==> n in eligible
  {
  }

  lemma PreferredAreFree(ctx: Ctx, s: Sys, j: int, free: seq<int>)
    requires 0 <= j < |s.jobs| && HasSizes(s.jobs[j])
    ensures forall n :: n in SchedulingRound.PreferredStart(ctx, s, j, free).1 ==> n in free
  {
  }

  /** What the planning of one turn of backfilling asks for. */
  ghost predicate Plannable(r: Round, i: nat, running: seq<int>) {
    && HavePredictions(r.sys, running) && r.Indexed() && i < |r.pending|
    && 0 <= r.pending[i] < |r.sys.jobs| && HasSizes(r.sys.jobs[r.pending[i]])
    && 0 <= r.pending[0] < |r.sys.jobs| && HasSizes(r.sys.jobs[r.pending[0]])
  }

  /** Throughout the phase, every remaining runtime that is asked for can be predicted. */
  lemma AllocateIsBackfill(strategy: Strategy, ctx: Ctx, s0: Sys, r: Round, running: seq<int>)
    requires RoundOk(strategy, ctx.cfg.loaded, s0, r, -1) && r.Indexed() && r.pending != [] && r.free != []
    requires RanAtStart(s0, running) && forall k :: k in running ==> 0 <= k < |r.sys.jobs|
    ensures HavePredictions(r.sys, running)
    ensures AllocatePhase(strategy, ctx, r, running) == SchedulingRound.Backfill(strategy, ctx, r, 0, running)
  {
    hide RoundOk;
    hide SchedulingRound.Backfill;
    RoundHasPredictions(strategy, ctx.cfg.loaded, s0, r, running);
  }

  lemma BackfillStep(strategy: Strategy, ctx: Ctx, s0: Sys, r: Round, i: nat, running: seq<int>)
    requires RoundOk(strategy, ctx.cfg.loaded, s0, r, -1) && Unreserved(r) && r.Indexed()
    requires HavePredictions(r.sys, running)
    ensures i >= |r.pending| || r.free == [] ==> SchedulingRound.Backfill(strategy, ctx, r, i, running) == r
    ensures i < |r.pending| && r.free != [] ==> Plannable(r, i, running)
    ensures i < |r.pending| && r.free != [] ==> var next := SchedulingRound.BackfillOne(strategy, ctx, r, i, running);
      && RoundOk(strategy, ctx.cfg.loaded, s0, next, -1) && Unreserved(next) && HavePredictions(next.sys, running)
      && SchedulingRound.Backfill(strategy, ctx, r, i, running) == SchedulingRound.Backfill(strategy, ctx, next, i + 1, running)
  {
    if i < |r.pending| && r.free != [] {
      assert r.pending[i] in r.pending && r.pending[0] in r.pending;
      assert JobOk(r.sys.jobs[r.pending[i]], |r.sys.nodes|) && JobOk(r.sys.jobs[r.pending[0]], |r.sys.nodes|);
      assert Plannable(r, i, running);
      hide RoundOk;
      hide Unreserved;
      hide SchedulingRound.BackfillOne;
      BackfillOneKeeps(strategy, ctx, s0, r, i, running);
    }
  }

  lemma UnreservedGrow(a: Agreements, ns: seq<int>, k: nat)
    requires k <= |ns|
    ensures NodesWithoutAgreement(a, ns[..0]) == []
    ensures var part, whole := NodesWithoutAgreement(a, ns[..k]), NodesWithoutAgreement(a, ns);
      |part| <= |whole| && whole[..|part|] == part && (k == |ns| ==> part == whole)
    ensures k < |ns| ==> NodesWithoutAgreement(a, ns[..k + 1])
                         == if a.HasNode(ns[k]) then NodesWithoutAgreement(a, ns[..k]) else NodesWithoutAgreement(a, ns[..k]) + [ns[k]]
  {
    FilterPrefix(n => !a.HasNode(n), ns, k);
    FilterGrow(n => !a.HasNode(n), ns, k);
  }

  const IS_PENDING := (v: JobView) => v.state.Pending?
  const IS_RUNNING := (v: JobView) => v.state.Running?
  const IS_MALLEABLE := (v: JobView) => IsRunningMalleable(v)

  /** The jobs among the first `k` of the queue that have the property. */
  ghost function QueueBelow(views: seq<JobView>, p: JobView -> bool, k: nat): seq<int> {
    Filter(j => 0 <= j < |views| && p(views[j]), Range(k))
  }

  lemma QueueBelowGrows(views: seq<JobView>, p: JobView -> bool, k: nat)
    requires k < |views|
    ensures QueueBelow(views, p, k + 1) == if p(views[k]) then QueueBelow(views, p, k) + [k] else QueueBelow(views, p, k)
  {
  }

  lemma PendingBelow(views: seq<JobView>)
    ensures QueueBelow(views, IS_PENDING, 0) == [] && QueueBelow(views, IS_PENDING, |views|) == PendingJobs(views)
  {
    FilterSame(j => 0 <= j < |views| && IS_PENDING(views[j]), j => 0 <= j < |views| && views[j].state.Pending?, Range(|views|));
  }

  lemma RunningBelow(views: seq<JobView>)
    ensures QueueBelow(views, IS_RUNNING, 0) == [] && QueueBelow(views, IS_RUNNING, |views|) == RunningJobs(views)
  {
    FilterSame(j => 0 <= j < |views| && IS_RUNNING(views[j]), j => 0 <= j < |views| && views[j].state.Running?, Range(|views|));
  }

  lemma MalleableBelow(views: seq<JobView>)
    ensures QueueBelow(views, IS_MALLEABLE, 0) == [] && QueueBelow(views, IS_MALLEABLE, |views|) == RunningMalleable(views)
  {
    FilterSame(j => 0 <= j < |views| && IS_MALLEABLE(views[j]), j => 0 <= j < |views| && IsRunningMalleable(views[j]), Range(|views|));
  }

  function Joined(front: seq<Donation>, back: seq<Donation>): seq<Donation> {
    front + back
  }

  lemma CollectStep(s: Sys, a: Agreements, donors: seq<int>, i: nat, required: int, ds: seq<Donation>, aim: Aim)
    requires i < |donors| && required > 0
    ensures var ns := SchedulingRound.AllocateResourcesFromJob(s, a, donors[i], required, aim);
      var longer := if ns == [] then ds else ds + [Donation(donors[i], ns)];
      && Joined(ds, CollectDonations(s, a, donors[i..], required, aim)) == Joined(longer, CollectDonations(s, a, donors[i + 1..], required - |ns|, aim))
      && TotalDonated(longer) == TotalDonated(ds) + |ns|
  {
    hide SchedulingRound.AllocateResourcesFromJob;
    assert donors[i..][0] == donors[i] && donors[i..][1..] == donors[i + 1..];
    var ns := SchedulingRound.AllocateResourcesFromJob(s, a, donors[i], required, aim);
    var rest := CollectDonations(s, a, donors[i + 1..], required - |ns|, aim);
    if ns != [] {
      var d := Donation(donors[i], ns);
      assert ds + ([d] + rest) == (ds + [d]) + rest;
      OneMoreAtEnd(ds, d);
    }
  }

  lemma {:induction false} OneMoreAtEnd(ds: seq<Donation>, d: Donation)
    ensures TotalDonated(ds + [d]) == TotalDonated(ds) + |d.nodes|
  {
    if ds != [] {
      assert (ds + [d])[1..] == ds[1..] + [d];
      OneMoreAtEnd(ds[1..], d);
    } else {
      assert TotalDonated([d]) == |d.nodes| + TotalDonated([]);
    }
  }

  lemma CollectBegins(s: Sys, a: Agreements, donors: seq<int>, required: int, aim: Aim)
    ensures Joined([], CollectDonations(s, a, donors[0..], required, aim)) == CollectDonations(s, a, donors, required, aim) && TotalDonated([]) == 0
  {
  }

  lemma CollectEnds(s: Sys, a: Agreements, donors: seq<int>, i: nat, required: int, collected: int, ds: seq<Donation>, aim: Aim)
    requires i <= |donors| && (i == |donors| || collected >= required) && collected == TotalDonated(ds)
    requires Joined(ds, CollectDonations(s, a, donors[i..], required - collected, aim)) == CollectDonations(s, a, donors, required, aim)
    ensures SchedulingRound.SelectShrinkJobs(s, a, donors, required, aim) == if collected < required then [] else ds
  {
    assert CollectDonations(s, a, donors[i..], required - collected, aim) == [] && ds + [] == ds;
  }

  /** What holds while the listed donations are turned into reservations of job `p`. */
  ghost predicate Donating(strategy: Strategy, loaded: bool, s0: Sys, r: Round, ds: seq<Donation>, p: int) {
    && Reserving(strategy, loaded, s0, r, p) && DonationsOk(s0, r.sys, ds)
    && |r.agreements.NodesOf(p)| + TotalDonated(ds) <= strategy.StartSize(r.sys.jobs[p])
  }

  ghost predicate DonorsListed(r: Round, ds: seq<Donation>, p: int) {
    0 <= p < |r.sys.jobs| && forall k :: 0 <= k < |ds| ==> 0 <= ds[k].donor < |r.sys.jobs|
  }

  lemma FirstDonation(strategy: Strategy, loaded: bool, s0: Sys, r: Round, ds: seq<Donation>, p: int)
    requires Donating(strategy, loaded, s0, r, ds, p) && ds != []
    ensures DonationOk(s0, r.sys, ds[0]) && 0 <= p < |r.sys.jobs| && forall n :: n in ds[0].nodes ==> 0 <= n < |r.sys.nodes|
  {
  }

  lemma ShrinkStep(strategy: Strategy, ctx: Ctx, s0: Sys, r: Round, ds: seq<Donation>, p: int)
    requires Donating(strategy, ctx.cfg.loaded, s0, r, ds, p) && DonorsListed(r, ds, p) && ds != []
    ensures var next := SchedulingRound.ApplyDonation(ctx, r, ds[0], p);
      && Donating(strategy, ctx.cfg.loaded, s0, next, ds[1..], p) && DonorsListed(next, ds[1..], p)
      && SchedulingRound.ApplyShrinking(ctx, r, ds, p) == SchedulingRound.ApplyShrinking(ctx, next, ds[1..], p)
  {
    var next := SchedulingRound.ApplyDonation(ctx, r, ds[0], p);
    ApplyDonationKeeps(strategy, ctx, s0, r, ds[0], p);
    OtherDonationsStayOk(ctx, s0, r, ds, p);
    assert strategy.StartSize(next.sys.jobs[p]) == strategy.StartSize(r.sys.jobs[p]) by {
      assert JobEvolves(s0, s0.jobs[p], r.sys.jobs[p]) && JobEvolves(s0, s0.jobs[p], next.sys.jobs[p]);
    }
  }

  lemma ShrinkEnds(ctx: Ctx, r: Round, ds: seq<Donation>, p: int)
    requires ds == [] && 0 <= p < |r.sys.jobs|
    ensures SchedulingRound.ApplyShrinking(ctx, r, ds, p) == r
  {
  }

  ghost predicate InRange(r: Round, jobs: seq<int>) {
    forall j :: j in jobs ==> 0 <= j < |r.sys.jobs|
  }

  ghost predicate WaitingIndices(r: Round, waiting: seq<int>, sorted: seq<int>, malleable: seq<int>) {
    InRange(r, waiting) && InRange(r, sorted) && InRange(r, malleable)
  }

  ghost predicate RoundIndices(r: Round, p: int, sorted: seq<int>, malleable: seq<int>) {
    0 <= p < |r.sys.jobs| && InRange(r, sorted) && InRange(r, malleable)
  }

  /** What holds while pending jobs still wait for reservations. */
  ghost predicate Waiting(strategy: Strategy, loaded: bool, s0: Sys, r: Round, waiting: seq<int>, sorted: seq<int>, malleable: seq<int>) {
    && RoundOk(strategy, loaded, s0, r, -1) && (forall n :: n in r.free ==> !r.agreements.HasNode(n))
    && Distinct(waiting) && (forall j :: j in waiting ==> j in r.pending && !r.agreements.HasJob(j))
    && Donors(s0, sorted) && Donors(s0, malleable) && WaitingIndices(r, waiting, sorted, malleable)
  }

  lemma OthersGetNothing(ctx: Ctx, r: Round, t: Round, ds: seq<Donation>, p: int)
    requires 0 <= p < |r.sys.jobs| && ReservesFor(ctx, r, t, ds, p)
    ensures forall x :: x != p && t.agreements.HasJob(x) ==> r.agreements.HasJob(x)
  {
  }

  lemma WaitingStep(strategy: Strategy, ctx: Ctx, s0: Sys, r: Round, waiting: seq<int>, sorted: seq<int>, malleable: seq<int>)
    requires Waiting(strategy, ctx.cfg.loaded, s0, r, waiting, sorted, malleable) && WaitingIndices(r, waiting, sorted, malleable)
    ensures waiting == [] ==> SchedulingRound.ShrinkForPending(strategy, ctx, r, waiting, sorted, malleable) == r
    ensures waiting != [] ==> RoundIndices(r, waiting[0], sorted, malleable)
    ensures waiting != [] ==> var next := SchedulingRound.ShrinkForOne(strategy, ctx, r, waiting[0], sorted, malleable);
      && Waiting(strategy, ctx.cfg.loaded, s0, next, waiting[1..], sorted, malleable) && WaitingIndices(next, waiting[1..], sorted, malleable)
      && SchedulingRound.ShrinkForPending(strategy, ctx, r, waiting, sorted, malleable)
         == SchedulingRound.ShrinkForPending(strategy, ctx, next, waiting[1..], sorted, malleable)
  {
    hide RoundOk;
    hide Donors;
    hide SchedulingRound.ShrinkForOne;
    hide SchedulingRound.SelectDonations;
    hide DonorOrder;
    hide ReservesFor;
    if waiting != [] {
      HeadAndTail(waiting);
      ShrinkForOneKeeps(strategy, ctx, s0, r, waiting[0], sorted, malleable);
      OthersGetNothing(ctx, r, SchedulingRound.ShrinkForOne(strategy, ctx, r, waiting[0], sorted, malleable),
                       SchedulingRound.SelectDonations(strategy, r.sys, r.agreements, DonorOrder(strategy, r.sys, sorted, malleable), r.sys.jobs[waiting[0]]), waiting[0]);
    }
  }

  lemma WaitingStarts(strategy: Strategy, loaded: bool, s0: Sys, r: Round, waiting: seq<int>, sorted: seq<int>, malleable: seq<int>)
    requires Waiting(strategy, loaded, s0, r, waiting, sorted, malleable) && waiting != []
    ensures RoundIndices(r, waiting[0], sorted, malleable) && 0 < r.sys.jobs[waiting[0]].nodesMin <= r.sys.jobs[waiting[0]].nodesPref
    ensures Reserving(strategy, loaded, s0, r, waiting[0]) && r.agreements.NodesOf(waiting[0]) == {}
  {
    assert waiting[0] in waiting;
    assert JobOk(r.sys.jobs[waiting[0]], |r.sys.nodes|);
  }

  /** The selected donations can all be turned into reservations of the first waiting job. */
  lemma WaitingMayReserve(strategy: Strategy, ctx: Ctx, s0: Sys, r: Round, waiting: seq<int>, sorted: seq<int>, malleable: seq<int>)
    requires Waiting(strategy, ctx.cfg.loaded, s0, r, waiting, sorted, malleable) && waiting != []
    ensures RoundIndices(r, waiting[0], sorted, malleable)
    ensures var ds := SchedulingRound.SelectDonations(strategy, r.sys, r.agreements, DonorOrder(strategy, r.sys, sorted, malleable), r.sys.jobs[waiting[0]]);
      ds != [] ==> Donating(strategy, ctx.cfg.loaded, s0, r, ds, waiting[0])
  {
    hide SchedulingRound.SelectDonations;
    hide RoundOk;
    hide Reserving;
    WaitingStarts(strategy, ctx.cfg.loaded, s0, r, waiting, sorted, malleable);
    SelectedAreOk(strategy, ctx.cfg.loaded, s0, r, DonorOrder(strategy, r.sys, sorted, malleable), r.sys.jobs[waiting[0]]);
  }

  lemma RoundPendingIsDistinct(strategy: Strategy, loaded: bool, s0: Sys, r: Round)
    requires RoundOk(strategy, loaded, s0, r, -1)
    ensures Distinct(r.pending)
  {
  }

  /** What holds while malleable jobs are expanded. */
  ghost predicate Growing(strategy: Strategy, loaded: bool, s0: Sys, r: Round, jobs: seq<int>) {
    && RoundOk(strategy, loaded, s0, r, -1) && (forall n :: n in r.free ==> !r.agreements.HasNode(n))
    && Donors(s0, jobs) && InRange(r, jobs)
  }

  lemma ExpandJobGrows(strategy: Strategy, ctx: Ctx, r: Round, j: int, aim: Aim)
    requires 0 <= j < |r.sys.jobs| && r.sys.jobs[j].prediction.Prediction?
    ensures SchedulingRound.ExpandJob(strategy, ctx, r, j, aim)
         == SchedulingRound.Grow(r, j, if r.free == [] then [] else ExpansionFor(ctx, r.sys, j, r.free, ExpansionTarget(strategy, r, j, aim)))
  {
  }

  lemma GrowingStep(strategy: Strategy, ctx: Ctx, s0: Sys, r: Round, jobs: seq<int>, aim: Aim)
    requires Growing(strategy, ctx.cfg.loaded, s0, r, jobs) && InRange(r, jobs)
    ensures jobs == [] || r.free == [] ==> SchedulingRound.ExpandJobs(strategy, ctx, r, jobs, aim) == r
    ensures jobs != [] ==> 0 <= jobs[0] < |r.sys.jobs|
    ensures jobs != [] && r.free != [] ==> var next := SchedulingRound.ExpandJob(strategy, ctx, r, jobs[0], aim);
      && Growing(strategy, ctx.cfg.loaded, s0, next, jobs[1..]) && InRange(next, jobs[1..])
      && SchedulingRound.ExpandJobs(strategy, ctx, r, jobs, aim) == SchedulingRound.ExpandJobs(strategy, ctx, next, jobs[1..], aim)
  {
    hide RoundOk;
    hide SchedulingRound.ExpandJob;
    if jobs != [] {
      HeadAndTail(jobs);
      ExpandJobKeeps(strategy, ctx, s0, r, jobs[0], aim);
    }
  }
}
