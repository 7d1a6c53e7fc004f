/** What every reachable cluster state satisfies, and that each operation keeps it. */
module ClusterInvariant {
  import opened Sequences
  import opened RuntimePrediction
  import opened ClusterState

  ghost predicate JobOk(v: JobView, nodeCount: nat) {
    && !v.died && 1 <= v.nodesMin <= v.nodesPref <= v.nodesMax
    && Distinct(v.assignedNodes) && Distinct(v.executingNodes)
    && (forall n :: n in v.assignedNodes ==> 0 <= n < nodeCount)
    && (forall n :: n in v.executingNodes ==> 0 <= n < nodeCount)
    && (v.state.PendingSubmission? || v.state.Pending? ==> v.assignedNodes == [] && v.executingNodes == [] && v.prediction.NoPrediction?)
    && (v.state.PendingAllocation? ==> v.assignedNodes != [] && v.executingNodes == [] && v.prediction.NoPrediction?)
    && (v.Active() ==> v.assignedNodes != [] && v.executingNodes != [] && v.prediction.Prediction? && v.prediction.nodes == |v.executingNodes|)
  }

  /** A node's sets of running and expected jobs are exactly the job that executes on it and the
      job that waits for it, and its state says which. */
  ghost predicate NodeOk(jobs: seq<JobView>, v: NodeView, i: int) {
    && !v.died
    && (forall j :: 0 <= j < |jobs| && jobs[j].Executes(i) ==> v.running == {j})
    && (forall j :: 0 <= j < |jobs| && jobs[j].Awaits(i) ==> v.expected == {j})
    && (v.running != {} ==> exists j :: 0 <= j < |jobs| && jobs[j].Executes(i))
    && (v.expected != {} ==> exists j :: 0 <= j < |jobs| && jobs[j].Awaits(i))
    && (v.state.NodeAllocated? <==> v.running != {})
    && (v.state.NodeReserved? <==> v.running == {} && v.expected != {})
    && (v.transitionTime > 0.0 ==> (v.state.NodeShuttingDown? && v.target.NodeOff?) || (v.state.NodeBooting? && v.target.NodeFree?))
  }

  ghost predicate Exclusive(jobs: seq<JobView>) {
    forall j, k, i :: 0 <= j < |jobs| && 0 <= k < |jobs| && jobs[j].Holds(i) && jobs[k].Holds(i) ==> j == k
  }

  /** A job waiting for its allocation message has claimed nodes that are still free. */
  ghost predicate StartsOnFreeNodes(s: Sys) {
    forall j, i :: 0 <= j < |s.jobs| && s.jobs[j].state.PendingAllocation? && i in s.jobs[j].assignedNodes && 0 <= i < |s.nodes|
      ==> s.nodes[i].state.NodeFree?
  }

  ghost predicate Inv(s: Sys) {
    && (forall j :: 0 <= j < |s.jobs| ==> JobOk(s.jobs[j], |s.nodes|))
    && (forall i :: 0 <= i < |s.nodes| ==> NodeOk(s.jobs, s.nodes[i], i))
    && Exclusive(s.jobs)
    && StartsOnFreeNodes(s)
  }

  /** The node is free and no job is about to start on it. */
  ghost predicate Available(s: Sys, i: int) {
    && 0 <= i < |s.nodes| && s.nodes[i].state.NodeFree?
    && forall j :: 0 <= j < |s.jobs| ==> !s.jobs[j].Holds(i)
  }

  /** A free node is claimed by nobody but, possibly, a job that is about to start there. */
  lemma FreeIsUnclaimed(s: Sys, i: int)
    requires Inv(s) && 0 <= i < |s.nodes| && !s.nodes[i].state.NodeAllocated? && !s.nodes[i].state.NodeReserved?
    ensures s.nodes[i].running == {} && s.nodes[i].expected == {}
    ensures forall j :: 0 <= j < |s.jobs| && s.jobs[j].Holds(i) ==> s.jobs[j].state.PendingAllocation?
  {
  }

  /** Changing jobs that neither executed nor waited at a node, and still do not, keeps it. */
  lemma SameHoldersKeepNodeOk(s: Sys, jobs: seq<JobView>, i: int)
    requires 0 <= i < |s.nodes| && NodeOk(s.jobs, s.nodes[i], i) && |jobs| >= |s.jobs|
    requires forall k :: 0 <= k < |s.jobs| ==> jobs[k].Executes(i) == s.jobs[k].Executes(i) && jobs[k].Awaits(i) == s.jobs[k].Awaits(i)
    requires forall k :: |s.jobs| <= k < |jobs| ==> !jobs[k].Executes(i) && !jobs[k].Awaits(i)
    ensures NodeOk(jobs, s.nodes[i], i)
  {
  }

  /** What an active job's claim on a node says about the node. */
  lemma HeldNode(s: Sys, j: int, i: int)
    requires Inv(s) && 0 <= j < |s.jobs| && 0 <= i < |s.nodes|
    ensures s.jobs[j].Executes(i) ==> s.nodes[i].running == {j} && s.nodes[i].expected == {} && s.nodes[i].state.NodeAllocated?
    ensures s.jobs[j].Awaits(i) ==> s.nodes[i].running == {} && s.nodes[i].expected == {j} && s.nodes[i].state.NodeReserved?
    ensures !s.jobs[j].Executes(i) ==> s.nodes[i].running - {j} == s.nodes[i].running
    ensures !s.jobs[j].Awaits(i) ==> s.nodes[i].expected - {j} == s.nodes[i].expected
  {
    var v := s.nodes[i];
    assert NodeOk(s.jobs, v, i);
    if v.running != {} {
      var k :| 0 <= k < |s.jobs| && s.jobs[k].Executes(i);
      assert v.running == {k} && s.jobs[k].Holds(i);
    }
    if v.expected != {} {
      var k :| 0 <= k < |s.jobs| && s.jobs[k].Awaits(i);
      assert v.expected == {k} && s.jobs[k].Holds(i);
    }
  }

  /** The node view `nv` fits job `j` having become `v`, given the view `before` before. */
  ghost predicate Reflects(nv: NodeView, before: NodeView, v: JobView, j: int, i: int) {
    && !nv.died
    && nv.running == (if v.Executes(i) then {j} else before.running - {j})
    && nv.expected == (if v.Awaits(i) then {j} else before.expected - {j})
    && (nv.state.NodeAllocated? <==> nv.running != {})
    && (nv.state.NodeReserved? <==> nv.running == {} && nv.expected != {})
    && (nv.transitionTime > 0.0 ==> (nv.state.NodeShuttingDown? && nv.target.NodeOff?) || (nv.state.NodeBooting? && nv.target.NodeFree?))
  }

  ghost predicate SoleHolder(s: Sys, j: int, v: JobView, i: int) {
    v.Holds(i) ==> forall k :: 0 <= k < |s.jobs| && k != j ==> !s.jobs[k].Holds(i)
  }

  lemma JobChangeKeepsNodeOk(s: Sys, j: int, v: JobView, nv: NodeView, i: int)
    requires Inv(s) && 0 <= j < |s.jobs| && 0 <= i < |s.nodes|
    requires Reflects(nv, s.nodes[i], v, j, i) && SoleHolder(s, j, v, i)
    ensures NodeOk(s.jobs[j := v], nv, i)
  {
  }

  lemma JobChangeKeepsExclusive(s: Sys, j: int, v: JobView)
    requires Exclusive(s.jobs) && 0 <= j < |s.jobs|
    requires forall i :: SoleHolder(s, j, v, i)
    ensures Exclusive(s.jobs[j := v])
  {
    var jobs := s.jobs[j := v];
    forall a, b, i | 0 <= a < |jobs| && 0 <= b < |jobs| && jobs[a].Holds(i) && jobs[b].Holds(i) ensures a == b {
      assert SoleHolder(s, j, v, i);
      if a != j && b != j { assert s.jobs[a].Holds(i) && s.jobs[b].Holds(i); }
    }
  }

  /** The whole invariant after job `j` became `v` and the nodes became `nodes`. */
  lemma JobChangeKeepsInv(s: Sys, j: int, v: JobView, nodes: seq<NodeView>)
    requires Inv(s) && 0 <= j < |s.jobs| && |nodes| == |s.nodes|
    requires JobOk(v, |s.nodes|)
    requires forall i :: 0 <= i < |nodes| ==> Reflects(nodes[i], s.nodes[i], v, j, i)
    requires forall i :: SoleHolder(s, j, v, i)
    requires forall i :: 0 <= i < |nodes| && v.state.PendingAllocation? && i in v.assignedNodes ==> nodes[i].state.NodeFree?
    requires forall i :: 0 <= i < |nodes| && nodes[i].state != s.nodes[i].state ==> s.jobs[j].Holds(i) || v.Holds(i)
    ensures Inv(Sys(nodes, s.jobs[j := v]))
  {
    var t := Sys(nodes, s.jobs[j := v]);
    JobChangeKeepsExclusive(s, j, v);
    forall i | 0 <= i < |nodes| ensures NodeOk(t.jobs, nodes[i], i) {
      JobChangeKeepsNodeOk(s, j, v, nodes[i], i);
    }
    forall k, i | 0 <= k < |t.jobs| && t.jobs[k].state.PendingAllocation? && i in t.jobs[k].assignedNodes && 0 <= i < |nodes|
      ensures nodes[i].state.NodeFree?
    {
      if k != j {
        assert s.jobs[k].Holds(i);
        assert SoleHolder(s, j, v, i);
        assert !s.jobs[j].Holds(i);
      }
    }
  }

  lemma StartKeepsInv(s: Sys, j: int, ns: seq<int>)
    requires Inv(s) && 0 <= j < |s.jobs| && s.jobs[j].state.Pending?
    requires ns != [] && Distinct(ns) && forall i :: i in ns ==> Available(s, i)
    ensures Inv(s.Start(j, ns))
  {
    var v := s.Start(j, ns).jobs[j];
    assert v.assignedNodes == ns by { assert JobOk(s.jobs[j], |s.nodes|); assert [] + ns == ns; }
    forall i ensures SoleHolder(s, j, v, i) {
      if v.Holds(i) { assert Available(s, i); }
    }
    forall i | 0 <= i < |s.nodes| ensures Reflects(s.nodes[i], s.nodes[i], v, j, i) {
      HeldNode(s, j, i);
      assert NodeOk(s.jobs, s.nodes[i], i);
    }
    assert forall i :: i in ns ==> Available(s, i);
    JobChangeKeepsInv(s, j, v, s.nodes);
  }

  lemma ExpandKeepsInv(s: Sys, j: int, ns: seq<int>)
    requires Inv(s) && 0 <= j < |s.jobs| && s.jobs[j].Active()
    requires Distinct(ns) && forall i :: i in ns ==> Available(s, i)
    ensures Inv(s.ExpandBy(j, ns))
  {
    var before, t := s.jobs[j], s.ExpandBy(j, ns);
    var v := t.jobs[j];
    assert JobOk(before, |s.nodes|);
    assert v.assignedNodes == before.assignedNodes + ns && v.executingNodes == before.executingNodes && v.Active();
    forall i | i in before.assignedNodes ensures i !in ns {
      assert before.Holds(i);
      assert i in ns ==> Available(s, i);
    }
    DistinctConcat(before.assignedNodes, ns);
    assert JobOk(v, |s.nodes|);
    forall i ensures SoleHolder(s, j, v, i) {
      if i in ns { assert Available(s, i); }
      else if v.Holds(i) { assert before.Holds(i); }
    }
    forall i | 0 <= i < |s.nodes| ensures Reflects(t.nodes[i], s.nodes[i], v, j, i) {
      HeldNode(s, j, i);
      assert NodeOk(s.jobs, s.nodes[i], i);
      if i in ns {
        assert Available(s, i);
        FreeIsUnclaimed(s, i);
        assert !before.Holds(i);
      }
    }
    JobChangeKeepsInv(s, j, v, t.nodes);
  }

  /** All that matters about a node when a single job changes. */
  ghost predicate Fits(v: NodeView, job: JobView, j: int, i: int) {
    && !v.died
    && (job.Executes(i) ==> v.running == {j} && v.expected == {} && v.state.NodeAllocated?)
    && (job.Awaits(i) ==> v.running == {} && v.expected == {j} && v.state.NodeReserved?)
    && (!job.Executes(i) ==> v.running - {j} == v.running)
    && (!job.Awaits(i) ==> v.expected - {j} == v.expected)
    && (v.state.NodeAllocated? <==> v.running != {})
    && (v.state.NodeReserved? <==> v.running == {} && v.expected != {})
    && (v.transitionTime > 0.0 ==> (v.state.NodeShuttingDown? && v.target.NodeOff?) || (v.state.NodeBooting? && v.target.NodeFree?))
  }

  lemma NodeFits(s: Sys, j: int, i: int)
    requires Inv(s) && 0 <= j < |s.jobs| && 0 <= i < |s.nodes|
    ensures Fits(s.nodes[i], s.jobs[j], j, i)
  {
    HeldNode(s, j, i);
    assert NodeOk(s.jobs, s.nodes[i], i);
  }

  lemma ShrinkReflects(v: NodeView, job: JobView, ns: seq<int>, j: int, i: int)
    requires Fits(v, job, j, i) && job.Active() && Distinct(job.assignedNodes)
    requires job.nodesMin <= |job.assignedNodes| - |ns|
    requires forall n :: n in ns ==> n in job.assignedNodes
    ensures Reflects(if i in ns then RemoveExpected.On(v, j) else v, v, job.RemoveNodes(ns), j, i)
    ensures (if i in ns then RemoveExpected.On(v, j) else v).state != v.state ==> job.Holds(i)
  {
    RemoveEachDistinct(job.assignedNodes, ns);
    assert job.RemoveNodes(ns).Executes(i) == job.Executes(i);
    assert job.RemoveNodes(ns).Awaits(i) == (job.Awaits(i) && i !in ns);
  }

  lemma ShrinkKeepsJobOk(job: JobView, ns: seq<int>, nodeCount: nat)
    requires JobOk(job, nodeCount) && job.Active()
    requires Distinct(ns) && (forall n :: n in ns ==> n in job.assignedNodes)
    requires job.nodesMin <= |job.assignedNodes| - |ns|
    ensures JobOk(job.RemoveNodes(ns), nodeCount)
    ensures job.RemoveNodes(ns).Active() && |job.RemoveNodes(ns).assignedNodes| == |job.assignedNodes| - |ns|
    ensures forall i :: job.RemoveNodes(ns).Holds(i) ==> job.Holds(i)
  {
    RemoveEachDistinct(job.assignedNodes, ns);
  }

  lemma ShrinkKeepsInv(s: Sys, j: int, ns: seq<int>)
    requires Inv(s) && 0 <= j < |s.jobs| && s.jobs[j].Active()
    requires Distinct(ns) && (forall i :: i in ns ==> i in s.jobs[j].assignedNodes)
    requires s.jobs[j].nodesMin <= |s.jobs[j].assignedNodes| - |ns|
    ensures Inv(s.ShrinkBy(j, ns))
    ensures |s.ShrinkBy(j, ns).jobs[j].assignedNodes| == |s.jobs[j].assignedNodes| - |ns|
  {
    var before, t := s.jobs[j], s.ShrinkBy(j, ns);
    var v := before.RemoveNodes(ns);
    assert JobOk(before, |s.nodes|);
    ShrinkKeepsJobOk(before, ns, |s.nodes|);
    HoldsLessIsSole(s, j, v);
    forall i | 0 <= i < |s.nodes|
      ensures Reflects(t.nodes[i], s.nodes[i], v, j, i)
      ensures t.nodes[i].state != s.nodes[i].state ==> before.Holds(i)
    {
      NodeFits(s, j, i);
      ShrinkReflects(s.nodes[i], before, ns, j, i);
    }
    JobChangeKeepsInv(s, j, v, t.nodes);
  }

  lemma HoldsLessIsSole(s: Sys, j: int, v: JobView)
    requires Exclusive(s.jobs) && 0 <= j < |s.jobs|
    requires forall i :: v.Holds(i) ==> s.jobs[j].Holds(i)
    ensures forall i :: SoleHolder(s, j, v, i)
  {
  }

  lemma ForwardAllocationKeepsInv(s: Sys, j: int, now: real)
    requires Inv(s) && 0 <= j < |s.jobs| && s.jobs[j].state.PendingAllocation?
    ensures Inv(s.ForwardAllocation(j, now))
  {
    var before, t := s.jobs[j], s.ForwardAllocation(j, now);
    var v := t.jobs[j];
    assert JobOk(before, |s.nodes|);
    assert JobOk(v, |s.nodes|);
    forall i ensures SoleHolder(s, j, v, i) {
      if v.Holds(i) { assert before.Holds(i); }
    }
    forall i | 0 <= i < |s.nodes| ensures Reflects(t.nodes[i], s.nodes[i], v, j, i) {
      HeldNode(s, j, i);
      assert NodeOk(s.jobs, s.nodes[i], i);
      if i in before.assignedNodes { FreeIsUnclaimed(s, i); }
    }
    JobChangeKeepsInv(s, j, v, t.nodes);
  }

  lemma ReconfigureReflects(v: NodeView, job: JobView, next: JobView, j: int, i: int)
    requires Fits(v, job, j, i) && job.Active() && next.Active()
    requires next.executingNodes == next.assignedNodes == job.assignedNodes
    ensures var released := if i in job.assignedNodes then RemoveExpected.On(v, j) else v;
      var expanded := if i in next.executingNodes && i !in job.executingNodes then Expand.On(released, j) else released;
      Reflects(if i in job.executingNodes && i !in next.executingNodes then Complete.On(expanded, j) else expanded, v, next, j, i)
  {
  }

  lemma TakeOverKeepsJobOk(job: JobView, nodeCount: nat, now: real)
    requires JobOk(job, nodeCount) && job.state.PendingReconfiguration?
    ensures JobOk(job.SetState(InReconfiguration, now), nodeCount)
    ensures job.SetState(InReconfiguration, now).Active()
    ensures job.SetState(InReconfiguration, now).executingNodes == job.SetState(InReconfiguration, now).assignedNodes == job.assignedNodes
    ensures forall i :: job.SetState(InReconfiguration, now).Holds(i) ==> job.Holds(i)
  {
  }

  lemma ReconfigureKeepsInv(s: Sys, j: int, now: real)
    requires Inv(s) && 0 <= j < |s.jobs| && s.jobs[j].state.PendingReconfiguration?
    ensures Inv(s.Reconfigure(j, now))
  {
    var before, t := s.jobs[j], s.Reconfigure(j, now);
    var v := before.SetState(InReconfiguration, now);
    assert JobOk(before, |s.nodes|);
    TakeOverKeepsJobOk(before, |s.nodes|, now);
    HoldsLessIsSole(s, j, v);
    forall i | 0 <= i < |s.nodes|
      ensures Reflects(t.nodes[i], s.nodes[i], v, j, i)
      ensures t.nodes[i].state != s.nodes[i].state ==> before.Holds(i)
    {
      NodeFits(s, j, i);
      ReconfigureReflects(s.nodes[i], before, v, j, i);
    }
    JobChangeKeepsInv(s, j, v, t.nodes);
  }

  lemma ProcessedWorkloadKeepsInv(s: Sys, j: int, now: real)
    requires Inv(s) && 0 <= j < |s.jobs| && s.jobs[j].Active()
    ensures Inv(s.ProcessedWorkload(j, now))
  {
    var before, t := s.jobs[j], s.ProcessedWorkload(j, now);
    var v := t.jobs[j];
    assert JobOk(before, |s.nodes|);
    assert JobOk(v, |s.nodes|);
    forall i | 0 <= i < |s.nodes| ensures Reflects(t.nodes[i], s.nodes[i], v, j, i) {
      HeldNode(s, j, i);
      assert NodeOk(s.jobs, s.nodes[i], i);
    }
    JobChangeKeepsInv(s, j, v, t.nodes);
  }

  lemma ApplicationRunningKeepsInv(s: Sys, j: int, now: real)
    requires Inv(s) && 0 <= j < |s.jobs| && s.jobs[j].Active()
    ensures Inv(s.ApplicationRunning(j, now))
  {
    var before := s.jobs[j];
    var v := before.SetState(Running, now);
    assert JobOk(before, |s.nodes|);
    forall i ensures SoleHolder(s, j, v, i) {
      if v.Holds(i) { assert before.Holds(i); }
    }
    forall i | 0 <= i < |s.nodes| ensures Reflects(s.nodes[i], s.nodes[i], v, j, i) {
      HeldNode(s, j, i);
      assert NodeOk(s.jobs, s.nodes[i], i);
    }
    JobChangeKeepsInv(s, j, v, s.nodes);
  }

  lemma SubmitKeepsInv(s: Sys, v: JobView)
    requires Inv(s) && 1 <= v.nodesMin <= v.nodesPref <= v.nodesMax
    ensures Inv(s.Submit(v))
  {
    var t := s.Submit(v);
    forall i | 0 <= i < |t.nodes| ensures NodeOk(t.jobs, t.nodes[i], i) {
      SameHoldersKeepNodeOk(s, t.jobs, i);
    }
    forall a, b, i | 0 <= a < |t.jobs| && 0 <= b < |t.jobs| && t.jobs[a].Holds(i) && t.jobs[b].Holds(i) ensures a == b {
      assert s.jobs[a].Holds(i) && s.jobs[b].Holds(i);
    }
  }

  /** What power management may do to a node: it leaves the job sets alone and changes the
      state of idle nodes only. */
  ghost predicate PowerStep(a: NodeView, b: NodeView) {
    && b.running == a.running && b.expected == a.expected && b.died == a.died
    && (b.state == a.state || (a.IsIdle() && !b.state.NodeAllocated? && !b.state.NodeReserved?))
    && (b.transitionTime > 0.0 ==> (b.state.NodeShuttingDown? && b.target.NodeOff?) || (b.state.NodeBooting? && b.target.NodeFree?))
  }

  ghost predicate NoStarts(s: Sys) {
    forall j :: 0 <= j < |s.jobs| ==> !s.jobs[j].state.PendingAllocation?
  }

  lemma PowerKeepsInv(s: Sys, nodes: seq<NodeView>)
    requires Inv(s) && NoStarts(s) && |nodes| == |s.nodes|
    requires forall i :: 0 <= i < |nodes| ==> PowerStep(s.nodes[i], nodes[i])
    ensures Inv(s.(nodes := nodes))
  {
  }
}
