/** What every step of a scheduling round keeps, and the four kinds of step that change the
    cluster: reservations change, a job starts, a job donates nodes, a job grows. */
module RoundInvariant {
  import opened Sequences
  import opened ClusterState
  import opened ClusterInvariant
  import opened ShutdownPolicy
  import opened AgreementMaps
  import opened SchedulingRound

  ghost predicate Claims(v: JobView, n: int) {
    (v.Active() || v.state.PendingAllocation?) && n in v.assignedNodes
  }

  /** Only pending jobs hold reservations. */
  ghost predicate PendingOnly(s: Sys, a: Agreements) {
    forall j :: j in a.jobToNodeIds ==> 0 <= j < |s.jobs| && s.jobs[j].state.Pending?
  }

  /** A reserved node is in nobody's assigned list. */
  ghost predicate ReservedOut(s: Sys, a: Agreements) {
    forall n, j :: n in a.nodeToJobId && 0 <= j < |s.jobs| ==> !Claims(s.jobs[j], n)
  }

  /** The invariant of the handler that the strategy uses. */
  ghost predicate Maps(strategy: Strategy, a: Agreements, jobCount: nat) {
    if strategy.MinCommonPool? then Pooled(a, jobCount) else TwoWay(a)
  }

  /** The sizes a pending job may be started with: its minimum, or the preferred size if the
      strategy tries that; fewer nodes if a shutdown policy interfered. */
  ghost predicate RightSize(strategy: Strategy, loaded: bool, v: JobView, count: nat) {
    count <= strategy.StartSize(v) && (!loaded ==> count == v.nodesMin || count == strategy.StartSize(v))
  }

  /** Reservations have the size of a start, except the one that is just being put together. */
  ghost predicate ReservationSizes(strategy: Strategy, loaded: bool, s: Sys, a: Agreements, partial: int) {
    forall x :: x in a.jobToNodeIds && 0 <= x < |s.jobs| ==>
      |a.NodesOf(x)| <= strategy.StartSize(s.jobs[x]) && (x != partial ==> RightSize(strategy, loaded, s.jobs[x], |a.NodesOf(x)|))
  }

  ghost predicate Within(loaded: bool, v: JobView, count: nat) {
    count <= v.nodesMax && (!loaded ==> v.nodesMin <= count)
  }

  ghost predicate JobSized(strategy: Strategy, loaded: bool, v: JobView) {
    && (v.Active() ==> Within(loaded, v, |v.assignedNodes|) && Within(loaded, v, |v.executingNodes|))
    && (v.state.PendingAllocation? ==> Within(loaded, v, |v.assignedNodes|) && RightSize(strategy, loaded, v, |v.assignedNodes|))
  }

  ghost predicate JobsSized(strategy: Strategy, loaded: bool, s: Sys) {
    forall j :: 0 <= j < |s.jobs| ==> JobSized(strategy, loaded, s.jobs[j])
  }

  ghost predicate InitiallyFree(s0: Sys, n: int) {
    0 <= n < |s0.nodes| && s0.nodes[n].state.NodeFree?
  }

  ghost predicate ListsOk(s0: Sys, r: Round) {
    && Distinct(r.free) && (forall n :: n in r.free ==> Available(r.sys, n) && InitiallyFree(s0, n))
    && Distinct(r.pending) && (forall j :: j in r.pending ==> 0 <= j < |r.sys.jobs| && r.sys.jobs[j].state.Pending?)
    && Distinct(r.started) && (forall j :: j in r.started <==> 0 <= j < |r.sys.jobs| && r.sys.jobs[j].state.PendingAllocation?)
  }

  /** What a round may do to one job. */
  ghost predicate JobEvolves(s0: Sys, a: JobView, b: JobView) {
    && b.kind == a.kind && b.nodesMin == a.nodesMin && b.nodesMax == a.nodesMax && b.nodesPref == a.nodesPref && b.profile == a.profile
    && (a.state.Pending? ==> b == a || (b.state.PendingAllocation? && forall n :: n in b.assignedNodes ==> InitiallyFree(s0, n)))
    && (!a.state.Pending? && !IsRunningMalleable(a) ==> b == a)
    && (IsRunningMalleable(a) ==>
          && (b.state.Running? || b.state.PendingReconfiguration?)
          && b.executingNodes == a.executingNodes && b.prediction == a.prediction
          && (forall n :: n in b.assignedNodes ==> n in a.assignedNodes || InitiallyFree(s0, n))
          && (|b.assignedNodes| >= b.nodesMin || |b.assignedNodes| >= |a.assignedNodes|)
          && (|b.assignedNodes| <= b.nodesMax || |b.assignedNodes| <= |a.assignedNodes|))
  }

  /** What a round may do to one node. */
  ghost predicate NodeEvolves(a: NodeView, b: NodeView) {
    && b.running == a.running && b.transitionTime == a.transitionTime && b.target == a.target
    && (b.state == a.state || ((a.state.NodeFree? || a.state.NodeReserved?) && (b.state.NodeFree? || b.state.NodeReserved?)))
  }

  ghost predicate Evolves(s0: Sys, t: Sys) {
    && |t.jobs| == |s0.jobs| && |t.nodes| == |s0.nodes|
    && (forall j :: 0 <= j < |s0.jobs| ==> JobEvolves(s0, s0.jobs[j], t.jobs[j]))
    && (forall i :: 0 <= i < |s0.nodes| ==> NodeEvolves(s0.nodes[i], t.nodes[i]))
  }

  /** The invariant of a round that began in cluster state `s0`; `partial` is the job whose
      reservation is just being put together, or -1. */
  ghost predicate RoundOk(strategy: Strategy, loaded: bool, s0: Sys, r: Round, partial: int) {
    && Inv(r.sys) && Evolves(s0, r.sys) && JobsSized(strategy, loaded, r.sys) && ListsOk(s0, r)
    && Maps(strategy, r.agreements, |r.sys.jobs|) && PendingOnly(r.sys, r.agreements) && ReservedOut(r.sys, r.agreements)
    && ReservationSizes(strategy, loaded, r.sys, r.agreements, partial)
  }

  /** What holds between rounds. */
  ghost predicate Settled(strategy: Strategy, loaded: bool, s: Sys, a: Agreements) {
    && Inv(s) && NoStarts(s) && JobsSized(strategy, loaded, s)
    && Maps(strategy, a, |s.jobs|) && PendingOnly(s, a) && ReservedOut(s, a) && ReservationSizes(strategy, loaded, s, a, -1)
  }

  /** Reservations `b` are some of the reservations `a`, each with the same size. */
  ghost predicate Reduces(a: Agreements, b: Agreements) {
    && (forall n :: n in b.nodeToJobId ==> n in a.nodeToJobId)
    && (forall x :: x in b.jobToNodeIds ==> x in a.jobToNodeIds && |b.NodesOf(x)| == |a.NodesOf(x)|)
  }

  /** Step 1: reservations are swapped or dropped. */
  lemma ReduceStep(strategy: Strategy, loaded: bool, s0: Sys, r: Round, b: Agreements)
    requires RoundOk(strategy, loaded, s0, r, -1)
    requires Reduces(r.agreements, b) && Maps(strategy, b, |r.sys.jobs|)
    ensures RoundOk(strategy, loaded, s0, r.(agreements := b), -1)
  {
  }

  /** The lists become filters of themselves. */
  lemma NarrowStep(strategy: Strategy, loaded: bool, s0: Sys, r: Round, pending: seq<int>, free: seq<int>)
    requires RoundOk(strategy, loaded, s0, r, -1)
    requires Distinct(pending) && (forall j :: j in pending ==> j in r.pending)
    requires Distinct(free) && (forall n :: n in free ==> n in r.free)
    ensures RoundOk(strategy, loaded, s0, r.(pending := pending, free := free), -1)
  {
  }

  lemma StartEvolves(s0: Sys, s: Sys, j: int, ns: seq<int>)
    requires Evolves(s0, s) && 0 <= j < |s.jobs| && s.jobs[j].state.Pending? && s.jobs[j].assignedNodes == []
    requires forall n :: n in ns ==> InitiallyFree(s0, n)
    ensures Evolves(s0, s.Start(j, ns))
  {
  }

  lemma StartKeepsFree(s0: Sys, r: Round, j: int, ns: seq<int>, n: int)
    requires 0 <= j < |r.sys.jobs| && r.sys.jobs[j].state.Pending? && r.sys.jobs[j].assignedNodes == []
    requires Available(r.sys, n) && n !in ns
    ensures Available(r.sys.Start(j, ns), n)
  {
  }

  lemma StartKeepsStarted(r: Round, j: int, ns: seq<int>)
    requires Distinct(r.started) && 0 <= j < |r.sys.jobs| && r.sys.jobs[j].state.Pending?
    requires forall k :: k in r.started <==> 0 <= k < |r.sys.jobs| && r.sys.jobs[k].state.PendingAllocation?
    ensures Distinct(r.started + [j])
    ensures var t := r.sys.Start(j, ns); forall k :: k in r.started + [j] <==> 0 <= k < |t.jobs| && t.jobs[k].state.PendingAllocation?
  {
  }

  lemma StartKeepsLists(s0: Sys, r: Round, j: int, ns: seq<int>, b: Agreements, pending: seq<int>)
    requires ListsOk(s0, r) && 0 <= j < |r.sys.jobs| && r.sys.jobs[j].state.Pending? && r.sys.jobs[j].assignedNodes == []
    requires Distinct(pending) && (forall k :: k in pending ==> k in r.pending && k != j)
    ensures ListsOk(s0, Round(r.sys.Start(j, ns), b, pending, RemoveEach(r.free, ns), r.started + [j]))
  {
    RemoveEachDistinct(r.free, ns);
    StartKeepsStarted(r, j, ns);
    forall n | n in RemoveEach(r.free, ns) ensures Available(r.sys.Start(j, ns), n) {
      StartKeepsFree(s0, r, j, ns, n);
    }
  }

  lemma StartKeepsReserved(strategy: Strategy, loaded: bool, s: Sys, a: Agreements, j: int, ns: seq<int>, b: Agreements)
    requires 0 <= j < |s.jobs| && s.jobs[j].state.Pending? && s.jobs[j].assignedNodes == []
    requires PendingOnly(s, a) && ReservedOut(s, a) && ReservationSizes(strategy, loaded, s, a, -1)
    requires Reduces(a, b) && !b.HasJob(j) && forall n :: n in ns ==> n !in b.nodeToJobId
    ensures PendingOnly(s.Start(j, ns), b) && ReservedOut(s.Start(j, ns), b) && ReservationSizes(strategy, loaded, s.Start(j, ns), b, -1)
  {
  }

  /** Step 2: a pending job starts on free nodes that nobody else has reserved afterwards. */
  lemma StartStep(strategy: Strategy, loaded: bool, s0: Sys, r: Round, j: int, ns: seq<int>, b: Agreements, pending: seq<int>)
    requires RoundOk(strategy, loaded, s0, r, -1) && j in r.pending
    requires ns != [] && Distinct(ns) && (forall n :: n in ns ==> n in r.free && n !in b.nodeToJobId)
    requires Distinct(pending) && (forall k :: k in pending ==> k in r.pending && k != j)
    requires Reduces(r.agreements, b) && Maps(strategy, b, |r.sys.jobs|) && !b.HasJob(j)
    requires RightSize(strategy, loaded, r.sys.jobs[j], |ns|)
    ensures RoundOk(strategy, loaded, s0, Round(r.sys.Start(j, ns), b, pending, RemoveEach(r.free, ns), r.started + [j]), -1)
  {
    assert JobOk(r.sys.jobs[j], |r.sys.nodes|);
    hide Inv;
    hide Evolves;
    hide JobsSized;
    hide Maps;
    StartFromLists(s0, r, j, ns);
    StartKeepsLists(s0, r, j, ns, b, pending);
    StartKeepsSizes(strategy, loaded, r.sys, j, ns);
    StartKeepsReserved(strategy, loaded, r.sys, r.agreements, j, ns, b);
  }

  lemma StartFromLists(s0: Sys, r: Round, j: int, ns: seq<int>)
    requires Inv(r.sys) && Evolves(s0, r.sys) && ListsOk(s0, r) && j in r.pending
    requires ns != [] && Distinct(ns) && (forall n :: n in ns ==> n in r.free)
    ensures Inv(r.sys.Start(j, ns)) && Evolves(s0, r.sys.Start(j, ns))
  {
    assert JobOk(r.sys.jobs[j], |r.sys.nodes|);
    StartKeepsInv(r.sys, j, ns);
    StartEvolves(s0, r.sys, j, ns);
  }

  lemma StartKeepsSizes(strategy: Strategy, loaded: bool, s: Sys, j: int, ns: seq<int>)
    requires JobsSized(strategy, loaded, s) && 0 <= j < |s.jobs| && s.jobs[j].assignedNodes == []
    requires s.jobs[j].nodesMin <= s.jobs[j].nodesPref <= s.jobs[j].nodesMax && RightSize(strategy, loaded, s.jobs[j], |ns|)
    ensures JobsSized(strategy, loaded, s.Start(j, ns))
  {
  }

  lemma DonateEvolves(s0: Sys, s: Sys, j: int, ns: seq<int>)
    requires Evolves(s0, s) && 0 <= j < |s.jobs| && IsRunningMalleable(s0.jobs[j])
    requires Distinct(s.jobs[j].assignedNodes) && s.jobs[j].nodesMin <= |s.jobs[j].assignedNodes| - |ns|
    requires Distinct(ns) && forall n :: n in ns ==> n in s.jobs[j].assignedNodes
    ensures Evolves(s0, s.ShrinkBy(j, ns))
  {
    var t := s.ShrinkBy(j, ns);
    RemoveEachDistinct(s.jobs[j].assignedNodes, ns);
    assert JobEvolves(s0, s0.jobs[j], s.jobs[j]);
    assert JobEvolves(s0, s0.jobs[j], t.jobs[j]);
    forall i | 0 <= i < |s0.nodes| ensures NodeEvolves(s0.nodes[i], t.nodes[i]) {
      assert NodeEvolves(s0.nodes[i], s.nodes[i]);
    }
  }

  /** Only the donor's claims change: a donated node is free afterwards, or still runs the donor. */
  lemma DonateKeepsLists(s0: Sys, r: Round, j: int, ns: seq<int>, b: Agreements)
    requires ListsOk(s0, r) && 0 <= j < |r.sys.jobs| && r.sys.jobs[j].Active() && Distinct(r.sys.jobs[j].assignedNodes)
    requires r.sys.jobs[j].nodesMin <= |r.sys.jobs[j].assignedNodes| - |ns|
    requires forall n :: n in ns ==> n in r.sys.jobs[j].assignedNodes
    ensures ListsOk(s0, r.(sys := r.sys.ShrinkBy(j, ns), agreements := b))
  {
    var t := r.sys.ShrinkBy(j, ns);
    RemoveEachDistinct(r.sys.jobs[j].assignedNodes, ns);
    forall n | n in r.free ensures Available(t, n) {
      assert Available(r.sys, n);
      assert !r.sys.jobs[j].Holds(n);
    }
  }

  lemma DonateKeepsReservedOut(s: Sys, a: Agreements, j: int, ns: seq<int>, b: Agreements)
    requires ReservedOut(s, a) && Exclusive(s.jobs) && 0 <= j < |s.jobs| && s.jobs[j].Active() && Distinct(s.jobs[j].assignedNodes)
    requires s.jobs[j].nodesMin <= |s.jobs[j].assignedNodes| - |ns|
    requires forall n :: n in ns ==> n in s.jobs[j].assignedNodes
    requires forall n :: n in b.nodeToJobId <==> n in a.nodeToJobId || n in ns
    ensures ReservedOut(s.ShrinkBy(j, ns), b)
  {
    var t := s.ShrinkBy(j, ns);
    RemoveEachDistinct(s.jobs[j].assignedNodes, ns);
    forall n, k | n in b.nodeToJobId && 0 <= k < |t.jobs| ensures !Claims(t.jobs[k], n) {
      if n in ns {
        assert s.jobs[j].Holds(n);
        assert k != j ==> !s.jobs[k].Holds(n);
      } else {
        assert !Claims(s.jobs[k], n);
      }
    }
  }

  /** Step 3: a malleable job gives up nodes above its minimum, which become reserved. */
  lemma DonateStep(strategy: Strategy, loaded: bool, s0: Sys, r: Round, j: int, ns: seq<int>, b: Agreements, p: int)
    requires RoundOk(strategy, loaded, s0, r, p) && 0 <= j < |r.sys.jobs| && IsRunningMalleable(s0.jobs[j])
    requires Distinct(ns) && (forall n :: n in ns ==> n in r.sys.jobs[j].assignedNodes)
    requires r.sys.jobs[j].nodesMin <= |r.sys.jobs[j].assignedNodes| - |ns|
    requires 0 <= p < |r.sys.jobs| && r.sys.jobs[p].state.Pending?
    requires Maps(strategy, b, |r.sys.jobs|) && (forall n :: n in b.nodeToJobId <==> n in r.agreements.nodeToJobId || n in ns)
    requires forall x :: x in b.jobToNodeIds ==> x in r.agreements.jobToNodeIds || x == p
    requires forall x :: x != p ==> b.NodesOf(x) == r.agreements.NodesOf(x)
    requires |b.NodesOf(p)| <= strategy.StartSize(r.sys.jobs[p])
    ensures RoundOk(strategy, loaded, s0, r.(sys := r.sys.ShrinkBy(j, ns), agreements := b), p)
  {
    ActiveIsSized(strategy, loaded, s0, r.sys, j);
    ShrinkKeepsInv(r.sys, j, ns);
    DonateEvolves(s0, r.sys, j, ns);
    DonateKeepsLists(s0, r, j, ns, b);
    DonateKeepsReservedOut(r.sys, r.agreements, j, ns, b);
    DonateKeepsSizes(strategy, loaded, r.sys, r.agreements, j, ns, b, p);
  }

  lemma DonateKeepsSizes(strategy: Strategy, loaded: bool, s: Sys, a: Agreements, j: int, ns: seq<int>, b: Agreements, p: int)
    requires JobsSized(strategy, loaded, s) && PendingOnly(s, a) && ReservationSizes(strategy, loaded, s, a, p)
    requires 0 <= j < |s.jobs| && s.jobs[j].Active() && 0 <= p < |s.jobs| && s.jobs[p].state.Pending?
    requires s.jobs[j].nodesMin <= |s.jobs[j].assignedNodes| - |ns|
    requires |s.ShrinkBy(j, ns).jobs[j].assignedNodes| == |s.jobs[j].assignedNodes| - |ns|
    requires forall x :: x in b.jobToNodeIds ==> x in a.jobToNodeIds || x == p
    requires forall x :: x != p ==> b.NodesOf(x) == a.NodesOf(x)
    requires |b.NodesOf(p)| <= strategy.StartSize(s.jobs[p])
    ensures JobsSized(strategy, loaded, s.ShrinkBy(j, ns)) && PendingOnly(s.ShrinkBy(j, ns), b) && ReservationSizes(strategy, loaded, s.ShrinkBy(j, ns), b, p)
  {
    assert JobSized(strategy, loaded, s.jobs[j]);
    assert JobSized(strategy, loaded, s.ShrinkBy(j, ns).jobs[j]);
  }

  lemma ExpandEvolves(s0: Sys, s: Sys, j: int, ns: seq<int>)
    requires Evolves(s0, s) && 0 <= j < |s.jobs| && IsRunningMalleable(s0.jobs[j])
    requires forall n :: n in ns ==> InitiallyFree(s0, n) && 0 <= n < |s.nodes| && s.nodes[n].running == {} && s.nodes[n].expected == {}
    requires |s.jobs[j].assignedNodes| + |ns| <= s.jobs[j].nodesMax
    ensures Evolves(s0, s.ExpandBy(j, ns))
  {
    var t := s.ExpandBy(j, ns);
    assert JobEvolves(s0, s0.jobs[j], s.jobs[j]);
    assert JobEvolves(s0, s0.jobs[j], t.jobs[j]);
    forall i | 0 <= i < |s0.nodes| ensures NodeEvolves(s0.nodes[i], t.nodes[i]) {
      assert NodeEvolves(s0.nodes[i], s.nodes[i]);
    }
  }

  lemma ExpandKeepsFree(s: Sys, j: int, ns: seq<int>, n: int)
    requires Available(s, n) && n !in ns && 0 <= j < |s.jobs| && s.jobs[j].Active()
    ensures Available(s.ExpandBy(j, ns), n)
  {
  }

  lemma ExpandKeepsLists(s0: Sys, r: Round, j: int, ns: seq<int>)
    requires ListsOk(s0, r) && 0 <= j < |r.sys.jobs| && r.sys.jobs[j].Active()
    requires Distinct(ns) && (forall n :: n in ns ==> n in r.free)
    ensures ListsOk(s0, r.(sys := r.sys.ExpandBy(j, ns), free := RemoveEach(r.free, ns)))
  {
    RemoveEachDistinct(r.free, ns);
    forall n | n in RemoveEach(r.free, ns) ensures Available(r.sys.ExpandBy(j, ns), n) {
      ExpandKeepsFree(r.sys, j, ns, n);
    }
  }

  /** Step 4: a malleable job grows by free unreserved nodes, up to its maximum. */
  lemma ExpandStep(strategy: Strategy, loaded: bool, s0: Sys, r: Round, j: int, ns: seq<int>)
    requires RoundOk(strategy, loaded, s0, r, -1) && 0 <= j < |r.sys.jobs| && IsRunningMalleable(s0.jobs[j])
    requires Distinct(ns) && (forall n :: n in ns ==> n in r.free && !r.agreements.HasNode(n))
    requires |r.sys.jobs[j].assignedNodes| + |ns| <= r.sys.jobs[j].nodesMax
    ensures RoundOk(strategy, loaded, s0, r.(sys := r.sys.ExpandBy(j, ns), free := RemoveEach(r.free, ns)), -1)
  {
    hide Inv;
    hide Evolves;
    hide ListsOk;
    hide JobsSized;
    hide Maps;
    hide ReservedOut;
    hide PendingOnly;
    hide JobOk;
    ActiveIsSized(strategy, loaded, s0, r.sys, j);
    ExpandFromLists(s0, r, j, ns);
    ExpandKeepsLists(s0, r, j, ns);
    ExpandKeepsSizes(strategy, loaded, r.sys, j, ns);
    ExpandKeepsReservations(strategy, loaded, r.sys, r.agreements, j, ns);
  }

  lemma ExpandFromLists(s0: Sys, r: Round, j: int, ns: seq<int>)
    requires Inv(r.sys) && Evolves(s0, r.sys) && ListsOk(s0, r)
    requires 0 <= j < |r.sys.jobs| && IsRunningMalleable(s0.jobs[j]) && r.sys.jobs[j].Active()
    requires Distinct(ns) && (forall n :: n in ns ==> n in r.free)
    requires |r.sys.jobs[j].assignedNodes| + |ns| <= r.sys.jobs[j].nodesMax
    ensures Inv(r.sys.ExpandBy(j, ns)) && Evolves(s0, r.sys.ExpandBy(j, ns))
  {
    forall n | n in ns ensures Available(r.sys, n) && r.sys.nodes[n].running == {} && r.sys.nodes[n].expected == {} {
      assert Available(r.sys, n);
      FreeIsUnclaimed(r.sys, n);
    }
    ExpandKeepsInv(r.sys, j, ns);
    ExpandEvolves(s0, r.sys, j, ns);
  }

  lemma ExpandKeepsSizes(strategy: Strategy, loaded: bool, s: Sys, j: int, ns: seq<int>)
    requires JobsSized(strategy, loaded, s) && 0 <= j < |s.jobs| && s.jobs[j].Active()
    requires |s.jobs[j].assignedNodes| + |ns| <= s.jobs[j].nodesMax
    ensures JobsSized(strategy, loaded, s.ExpandBy(j, ns))
  {
  }

  lemma ActiveIsSized(strategy: Strategy, loaded: bool, s0: Sys, s: Sys, j: int)
    requires Inv(s) && Evolves(s0, s) && JobsSized(strategy, loaded, s) && 0 <= j < |s.jobs| && IsRunningMalleable(s0.jobs[j])
    ensures s.jobs[j].Active() && JobOk(s.jobs[j], |s.nodes|) && JobSized(strategy, loaded, s.jobs[j])
    ensures !s.jobs[j].state.InReconfiguration? && s.jobs[j].kind.Malleable?
  {
  }

  lemma ExpandKeepsReservations(strategy: Strategy, loaded: bool, s: Sys, a: Agreements, j: int, ns: seq<int>)
    requires PendingOnly(s, a) && ReservedOut(s, a) && ReservationSizes(strategy, loaded, s, a, -1)
    requires 0 <= j < |s.jobs| && s.jobs[j].Active() && forall n :: n in ns ==> n !in a.nodeToJobId
    ensures PendingOnly(s.ExpandBy(j, ns), a) && ReservedOut(s.ExpandBy(j, ns), a) && ReservationSizes(strategy, loaded, s.ExpandBy(j, ns), a, -1)
  {
  }
}
