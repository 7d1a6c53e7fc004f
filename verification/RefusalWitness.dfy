/** A run in which a job runs on fewer nodes than its minimum: of the two nodes that a running job
    could spare for it, one is targeted for shutdown and refuses, the other alone is reserved. */
module RefusalWitness {
  import opened Sequences
  import opened RuntimePrediction
  import opened ShutdownCalendar
  import opened ClusterState
  import opened ShutdownPolicy
  import opened PowerSafety
  import opened AgreementMaps
  import opened SchedulingRound
  import opened Scheduler
  import opened ExpansionWitness
  import opened ReservationHistory

  const PREFERRING := SchedulerConfig(PrefStealAgreement, POLICY, 0.0, true, true, true, false)

  /** A malleable job that is done before the window, and one that is not and needs two nodes. */
  const SHORT: JobProfile := Profile(5000.0, 1, 0.0)
  const DONOR := JobView(Malleable, 1, 3, 3, SHORT, Pending, [], [], NoPrediction, false)
  const WAITER := JobView(Malleable, 2, 2, 2, PROFILE, Pending, [], [], NoPrediction, false)

  const MESSAGES := [Event(0.0, JobSubmit(DONOR)), Event(100.0, JobSubmit(WAITER)), Event(200.0, SchedulingPointReached(0))]

  function Donor(state: JobState, assignedNodes: seq<int>, executingNodes: seq<int>, work: real, now: real, count: NodeCount): JobView {
    DONOR.(state := state, assignedNodes := assignedNodes, executingNodes := executingNodes, prediction := Prediction(1, 5000.0, work, now, count))
  }

  const TARGETS := PolicyState(map[], map[], map[0 := true, 1 := true, 2 := false], -1, 0)
  const RESERVED := Agreements(map[1 := {2}], map[2 := 1], [2])

  lemma DaytimeCalendar(now: real)
    requires now == 0.0 || now == 100.0 || now == 200.0
    ensures var w := POLICY.windows[0]; !w.IsInWindow(now) && !w.IsInDrainLeadTime(now, 3600) && w.GetNextShutdownTime(now) == 7200
    ensures !POLICY.InAnyWindow(now) && !POLICY.InAnyDrainLeadTime(now)
  {
    assert (0.0 as real).Floor == 0 && (100.0 as real).Floor == 100 && (200.0 as real).Floor == 200;
    assert POLICY.windows == [POLICY.windows[0]] && POLICY.drainLeadTime == 3600;
  }

  lemma TwoAreTargeted()
    ensures TargetsFor(3, 0.25) == map[0 := true, 1 := true, 2 := false]
  {
    assert (3.0 * 0.75 as real).Floor == 2;
    assert TargetCount(3, 0.25) == 2;
    var m := PrefixFlags(3, 2);
    assert m[0] && m[1] && !m[2];
  }

  lemma TargetsStay(now: real)
    requires now == 0.0 || now == 100.0 || now == 200.0
    ensures Retarget(POLICY, NO_POLICY_STATE, 3, now) == TARGETS && Retarget(POLICY, TARGETS, 3, now) == TARGETS
  {
    hide ShutdownWindow.IsInWindow;
    hide ShutdownWindow.IsInDrainLeadTime;
    hide ShutdownWindow.GetNextShutdownTime;
    hide TargetsFor;
    DaytimeCalendar(now);
    TwoAreTargeted();
    assert ActiveWindowFrom(POLICY, now, 0) == -1;
    assert map[0 := true, 1 := true, 2 := false] != map[] by { assert 0 in map[0 := true, 1 := true, 2 := false]; }
  }

  /** Nodes that are busy, and a third one that is not targeted, stay as they are. */
  ghost predicate Unmoved(nodes: seq<NodeView>) {
    && |nodes| == 3 && (nodes == [NEW_NODE, NEW_NODE, NEW_NODE] || nodes == [BUSY, BUSY, BUSY] || nodes == [BUSY, BUSY, NEW_NODE])
  }

  lemma {:induction false} WalkMovesNothing(nodes: seq<NodeView>, now: real, k: nat)
    requires now == 0.0 || now == 100.0 || now == 200.0
    requires Unmoved(nodes) && k <= 3
    ensures UpdateNodesUpTo(POLICY, TARGETS, nodes, now, k) == (TARGETS, nodes)
  {
    if k > 0 {
      WalkMovesNothing(nodes, now, k - 1);
      hide PolicyConfig.InAnyWindow;
      hide PolicyConfig.InAnyDrainLeadTime;
      DaytimeCalendar(now);
      assert 0 in BUSY.running;
      assert StepNode(POLICY, TARGETS, nodes[k - 1], k - 1, now) == (TARGETS, nodes[k - 1]);
      assert nodes[k - 1 := nodes[k - 1]] == nodes;
    }
  }

  lemma NothingFires(nodes: seq<NodeView>, now: real)
    requires Unmoved(nodes)
    ensures FireTransitions(nodes, now) == nodes
  {
    var r := FireTransitions(nodes, now);
    assert forall i :: 0 <= i < 3 ==> r[i] == nodes[i];
  }

  lemma Prepared(policy: PolicyState, s: Sys, now: real)
    requires (policy == NO_POLICY_STATE || policy == TARGETS) && Unmoved(s.nodes) && (now == 0.0 || now == 100.0 || now == 200.0)
    ensures Prepare(POLICY, policy, s, now) == (TARGETS, UpdateRunningPredictions(s, now))
  {
    hide UpdateRunningPredictions;
    hide Retarget;
    hide UpdateNodesUpTo;
    hide FireTransitions;
    TargetsStay(now);
    WalkMovesNothing(s.nodes, now, 3);
    NothingFires(s.nodes, now);
    assert POLICY.IsActiveAt(now);
  }

  // ---- Who accepts what ------------------------------------------------------------------

  lemma FilterOfThree(p: int -> bool)
    requires p(0) && p(1) && p(2)
    ensures Filter(p, [0, 1, 2]) == [0, 1, 2]
  {
    FilterAll(p, [0, 1, 2]);
    hide Filter;
  }

  lemma Runtimes()
    ensures SHORT.PredictedRuntimeForNodes(3) == 5000.0 && SHORT.RelativeRate(2) == 1.0 && SHORT.RelativeRate(3) == 1.0
    ensures PROFILE.PredictedRuntimeForNodes(1) == 20000.0 && PROFILE.PredictedRuntimeForNodes(2) == 20000.0
  {
    assert SHORT.SerialShare(1) == 1.0 && SHORT.SerialShare(2) == 1.0 && SHORT.SerialShare(3) == 1.0;
    assert SHORT.Speedup(1) == 1.0 && SHORT.Speedup(2) == 1.0 && SHORT.Speedup(3) == 1.0;
    assert PROFILE.SerialShare(1) == 1.0 && PROFILE.SerialShare(2) == 1.0;
    assert PROFILE.Speedup(1) == 1.0 && PROFILE.Speedup(2) == 1.0;
  }

  /** Before the window, a powered node accepts the short job, and the long one if not targeted. */
  lemma Answers(ctx: Ctx, nodes: seq<NodeView>, n: int, runtime: real)
    requires ctx == Context(POLICY, TARGETS, ctx.now) && (ctx.now == 0.0 || ctx.now == 100.0 || ctx.now == 200.0)
    requires Unmoved(nodes) && 0 <= n < 3 && (runtime == 5000.0 || runtime == 20000.0)
    ensures Accepts(ctx, nodes, n, runtime, false) <==> runtime == 5000.0 || n == 2
  {
    hide ShutdownWindow.IsInWindow;
    hide ShutdownWindow.IsInDrainLeadTime;
    hide ShutdownWindow.GetNextShutdownTime;
    hide PolicyConfig.InAnyWindow;
    DaytimeCalendar(ctx.now);
    assert POLICY.IsActiveAt(ctx.now) && |POLICY.windows| == 1;
  }

  // ---- The rounds ------------------------------------------------------------------------

  lemma AllAccept(ctx: Ctx, s: Sys)
    requires ctx == Context(POLICY, TARGETS, 0.0) && s == Sys([NEW_NODE, NEW_NODE, NEW_NODE], [DONOR])
    ensures EligibleForPending(ctx, s, 0, [0, 1, 2], 3) == [0, 1, 2]
  {
    Runtimes();
    Answers(ctx, s.nodes, 0, 5000.0);
    Answers(ctx, s.nodes, 1, 5000.0);
    Answers(ctx, s.nodes, 2, 5000.0);
    hide Accepts;
    FilterOfThree(n => Accepts(ctx, s.nodes, n, 5000.0, false));
  }

  lemma FirstStart(ctx: Ctx, s: Sys)
    requires ctx == Context(POLICY, TARGETS, 0.0) && s == Sys([NEW_NODE, NEW_NODE, NEW_NODE], [DONOR])
    ensures AllocatePhase(PrefStealAgreement, ctx, Round(s, NO_AGREEMENTS, [0], [0, 1, 2], []), []) == Round(s.Start(0, [0, 1, 2]), NO_AGREEMENTS, [], [], [0])
  {
    hide EligibleForPending;
    AllAccept(ctx, s);
    var r, t := Round(s, NO_AGREEMENTS, [0], [0, 1, 2], []), Round(s.Start(0, [0, 1, 2]), NO_AGREEMENTS, [], [], [0]);
    AllAreTaken();
    hide RemoveEach;
    assert BackfillStart(r, 0, [0, 1, 2]) == t;
    hide BackfillStart;
    assert PreferredStart(ctx, s, 0, [0, 1, 2]) == (3, [0, 1, 2]);
    hide PreferredStart;
    assert BackfillPreferred(ctx, r, 0, []) == t by { assert [0, 1, 2][..3] == [0, 1, 2]; }
    hide BackfillPreferred;
    hide Sys.Start;
    assert Backfill(PrefStealAgreement, ctx, t, 1, []) == t;
    assert Filter(k => 0 <= k < |s.jobs| && s.jobs[k].prediction.NoPrediction?, []) == [];
  }

  lemma AllAreTaken()
    ensures RemoveEach([0, 1, 2], [0, 1, 2]) == []
  {
    assert RemoveFirst([0, 1, 2], 0) == [1, 2] && RemoveFirst([1, 2], 1) == [2] && RemoveFirst([2], 2) == [];
    assert [0, 1, 2][1..] == [1, 2] && [1, 2][1..] == [2] && [2][1..] == [];
  }

  lemma FreeOfThree(nodes: seq<NodeView>)
    requires |nodes| == 3 && (nodes[0].state.NodeFree? <==> nodes[1].state.NodeFree?) && (nodes[0].state.NodeFree? ==> nodes[2].state.NodeFree?)
    ensures FreeNodes(nodes) == if nodes[0].state.NodeFree? then [0, 1, 2] else if nodes[2].state.NodeFree? then [2] else []
  {
    assert Range(3) == [0, 1, 2];
    FilterLast(i => 0 <= i < |nodes| && nodes[i].state.NodeFree?);
    hide Filter;
    hide Range;
  }

  lemma FilterLast(p: int -> bool)
    requires p(0) <==> p(1)
    ensures Filter(p, [0, 1, 2]) == if p(0) then (if p(2) then [0, 1, 2] else [0, 1]) else if p(2) then [2] else []
  {
    FilterOfTwo(p, 0, 1);
    assert [0, 1, 2][..2] == [0, 1];
  }

  lemma NothingReservedYet(ctx: Ctx, r: Round)
    requires r.agreements == NO_AGREEMENTS && r.Indexed() && (r.pending == [0] || r.pending == [1]) && (r.free == [] || r.free == [0, 1, 2])
    ensures WithoutAgreements(ResolvePhase(PrefStealAgreement, ctx, r)) == r
  {
    hide ResolveOne;
    var j := r.pending[0];
    FilterOfOne(k => r.agreements.HasJob(k), j);
    FilterOfOne(k => !r.agreements.HasJob(k), j);
    FilterOfThree(n => !r.agreements.HasNode(n));
  }

  /** A round is over when the queue and the free list are empty. */
  lemma OverWhenEmpty(strategy: Strategy, ctx: Ctx, s: Sys, a: Agreements, r: Round, t: Round)
    requires r.Indexed() && |r.sys.jobs| == |s.jobs| && WithoutAgreements(ResolvePhase(strategy, ctx, BeginRound(s, a))) == r
    requires AllocatePhase(strategy, ctx, r, SoonestEndFirst(ctx, s)) == t && t.pending == [] && t.free == []
    ensures ScheduleRound(strategy, ctx, s, a) == t
  {
    hide ResolvePhase;
    hide WithoutAgreements;
    hide AllocatePhase;
    hide SoonestEndFirst;
  }

  lemma BeginsWithDonor(s: Sys)
    requires s == Sys([NEW_NODE, NEW_NODE, NEW_NODE], [DONOR])
    ensures BeginRound(s, NO_AGREEMENTS) == Round(s, NO_AGREEMENTS, [0], [0, 1, 2], [])
  {
    Queues(DONOR);
    FreeOfThree(s.nodes);
    hide PendingJobs;
    hide FreeNodes;
  }

  lemma NobodyRuns(ctx: Ctx, s: Sys)
    requires RunningJobs(s.jobs) == []
    ensures SoonestEndFirst(ctx, s) == []
  {
    hide RunningJobs;
  }

  /** The short job starts on its preferred three nodes. */
  lemma FirstRound(ctx: Ctx, s: Sys)
    requires ctx == Context(POLICY, TARGETS, 0.0) && s == Sys([NEW_NODE, NEW_NODE, NEW_NODE], [DONOR])
    ensures ScheduleRound(PrefStealAgreement, ctx, s, NO_AGREEMENTS) == Round(s.Start(0, [0, 1, 2]), NO_AGREEMENTS, [], [], [0])
  {
    hide ResolvePhase;
    hide WithoutAgreements;
    hide AllocatePhase;
    hide ScheduleRound;
    hide SoonestEndFirst;
    hide BeginRound;
    hide Sys.Start;
    hide RunningJobs;
    Queues(DONOR);
    NobodyRuns(ctx, s);
    BeginsWithDonor(s);
    NothingReservedYet(ctx, Round(s, NO_AGREEMENTS, [0], [0, 1, 2], []));
    FirstStart(ctx, s);
    OverWhenEmpty(PrefStealAgreement, ctx, s, NO_AGREEMENTS, Round(s, NO_AGREEMENTS, [0], [0, 1, 2], []),
                  Round(s.Start(0, [0, 1, 2]), NO_AGREEMENTS, [], [], [0]));
  }

  lemma WaitingOfTwo(jobs: seq<JobView>)
    requires |jobs| == 2 && !jobs[0].state.Pending? && jobs[1].state.Pending?
    ensures PendingJobs(jobs) == [1]
  {
    Ranges();
    FilterOfTwo(j => 0 <= j < |jobs| && jobs[j].state.Pending?, 0, 1);
    hide Filter;
    hide Range;
  }

  lemma MalleableOfTwo(jobs: seq<JobView>)
    requires |jobs| == 2 && !IsRunningMalleable(jobs[1])
    ensures RunningMalleable(jobs) == if IsRunningMalleable(jobs[0]) then [0] else []
  {
    Ranges();
    FilterOfTwo(j => 0 <= j < |jobs| && IsRunningMalleable(jobs[j]), 0, 1);
    hide Filter;
    hide Range;
  }

  /** The system when the second job has been submitted. */
  function Busy(): Sys {
    Sys([BUSY, BUSY, BUSY], [Donor(Running, [0, 1, 2], [0, 1, 2], 4900.0, 100.0, 3), WAITER])
  }

  /** The targeted node refuses, so only the other one is reserved. */
  lemma OneRefuses(ctx: Ctx, s: Sys)
    requires ctx == Context(POLICY, TARGETS, 100.0) && Unmoved(s.nodes) && |s.jobs| == 2 && s.jobs[1] == WAITER
    ensures FilterForReservation(ctx, s, 1, [1, 2]) == [2]
  {
    hide Unmoved;
    Runtimes();
    Answers(ctx, s.nodes, 1, 20000.0);
    Answers(ctx, s.nodes, 2, 20000.0);
    hide Accepts;
    FilterOfTwo(n => Accepts(ctx, s.nodes, n, 20000.0, false), 1, 2);
    FilterOfOne(n => Accepts(ctx, s.nodes, n, 20000.0, false), 2);
    assert EligibleForPending(ctx, s, 1, [1, 2], 2) == [2];
    assert EligibleForPending(ctx, s, 1, [2], 1) == [2];
    hide EligibleForPending;
    assert FilterForReservation(ctx, s, 1, [2]) == [2];
  }

  lemma NoneReserved(a: Agreements, ns: seq<int>)
    requires forall n :: n in ns ==> !a.HasNode(n)
    ensures NodesWithoutAgreement(a, ns) == ns
  {
    FilterAll(n => !a.HasNode(n), ns);
  }

  /** A donor of unreserved nodes offers what it holds beyond the aim. */
  lemma OffersTail(s: Sys, a: Agreements, j: int, required: int, aim: Aim, held: seq<int>, tail: seq<int>)
    requires 0 <= j < |s.jobs| && s.jobs[j].assignedNodes == held && 0 <= aim.Of(s.jobs[j]) <= |held| && held[aim.Of(s.jobs[j])..] == tail
    requires (forall n :: n in tail ==> !a.HasNode(n)) && required == |tail| > 0
    ensures AllocateResourcesFromJob(s, a, j, required, aim) == tail
  {
    NoneReserved(a, tail);
    hide NodesWithoutAgreement;
    assert tail[..required] == tail;
  }

  lemma DonorOffers()
    ensures AllocateResourcesFromJob(Busy(), NO_AGREEMENTS, 0, 2, ToMin) == [1, 2]
    ensures AllocateResourcesFromJob(Busy(), NO_AGREEMENTS, 0, 2, ToPref) == []
  {
    assert [0, 1, 2][1..] == [1, 2];
    assert Surplus(Busy(), NO_AGREEMENTS, 0, ToPref) == [];
    hide AllocateResourcesFromJob;
    OffersTail(Busy(), NO_AGREEMENTS, 0, 2, ToMin, [0, 1, 2], [1, 2]);
    OffersNothing(Busy(), NO_AGREEMENTS, 0, 2, ToPref);
  }

  lemma OffersNothing(s: Sys, a: Agreements, j: int, required: int, aim: Aim)
    requires Surplus(s, a, j, aim) == []
    ensures AllocateResourcesFromJob(s, a, j, required, aim) == []
  {
  }

  /** Asked alone, a donor makes a donation of what it offers. */
  lemma OneDonor(s: Sys, a: Agreements, j: int, required: int, aim: Aim)
    requires required > 0
    ensures var ns := AllocateResourcesFromJob(s, a, j, required, aim);
      SelectShrinkJobs(s, a, [j], required, aim) == if |ns| >= required then [Donation(j, ns)] else []
  {
    hide AllocateResourcesFromJob;
    var ns := AllocateResourcesFromJob(s, a, j, required, aim);
    assert [j][1..] == [];
    assert CollectDonations(s, a, [], required - |ns|, aim) == [];
    assert CollectDonations(s, a, [j], required, aim) == Prepend(j, ns, []);
    assert TotalDonated([Donation(j, ns)]) == |ns| by { assert [Donation(j, ns)][1..] == []; }
    assert [Donation(j, ns)] + [] == [Donation(j, ns)];
  }

  /** The donor can spare two nodes, and only above its minimum. */
  lemma TwoAreSelected()
    ensures SelectDonations(PrefStealAgreement, Busy(), NO_AGREEMENTS, [0], WAITER) == [Donation(0, [1, 2])]
  {
    hide SelectShrinkJobs;
    hide AllocateResourcesFromJob;
    DonorOffers();
    hide Busy;
    OneDonor(Busy(), NO_AGREEMENTS, 0, 2, ToPref);
    OneDonor(Busy(), NO_AGREEMENTS, 0, 2, ToMin);
  }

  /** The system when the donor has given up the node that accepts. */
  function Shrunk(): Sys {
    Sys([BUSY, BUSY, BUSY], [Donor(PendingReconfiguration, [0, 1], [0, 1, 2], 4900.0, 100.0, 3), WAITER])
  }

  lemma OneIsGivenUp()
    ensures Busy().ShrinkBy(0, [2]) == Shrunk() && NO_AGREEMENTS.Add(1, [2], 1) == RESERVED
  {
    var s, t := Busy(), Busy().ShrinkBy(0, [2]);
    assert RemoveEach([0, 1, 2], [2]) == [0, 1] by {
      assert [0, 1, 2][1..] == [1, 2] && [1, 2][1..] == [2] && [2][1..] == [];
      assert RemoveFirst([0, 1, 2], 2) == [0, 1];
    }
    assert {} - {0} == {} && BUSY.RemoveExpectedJob(0) == BUSY;
    assert t.nodes == [BUSY, BUSY, BUSY];
    assert t.jobs == Shrunk().jobs;
    assert NO_AGREEMENTS.Add(1, [2], 0) == NO_AGREEMENTS;
    assert {} + {2} == {2} && [] + [2] == [2];
  }

  lemma OneIsReserved(ctx: Ctx)
    requires ctx == Context(POLICY, TARGETS, 100.0)
    ensures ApplyShrinking(ctx, Round(Busy(), NO_AGREEMENTS, [1], [], []), [Donation(0, [1, 2])], 1) == Round(Shrunk(), RESERVED, [1], [], [])
  {
    OneRefuses(ctx, Busy());
    OneIsGivenUp();
    hide FilterForReservation;
    hide Sys.ShrinkBy;
    hide Agreements.Add;
    var r, t, d := Round(Busy(), NO_AGREEMENTS, [1], [], []), Round(Shrunk(), RESERVED, [1], [], []), Donation(0, [1, 2]);
    assert ApplyDonation(ctx, r, d, 1) == t;
    hide ApplyDonation;
    assert [d][1..] == [];
  }

  lemma Reserves(ctx: Ctx)
    requires ctx == Context(POLICY, TARGETS, 100.0)
    ensures ShrinkPhase(PrefStealAgreement, ctx, Round(Busy(), NO_AGREEMENTS, [1], [], []), [0]) == Round(Shrunk(), RESERVED, [1], [], [])
  {
    hide ApplyShrinking;
    hide SelectDonations;
    var r := Round(Busy(), NO_AGREEMENTS, [1], [], []);
    OneIsReserved(ctx);
    TwoAreSelected();
    DonorIsAlone();
    hide MostSurplusFirst;
    assert ShrinkForOne(PrefStealAgreement, ctx, r, 1, [0], [0]) == Round(Shrunk(), RESERVED, [1], [], []);
    hide ShrinkForOne;
    assert [1][1..] == [];
  }

  lemma DonorIsAlone()
    ensures MostSurplusFirst(Busy(), [0], ToPref) == [0]
  {
  }

  /** The second job waits; the running one makes room as far as its nodes accept. */
  lemma SecondRound(ctx: Ctx)
    requires ctx == Context(POLICY, TARGETS, 100.0)
    ensures ScheduleRound(PrefStealAgreement, ctx, Busy(), NO_AGREEMENTS) == Round(Shrunk(), RESERVED, [1], [], [])
  {
    hide ResolvePhase;
    hide WithoutAgreements;
    hide ShrinkPhase;
    var s := Busy();
    WaitingOfTwo(s.jobs);
    MalleableOfTwo(s.jobs);
    FreeOfThree(s.nodes);
    NothingReservedYet(ctx, Round(s, NO_AGREEMENTS, [1], [], []));
    Reserves(ctx);
    hide RunningMalleable;
    hide PendingJobs;
    hide FreeNodes;
    hide SoonestEndFirst;
  }

  /** The system after the donor's reconfiguration. */
  function Reconfigured(): Sys {
    Sys([BUSY, BUSY, NEW_NODE], [Donor(InReconfiguration, [0, 1], [0, 1], 4800.0, 200.0, 2), WAITER])
  }

  lemma NodeIsReleased()
    ensures Shrunk().SchedulingPoint(0, 200.0) == Reconfigured()
  {
    Runtimes();
    hide Profile.RelativeRate;
    var s, v := Shrunk(), Shrunk().jobs[0];
    var u := v.SetState(InReconfiguration, 200.0);
    assert u == Reconfigured().jobs[0] by {
      assert v.prediction.remainingWork - (200.0 - 100.0) * SHORT.RelativeRate(3) == 4800.0;
    }
    FilterAll(n => n !in [0, 1, 2], [0, 1]);
    FilterOfTwo(n => n !in [0, 1, 2], 0, 1);
    FilterOfTwo(n => n !in [0, 1], 0, 1);
    assert [0, 1, 2][..2] == [0, 1];
    assert Without([0, 1], [0, 1, 2]) == [] && Without([0, 1, 2], [0, 1]) == [2];
    assert {} - {0} == {} && BUSY.RemoveExpectedJob(0) == BUSY;
    assert {0} - {0} == {} && BUSY.CompleteJob(0) == NEW_NODE;
    var nodes := ReconfigureNodes(s.nodes, [0, 1, 2], [0, 1], [0, 1], 0);
    assert nodes == [BUSY, BUSY, NEW_NODE];
    assert s.jobs[0 := u] == Reconfigured().jobs;
  }

  lemma NothingToSteal()
    ensures RESERVED.Steal(1, [2]) == RESERVED && RESERVED.Remove(1) == NO_AGREEMENTS
  {
    assert Least({2}) == 2 && {2} - {2} == {};
    assert Ascending({2}) == [2] by { assert Ascending({}) == []; assert [2] + [] == [2]; }
    FilterOfOne(n => n !in [2], 2);
    FilterOfOne(n => n !in RESERVED.NodesOf(1), 2);
    assert SwapTwo(RESERVED) == 0;
    assert RemoveFirst([2], 2) == [];
    assert map[2 := 1] - {2} == map[];
    assert map[1 := {2}] - {1} == map[];
    assert RESERVED.RemoveNodeMappings([2], 0) == RESERVED;
  }

  function SwapTwo(a: Agreements): nat {
    a.SwapCount(1, [2])
  }

  lemma WaiterIsAccepted(ctx: Ctx)
    requires ctx == Context(POLICY, TARGETS, 200.0)
    ensures EligibleForPending(ctx, Reconfigured(), 1, [2], 1) == [2]
  {
    Runtimes();
    Answers(ctx, Reconfigured().nodes, 2, 20000.0);
    hide Accepts;
    FilterOfOne(n => Accepts(ctx, Reconfigured().nodes, n, 20000.0, false), 2);
  }

  lemma OneReserved(a: Agreements, j: int, n: int)
    requires a.HasNode(n) && n in a.NodesOf(j)
    ensures NodesWithAgreement(a, [n]) == [n] && ReservedFor(a, j, [n]) == [n]
  {
    FilterOfOne(x => a.HasNode(x), n);
    FilterOfOne(x => x in a.NodesOf(j), n);
    hide Filter;
  }

  lemma ReservedNodes()
    ensures NodesWithAgreement(RESERVED, [2]) == [2] && ReservedFor(RESERVED, 1, [2]) == [2]
  {
    hide NodesWithAgreement;
    hide ReservedFor;
    OneReserved(RESERVED, 1, 2);
  }

  lemma WaiterApplies(s: Sys)
    requires |s.jobs| == 2
    ensures SchedulingRound.ApplyAgreement(Round(s, RESERVED, [1], [2], []), 1, [2]) == Round(s.Start(1, [2]), RESERVED, [], [], [1])
  {
    hide Sys.Start;
    assert RemoveFirst([1], 1) == [];
    assert RemoveEach([2], [2]) == [] by { assert [2][1..] == [] && RemoveFirst([2], 2) == []; }
  }

  lemma StartsShort(ctx: Ctx)
    requires ctx == Context(POLICY, TARGETS, 200.0)
    ensures ResolveStealOne(ctx, Round(Reconfigured(), RESERVED, [1], [2], []), 1) == Round(Reconfigured().Start(1, [2]), NO_AGREEMENTS, [], [], [1])
  {
    hide EligibleForPending;
    hide NodesWithAgreement;
    hide ReservedFor;
    hide SchedulingRound.ApplyAgreement;
    hide Agreements.Steal;
    hide Agreements.Remove;
    hide Sys.Start;
    var s := Reconfigured();
    assert |s.jobs| == 2;
    WaiterIsAccepted(ctx);
    ReservedNodes();
    WaiterApplies(s);
    NothingToSteal();
    hide Reconfigured;
    assert |RESERVED.NodesOf(1)| == 1;
    assert AssignStolen(ctx, Round(s, RESERVED, [1], [2], []), 1, [2], 1) == Round(s.Start(1, [2]), NO_AGREEMENTS, [], [], [1]);
  }

  lemma WaiterIsTarget()
    ensures WithAgreement(RESERVED, [1]) == [1]
  {
    FilterOfOne(j => RESERVED.HasJob(j), 1);
  }

  lemma ResolvesWaiter(ctx: Ctx)
    requires ctx == Context(POLICY, TARGETS, 200.0)
    ensures WithoutAgreements(ResolvePhase(PrefStealAgreement, ctx, Round(Reconfigured(), RESERVED, [1], [2], [])))
         == Round(Reconfigured().Start(1, [2]), NO_AGREEMENTS, [], [], [1])
  {
    hide ResolveStealOne;
    hide WithAgreement;
    hide NodesWithAgreement;
    hide Sys.Start;
    var r := Round(Reconfigured(), RESERVED, [1], [2], []);
    assert |r.sys.jobs| == 2;
    hide Reconfigured;
    StartsShort(ctx);
    WaiterIsTarget();
    ReservedNodes();
    assert !StopsResolving(PrefStealAgreement, r);
    assert [1][1..] == [];
    var t := ResolveStealOne(ctx, r, 1);
    assert Resolve(PrefStealAgreement, ctx, t, []) == t;
  }

  /** The released node is all that is reserved, so the job starts on one node instead of two. */
  lemma ThirdRound(ctx: Ctx)
    requires ctx == Context(POLICY, TARGETS, 200.0)
    ensures ScheduleRound(PrefStealAgreement, ctx, Reconfigured(), RESERVED) == Round(Reconfigured().Start(1, [2]), NO_AGREEMENTS, [], [], [1])
  {
    hide ResolvePhase;
    hide WithoutAgreements;
    var s := Reconfigured();
    WaitingOfTwo(s.jobs);
    MalleableOfTwo(s.jobs);
    FreeOfThree(s.nodes);
    ResolvesWaiter(ctx);
    hide RunningMalleable;
    hide PendingJobs;
    hide FreeNodes;
    hide SoonestEndFirst;
    hide Sys.Start;
  }

  // ---- The run ---------------------------------------------------------------------------

  function World1(): World {
    World(Sys([BUSY, BUSY, BUSY], [Donor(Running, [0, 1, 2], [0, 1, 2], 5000.0, 0.0, 3)]), TARGETS, NO_AGREEMENTS, 0.0, 0.0)
  }

  function World2(): World {
    World(Shrunk(), TARGETS, RESERVED, 100.0, 100.0)
  }

  lemma DonorStarts(w: World)
    requires w == NewWorld(3)
    ensures Possible(w, MESSAGES[0]) && Handle(PREFERRING, w, MESSAGES[0]) == World1()
  {
    hide Prepare;
    hide ScheduleRound;
    var s := Sys([NEW_NODE, NEW_NODE, NEW_NODE], [DONOR]);
    assert w.sys.nodes == [NEW_NODE, NEW_NODE, NEW_NODE] && w.sys.Submit(DONOR) == s;
    Prepared(NO_POLICY_STATE, s, 0.0);
    assert UpdateRunningPredictions(s, 0.0) == s;
    FirstRound(Context(POLICY, TARGETS, 0.0), s);
    var t := s.Start(0, [0, 1, 2]);
    assert [] + [0, 1, 2] == [0, 1, 2] && {} + {0} == {0} && NEW_NODE.AllocateJob(0) == BUSY;
    var u := t.ForwardAllocation(0, 0.0);
    assert u.nodes == [BUSY, BUSY, BUSY];
    assert u.jobs == World1().sys.jobs;
    assert ForwardAll(t, [0], 0.0) == u;
  }

  lemma WaiterReserves(w: World)
    requires w == World1()
    ensures Possible(w, MESSAGES[1]) && Handle(PREFERRING, w, MESSAGES[1]) == World2()
  {
    hide Prepare;
    hide ScheduleRound;
    hide Profile.RelativeRate;
    Runtimes();
    var s := w.sys.Submit(WAITER);
    Prepared(TARGETS, s, 100.0);
    assert 5000.0 - (100.0 - 0.0) * SHORT.RelativeRate(3) == 4900.0;
    assert UpdateRunningPredictions(s, 100.0).jobs == Busy().jobs;
    SecondRound(Context(POLICY, TARGETS, 100.0));
  }

  /** A job runs on fewer nodes than its minimum. */
  ghost predicate RunsShort(w: World, j: int) {
    0 <= j < |w.sys.jobs| && w.sys.jobs[j].state.Running? && 0 < |w.sys.jobs[j].executingNodes| < w.sys.jobs[j].nodesMin
  }

  lemma WaiterStartsShort(w: World)
    requires w == World2()
    ensures Possible(w, MESSAGES[2]) && RunsShort(Handle(PREFERRING, w, MESSAGES[2]), 1)
  {
    hide Prepare;
    hide ScheduleRound;
    NodeIsReleased();
    var s := Reconfigured();
    Prepared(TARGETS, s, 200.0);
    assert UpdateRunningPredictions(s, 200.0) == s;
    ThirdRound(Context(POLICY, TARGETS, 200.0));
    assert [] + [2] == [2];
    var t := s.Start(1, [2]);
    assert ForwardAll(t, [1], 200.0) == t.ForwardAllocation(1, 200.0);
  }

  lemma OneMoreMessage(w: World, e: Event, rest: seq<Event>)
    requires Possible(w, e) && PossibleRun(PREFERRING, Handle(PREFERRING, w, e), rest)
    ensures PossibleRun(PREFERRING, w, [e] + rest) && Run(PREFERRING, w, [e] + rest) == Run(PREFERRING, Handle(PREFERRING, w, e), rest)
  {
    hide Handle;
    assert ([e] + rest)[1..] == rest;
  }

  /** In this run a job runs on one node although it needs two, and it is on record that a node
      refused it. */
  lemma RefusalStartsBelowMinimum()
    ensures POLICY.Valid() && PossibleRun(PREFERRING, NewWorld(3), MESSAGES) && RunsShort(Run(PREFERRING, NewWorld(3), MESSAGES), 1)
    ensures 1 in HistoryOfRun(PREFERRING, NewWorld(3), MESSAGES, NO_HISTORY).refused
  {
    hide Handle;
    hide Possible;
    DonorStarts(NewWorld(3));
    WaiterReserves(World1());
    WaiterStartsShort(World2());
    OneMoreMessage(World2(), MESSAGES[2], []);
    OneMoreMessage(World1(), MESSAGES[1], [MESSAGES[2]] + []);
    OneMoreMessage(NewWorld(3), MESSAGES[0], [MESSAGES[1]] + ([MESSAGES[2]] + []));
    assert MESSAGES == [MESSAGES[0]] + ([MESSAGES[1]] + ([MESSAGES[2]] + []));
    hide HistoryOfRun;
    JobsBelowMinimumWereRefused(PREFERRING, 3, MESSAGES, 1);
  }
}
