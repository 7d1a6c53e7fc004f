/** Why jobs run on fewer nodes than they asked for. For every job the history records how many
    nodes were selected for it the last time donors made room, and whether one of them refused
    the job. A reservation, and a job started from it, is smaller than what was asked for exactly
    if some node refused; and nothing else makes a job run below its minimum. */
module ReservationHistory {
  import opened Sequences
  import opened RuntimePrediction
  import opened ClusterState
  import opened ClusterInvariant
  import opened ShutdownPolicy
  import opened PowerSafety
  import opened AgreementMaps
  import opened SchedulingRound
  import opened RoundInvariant
  import opened RoundProperties
  import opened Scheduler
  import opened Runs

  datatype History = History(asked: map<int, int>, refused: set<int>)

  const NO_HISTORY := History(map[], {})

  ghost function AfterReserving(ctx: Ctx, s: Sys, ds: seq<Donation>, p: int, h: History): History
    requires 0 <= p < |s.jobs|
  {
    if ds == [] then h
    else History(h.asked[p := TotalDonated(ds)], if AllSupport(ctx, s, ds, p) then h.refused - {p} else h.refused + {p})
  }

  ghost function HistoryForOne(strategy: Strategy, ctx: Ctx, r: Round, p: int, sorted: seq<int>, malleable: seq<int>, h: History): History
    requires 0 <= p < |r.sys.jobs|
  {
    var donors := DonorOrder(strategy, r.sys, sorted, malleable);
    AfterReserving(ctx, r.sys, SelectDonations(strategy, r.sys, r.agreements, donors, r.sys.jobs[p]), p, h)
  }

  ghost function HistoryForPending(strategy: Strategy, ctx: Ctx, r: Round, waiting: seq<int>, sorted: seq<int>, malleable: seq<int>, h: History): History
    requires forall j :: j in waiting ==> 0 <= j < |r.sys.jobs|
    requires (forall j :: j in sorted ==> 0 <= j < |r.sys.jobs|) && (forall j :: j in malleable ==> 0 <= j < |r.sys.jobs|)
    decreases |waiting|
  {
    if waiting == [] then h
    else
      assert waiting[0] in waiting && forall j :: j in waiting[1..] ==> j in waiting;
      HistoryForPending(strategy, ctx, ShrinkForOne(strategy, ctx, r, waiting[0], sorted, malleable), waiting[1..], sorted, malleable,
                        HistoryForOne(strategy, ctx, r, waiting[0], sorted, malleable, h))
  }

  ghost function HistoryOfShrinking(strategy: Strategy, ctx: Ctx, r: Round, malleable: seq<int>, h: History): History
    requires r.Indexed() && forall j :: j in malleable ==> 0 <= j < |r.sys.jobs|
  {
    if r.pending == [] || malleable == [] then h
    else HistoryForPending(strategy, ctx, r, r.pending, MostSurplusFirst(r.sys, malleable, strategy.RankedBy()), malleable, h)
  }

  /** The state of a round when its third phase begins. */
  function Backfilled(strategy: Strategy, ctx: Ctx, s: Sys, a: Agreements): (t: Round)
    ensures t.Indexed() && |t.sys.jobs| == |s.jobs| && |t.sys.nodes| == |s.nodes|
  {
    AllocatePhase(strategy, ctx, WithoutAgreements(ResolvePhase(strategy, ctx, BeginRound(s, a))), SoonestEndFirst(ctx, s))
  }

  ghost function HistoryOfRound(strategy: Strategy, ctx: Ctx, s: Sys, a: Agreements, h: History): History {
    HistoryOfShrinking(strategy, ctx, Backfilled(strategy, ctx, s, a), RunningMalleable(s.jobs), h)
  }

  ghost function HistoryOfInvocation(cfg: SchedulerConfig, w: World, now: real, h: History): History
    requires now >= 0.0
  {
    if cfg.minSchedulingInterval == 0.0 || now - w.lastInvocation >= cfg.minSchedulingInterval - EPSILON then
      var (policy, s) := Prepare(cfg.policy, w.policy, w.sys, now);
      HistoryOfRound(cfg.strategy, Context(cfg.policy, policy, now), s, w.agreements, h)
    else h
  }

  ghost function HistoryOfEvent(cfg: SchedulerConfig, w: World, e: Event, h: History): History
    requires Possible(w, e)
  {
    match e.message
    case InvokeScheduling => HistoryOfInvocation(cfg, w, e.at, h)
    case JobSubmit(v) =>
      if cfg.onJobSubmit then HistoryOfInvocation(cfg, w.(sys := w.sys.Submit(v), clock := e.at), e.at, h) else h
    case SchedulingPointReached(j) =>
      if cfg.onSchedulingPoint then HistoryOfInvocation(cfg, w, e.at, h)
      else if cfg.onReconfiguration && w.sys.jobs[j].state.PendingReconfiguration? then
        HistoryOfInvocation(cfg, w.(sys := w.sys.SchedulingPoint(j, e.at), clock := e.at), e.at, h)
      else h
    case WorkloadProcessed(j) =>
      if cfg.onJobFinalize then HistoryOfInvocation(cfg, w.(sys := w.sys.ProcessedWorkload(j, e.at), clock := e.at), e.at, h) else h
    case ApplicationRuns(j) => h
  }

  ghost function HistoryOfRun(cfg: SchedulerConfig, w: World, events: seq<Event>, h: History): History
    requires PossibleRun(cfg, w, events)
    decreases |events|
  {
    if events == [] then h else HistoryOfRun(cfg, Handle(cfg, w, events[0]), events[1..], HistoryOfEvent(cfg, w, events[0], h))
  }

  // ---- What the history says -----------------------------------------------------------------

  /** The sizes with which a pending job may be started. */
  ghost predicate IsSize(strategy: Strategy, v: JobView, count: int) {
    count == v.nodesMin || count == strategy.StartSize(v)
  }

  /** A reservation is as large as was asked for, except exactly if a donated node refused. */
  ghost predicate Recorded(strategy: Strategy, s: Sys, a: Agreements, h: History) {
    forall x :: x in a.jobToNodeIds && 0 <= x < |s.jobs| ==> RecordedOne(strategy, s.jobs[x], |a.NodesOf(x)|, h, x)
  }

  ghost predicate RecordedOne(strategy: Strategy, v: JobView, count: nat, h: History, x: int) {
    && x in h.asked && IsSize(strategy, v, h.asked[x])
    && count <= h.asked[x] && (count < h.asked[x] <==> x in h.refused)
  }

  /** A job runs on its minimum at least, unless a node refused it. */
  ghost predicate Justified(v: JobView, h: History, j: int) {
    && (v.state.PendingAllocation? ==> v.nodesMin <= |v.assignedNodes| || j in h.refused)
    && (v.Active() ==> (v.nodesMin <= |v.assignedNodes| && v.nodesMin <= |v.executingNodes|) || j in h.refused)
  }

  ghost predicate AllJustified(s: Sys, h: History) {
    forall j :: 0 <= j < |s.jobs| ==> Justified(s.jobs[j], h, j)
  }

  // ---- Who is started, and on how many nodes -------------------------------------------------

  /** Every started job was started before, or has as many nodes as it had reserved. */
  ghost predicate StartedFromReservations(r: Round, t: Round) {
    && Reduces(r.agreements, t.agreements) && |t.sys.jobs| == |r.sys.jobs|
    && forall j :: j in t.started && 0 <= j < |t.sys.jobs| ==>
         (j in r.started && t.sys.jobs[j] == r.sys.jobs[j]) || (r.agreements.HasJob(j) && |t.sys.jobs[j].assignedNodes| == |r.agreements.NodesOf(j)|)
  }

  lemma ResolvedOneFirst(r: Round, t: Round, u: Round, j: int)
    requires ResolvesOne(r, t, j) && StartedFromReservations(t, u) && 0 <= j < |r.sys.jobs| && r.agreements.HasJob(j) && j !in r.started
    ensures StartedFromReservations(r, u)
  {
    ReducesTransitive(r.agreements, t.agreements, u.agreements);
  }

  lemma PendingIsNotStarted(strategy: Strategy, loaded: bool, s0: Sys, r: Round, j: int)
    requires RoundOk(strategy, loaded, s0, r, -1) && j in r.pending
    ensures j !in r.started
  {
  }

  lemma {:induction false} ResolveStartsReserved(strategy: Strategy, ctx: Ctx, s0: Sys, r: Round, targets: seq<int>)
    requires RoundOk(strategy, ctx.cfg.loaded, s0, r, -1)
    requires Distinct(targets) && forall j :: j in targets ==> 0 <= j < |r.sys.jobs| && j in r.pending && r.agreements.HasJob(j)
    ensures StartedFromReservations(r, Resolve(strategy, ctx, r, targets))
    decreases |targets|
  {
    hide RoundOk;
    hide ResolveOne;
    hide StopsResolving;
    if targets != [] && !StopsResolving(strategy, r) {
      var j := targets[0];
      assert j in targets && forall k :: k in targets[1..] ==> k in targets && k != j;
      ResolveOneKeeps(strategy, ctx, s0, r, j);
      ResolveOneKeepsOthersPending(strategy, ctx, r, j);
      PendingIsNotStarted(strategy, ctx.cfg.loaded, s0, r, j);
      hide ResolvesOne;
      hide StartedFromReservations;
      var t := ResolveOne(strategy, ctx, r, j);
      ResolveStartsReserved(strategy, ctx, s0, t, targets[1..]);
      ResolvedOneFirst(r, t, Resolve(strategy, ctx, t, targets[1..]), j);
    }
  }

  /** Backfilling starts jobs on one of their sizes and leaves reservations and other jobs alone. */
  ghost predicate BackfillsTo(strategy: Strategy, r: Round, t: Round) {
    && t.agreements == r.agreements && |t.sys.jobs| == |r.sys.jobs|
    && (forall j :: j in t.pending ==> j in r.pending)
    && (forall j :: 0 <= j < |r.sys.jobs| && j !in r.pending ==> t.sys.jobs[j] == r.sys.jobs[j])
    && (forall j :: j in t.started && 0 <= j < |t.sys.jobs| ==> j in r.started || IsSize(strategy, t.sys.jobs[j], |t.sys.jobs[j].assignedNodes|))
  }

  lemma BackfillStartHasSize(strategy: Strategy, r: Round, i: nat, eligible: seq<int>, size: int)
    requires r.Indexed() && i < |r.pending| && 0 <= r.pending[i] < |r.sys.jobs| && r.sys.jobs[r.pending[i]].assignedNodes == []
    requires 0 <= size <= |eligible| && IsSize(strategy, r.sys.jobs[r.pending[i]], size)
    ensures BackfillsTo(strategy, r, BackfillStart(r, i, eligible[..size]))
  {
    var j := r.pending[i];
    assert j in r.pending;
    assert r.sys.jobs[j].assignedNodes + eligible[..size] == eligible[..size];
  }

  lemma BackfillOneHasSize(strategy: Strategy, ctx: Ctx, s0: Sys, r: Round, i: nat, running: seq<int>)
    requires RoundOk(strategy, ctx.cfg.loaded, s0, r, -1) && r.Indexed() && i < |r.pending| && HavePredictions(r.sys, running)
    ensures BackfillsTo(strategy, r, BackfillOne(strategy, ctx, r, i, running))
  {
    var j, head := r.pending[i], r.pending[0];
    assert j in r.pending && head in r.pending;
    var v := r.sys.jobs[j];
    assert v.assignedNodes == [] && HasSizes(v) && HasSizes(r.sys.jobs[head]) by {
      assert JobOk(v, |r.sys.nodes|) && JobOk(r.sys.jobs[head], |r.sys.nodes|);
    }
    hide RoundOk;
    hide BackfillStart;
    hide EligibleForPending;
    hide BackfillsTo;
    assert BackfillsTo(strategy, r, r) by { NothingBackfilled(strategy, r); }
    var t := BackfillOne(strategy, ctx, r, i, running);
    if t != r {
      if strategy.Prefers() {
        var (size, eligible) := PreferredStart(ctx, r.sys, j, r.free);
        BackfillStartHasSize(strategy, r, i, eligible, size);
      } else {
        BackfillStartHasSize(strategy, r, i, EligibleForPending(ctx, r.sys, j, r.free, v.nodesMin), v.nodesMin);
      }
    }
  }

  lemma NothingBackfilled(strategy: Strategy, r: Round)
    ensures BackfillsTo(strategy, r, r)
  {
  }

  lemma BackfillsOneMore(strategy: Strategy, loaded: bool, s0: Sys, r: Round, t: Round, u: Round)
    requires BackfillsTo(strategy, r, t) && BackfillsTo(strategy, t, u) && RoundOk(strategy, loaded, s0, t, -1)
    ensures BackfillsTo(strategy, r, u)
  {
    forall j | j in u.started && 0 <= j < |u.sys.jobs| ensures j in r.started || IsSize(strategy, u.sys.jobs[j], |u.sys.jobs[j].assignedNodes|) {
      if j in t.started { assert j !in t.pending; }
    }
  }

  lemma {:induction false} BackfillHasSizes(strategy: Strategy, ctx: Ctx, s0: Sys, r: Round, i: nat, running: seq<int>)
    requires RoundOk(strategy, ctx.cfg.loaded, s0, r, -1) && Unreserved(r) && r.Indexed() && HavePredictions(r.sys, running)
    ensures BackfillsTo(strategy, r, Backfill(strategy, ctx, r, i, running))
    decreases |r.pending| - i
  {
    hide RoundOk;
    hide Unreserved;
    hide BackfillOne;
    hide BackfillsTo;
    if i < |r.pending| && r.free != [] {
      var t := BackfillOne(strategy, ctx, r, i, running);
      BackfillOneKeeps(strategy, ctx, s0, r, i, running);
      BackfillOneHasSize(strategy, ctx, s0, r, i, running);
      BackfillHasSizes(strategy, ctx, s0, t, i + 1, running);
      BackfillsOneMore(strategy, ctx.cfg.loaded, s0, r, t, Backfill(strategy, ctx, t, i + 1, running));
    } else {
      NothingBackfilled(strategy, r);
    }
  }

  /** Shrinking and expansion change only the listed jobs, and start none. */
  ghost predicate OnlyListed(r: Round, t: Round, jobs: seq<int>) {
    && |t.sys.jobs| == |r.sys.jobs| && t.started == r.started
    && forall j :: 0 <= j < |r.sys.jobs| && j !in jobs ==> t.sys.jobs[j] == r.sys.jobs[j]
  }

  lemma {:induction false} ShrinkingIsListed(ctx: Ctx, r: Round, ds: seq<Donation>, p: int, donors: seq<int>)
    requires 0 <= p < |r.sys.jobs| && (forall k :: 0 <= k < |ds| ==> 0 <= ds[k].donor < |r.sys.jobs|) && DonorsIn(ds, donors)
    ensures OnlyListed(r, ApplyShrinking(ctx, r, ds, p), donors)
    decreases |ds|
  {
    hide FilterForReservation;
    if ds != [] {
      assert DonorsIn(ds[1..], donors);
      ShrinkingIsListed(ctx, ApplyDonation(ctx, r, ds[0], p), ds[1..], p, donors);
    }
  }

  lemma SelectedAreListed(strategy: Strategy, s: Sys, a: Agreements, donors: seq<int>, v: JobView)
    ensures DonorsIn(SelectDonations(strategy, s, a, donors, v), donors)
  {
    DonorsAreListed(s, a, donors, v.nodesPref, ToPref);
    DonorsAreListed(s, a, donors, v.nodesMin, ToPref);
    DonorsAreListed(s, a, donors, v.nodesMin, ToMin);
  }

  lemma {:induction false} ReservingIsListed(strategy: Strategy, ctx: Ctx, r: Round, waiting: seq<int>, sorted: seq<int>, malleable: seq<int>)
    requires forall j :: j in waiting ==> 0 <= j < |r.sys.jobs|
    requires (forall j :: j in sorted <==> j in malleable) && (forall j :: j in malleable ==> 0 <= j < |r.sys.jobs|)
    ensures OnlyListed(r, ShrinkForPending(strategy, ctx, r, waiting, sorted, malleable), malleable)
    decreases |waiting|
  {
    hide ApplyShrinking;
    hide SelectDonations;
    if waiting != [] {
      var p, tail := waiting[0], waiting[1..];
      assert p in waiting && forall j :: j in tail ==> j in waiting;
      var donors := DonorOrder(strategy, r.sys, sorted, malleable);
      assert forall j :: j in donors <==> j in malleable;
      SelectedAreListed(strategy, r.sys, r.agreements, donors, r.sys.jobs[p]);
      ShrinkingIsListed(ctx, r, SelectDonations(strategy, r.sys, r.agreements, donors, r.sys.jobs[p]), p, donors);
      ReservingIsListed(strategy, ctx, ShrinkForOne(strategy, ctx, r, p, sorted, malleable), tail, sorted, malleable);
    }
  }

  lemma {:induction false} ExpandingIsListed(strategy: Strategy, ctx: Ctx, r: Round, jobs: seq<int>, aim: Aim)
    requires forall j :: j in jobs ==> 0 <= j < |r.sys.jobs|
    ensures OnlyListed(r, ExpandJobs(strategy, ctx, r, jobs, aim), jobs) && ExpandJobs(strategy, ctx, r, jobs, aim).agreements == r.agreements
    decreases |jobs|
  {
    hide ExpansionFor;
    hide ExpansionTarget;
    if jobs != [] && r.free != [] {
      var j, tail := jobs[0], jobs[1..];
      assert j in jobs && forall k :: k in tail ==> k in jobs;
      ExpandingIsListed(strategy, ctx, ExpandJob(strategy, ctx, r, j, aim), tail, aim);
    }
  }

  lemma ExpansionIsListed(strategy: Strategy, ctx: Ctx, r: Round, malleable: seq<int>)
    requires forall j :: j in malleable ==> 0 <= j < |r.sys.jobs|
    ensures var t := ExpandPhase(strategy, ctx, r, malleable); OnlyListed(r, t, malleable) && t.agreements == r.agreements
  {
    hide ExpandJobs;
    ExpandingIsListed(strategy, ctx, r, LeastSurplusFirst(r.sys, malleable, strategy.RankedBy()), ToPref);
    var t := if strategy.Prefers() then ExpandTo(strategy, ctx, r, malleable, ToPref) else r;
    ExpandingIsListed(strategy, ctx, t, LeastSurplusFirst(t.sys, malleable, strategy.RankedBy()), ToMax);
  }

  // ---- The stages of a round -----------------------------------------------------------------

  function Resolved(strategy: Strategy, ctx: Ctx, s: Sys, a: Agreements): (t: Round)
    ensures t.Indexed() && |t.sys.jobs| == |s.jobs| && |t.sys.nodes| == |s.nodes|
  {
    ResolvePhase(strategy, ctx, BeginRound(s, a))
  }

  lemma ResolvedStage(strategy: Strategy, ctx: Ctx, s: Sys, a: Agreements)
    requires Settled(strategy, ctx.cfg.loaded, s, a)
    ensures StartedFromReservations(BeginRound(s, a), Resolved(strategy, ctx, s, a))
    ensures var t := WithoutAgreements(Resolved(strategy, ctx, s, a)); RoundOk(strategy, ctx.cfg.loaded, s, t, -1) && Unreserved(t)
  {
    var r := BeginRound(s, a);
    RoundBeginsOk(strategy, ctx.cfg.loaded, s, a);
    FilterDistinct(j => r.agreements.HasJob(j), r.pending);
    hide RoundOk;
    hide Settled;
    hide Resolve;
    ResolveStartsReserved(strategy, ctx, s, r, WithAgreement(r.agreements, r.pending));
    ResolvePhaseKeeps(strategy, ctx, s, r);
  }

  lemma BackfilledStage(strategy: Strategy, ctx: Ctx, s: Sys, a: Agreements)
    requires Settled(strategy, ctx.cfg.loaded, s, a)
    ensures BackfillsTo(strategy, WithoutAgreements(Resolved(strategy, ctx, s, a)), Backfilled(strategy, ctx, s, a))
    ensures var t := Backfilled(strategy, ctx, s, a); RoundOk(strategy, ctx.cfg.loaded, s, t, -1) && Unreserved(t)
  {
    hide RoundOk;
    hide Settled;
    hide BackfillsTo;
    hide Unreserved;
    hide Resolved;
    hide WithoutAgreements;
    hide AllocatePhase;
    ResolvedStage(strategy, ctx, s, a);
    var r, running := WithoutAgreements(Resolved(strategy, ctx, s, a)), SoonestEndFirst(ctx, s);
    assert Backfilled(strategy, ctx, s, a) == AllocatePhase(strategy, ctx, r, running) by { ResolvedIsPhase(strategy, ctx, s, a); }
    AllocatePhaseKeeps(strategy, ctx, s, r, running);
    AllocationHasSizes(strategy, ctx, s, r, running);
  }

  lemma ResolvedIsPhase(strategy: Strategy, ctx: Ctx, s: Sys, a: Agreements)
    ensures Resolved(strategy, ctx, s, a) == ResolvePhase(strategy, ctx, BeginRound(s, a))
  {
  }

  lemma AllocationHasSizes(strategy: Strategy, ctx: Ctx, s0: Sys, r: Round, running: seq<int>)
    requires RoundOk(strategy, ctx.cfg.loaded, s0, r, -1) && Unreserved(r) && r.Indexed()
    requires (forall j :: j in running ==> 0 <= j < |r.sys.jobs|) && RanAtStart(s0, running)
    ensures BackfillsTo(strategy, r, AllocatePhase(strategy, ctx, r, running))
  {
    hide RoundOk;
    hide Unreserved;
    hide Backfill;
    hide BackfillsTo;
    RoundHasPredictions(strategy, ctx.cfg.loaded, s0, r, running);
    NothingBackfilled(strategy, r);
    BackfillHasSizes(strategy, ctx, s0, r, 0, running);
  }

  lemma LastStages(strategy: Strategy, ctx: Ctx, s: Sys, a: Agreements)
    ensures var r, t := Backfilled(strategy, ctx, s, a), ScheduleRound(strategy, ctx, s, a);
      && OnlyListed(r, t, RunningMalleable(s.jobs))
      && t.agreements == ShrinkPhase(strategy, ctx, r, RunningMalleable(s.jobs)).agreements
  {
    hide ShrinkForPending;
    hide ExpandPhase;
    hide Backfilled;
    var r, malleable := Backfilled(strategy, ctx, s, a), RunningMalleable(s.jobs);
    ReservingIsListed(strategy, ctx, r, r.pending, MostSurplusFirst(r.sys, malleable, strategy.RankedBy()), malleable);
    ExpansionIsListed(strategy, ctx, ShrinkPhase(strategy, ctx, r, malleable), malleable);
    assert ScheduleRound(strategy, ctx, s, a) == ExpandPhase(strategy, ctx, ShrinkPhase(strategy, ctx, r, malleable), malleable) by {
      BackfilledIsPhase(strategy, ctx, s, a);
    }
  }

  lemma BackfilledIsPhase(strategy: Strategy, ctx: Ctx, s: Sys, a: Agreements)
    ensures Backfilled(strategy, ctx, s, a)
         == AllocatePhase(strategy, ctx, WithoutAgreements(ResolvePhase(strategy, ctx, BeginRound(s, a))), SoonestEndFirst(ctx, s))
  {
  }

  /** Started jobs are not among the malleable jobs of the beginning. */
  lemma StartedAreNotMalleable(strategy: Strategy, loaded: bool, s0: Sys, r: Round, j: int)
    requires RoundOk(strategy, loaded, s0, r, -1) && NoStarts(s0) && j in r.started
    ensures 0 <= j < |r.sys.jobs| && |r.sys.jobs| == |s0.jobs| && s0.jobs[j].state.Pending? && j !in RunningMalleable(s0.jobs) && j !in r.pending
    ensures r.sys.jobs[j].nodesMin == s0.jobs[j].nodesMin && r.sys.jobs[j].nodesPref == s0.jobs[j].nodesPref
  {
    assert JobEvolves(s0, s0.jobs[j], r.sys.jobs[j]);
  }

  /** A job that a round starts from its reservation gets as many nodes as are reserved, which are
      fewer than were asked for exactly if a donated node refused the job. Every other job that
      the round starts gets exactly one of the sizes of the strategy. */
  lemma RoundStartsAsAsked(strategy: Strategy, ctx: Ctx, s: Sys, a: Agreements, h: History, j: int)
    requires Settled(strategy, ctx.cfg.loaded, s, a) && Recorded(strategy, s, a, h)
    requires j in ScheduleRound(strategy, ctx, s, a).started
    ensures 0 <= j < |s.jobs| && s.jobs[j].state.Pending?
    ensures var fromReservation, count := j in Resolved(strategy, ctx, s, a).started, |ScheduleRound(strategy, ctx, s, a).sys.jobs[j].assignedNodes|;
      && (fromReservation ==> a.HasJob(j) && count == |a.NodesOf(j)| && RecordedOne(strategy, s.jobs[j], count, h, j))
      && (!fromReservation ==> IsSize(strategy, s.jobs[j], count))
  {
    assert NoStarts(s);
    hide RoundOk;
    hide Settled;
    hide Unreserved;
    hide ScheduleRound;
    hide Resolved;
    hide Backfilled;
    hide RunningMalleable;
    hide RecordedOne;
    hide IsSize;
    ResolvedStage(strategy, ctx, s, a);
    BackfilledStage(strategy, ctx, s, a);
    LastStages(strategy, ctx, s, a);
    var r1, r3 := Resolved(strategy, ctx, s, a), Backfilled(strategy, ctx, s, a);
    StartedAreNotMalleable(strategy, ctx.cfg.loaded, s, r3, j);
    if j in r1.started {
      StartedAreNotMalleable(strategy, ctx.cfg.loaded, s, WithoutAgreements(r1), j);
    } else {
      SizesAreKept(strategy, s.jobs[j], r3.sys.jobs[j], |r3.sys.jobs[j].assignedNodes|);
    }
  }

  lemma SizesAreKept(strategy: Strategy, v: JobView, u: JobView, count: int)
    requires v.nodesMin == u.nodesMin && v.nodesPref == u.nodesPref
    ensures IsSize(strategy, v, count) <==> IsSize(strategy, u, count)
  {
  }

  // ---- The history through a round -----------------------------------------------------------

  ghost predicate SameLimits(s: Sys, t: Sys) {
    |t.jobs| == |s.jobs| && forall j :: 0 <= j < |s.jobs| ==> t.jobs[j].nodesMin == s.jobs[j].nodesMin && t.jobs[j].nodesPref == s.jobs[j].nodesPref
  }

  lemma RoundKeepsLimits(strategy: Strategy, loaded: bool, s0: Sys, r: Round, partial: int)
    requires RoundOk(strategy, loaded, s0, r, partial)
    ensures SameLimits(s0, r.sys)
  {
    forall j | 0 <= j < |s0.jobs| ensures r.sys.jobs[j].nodesMin == s0.jobs[j].nodesMin && r.sys.jobs[j].nodesPref == s0.jobs[j].nodesPref {
      assert JobEvolves(s0, s0.jobs[j], r.sys.jobs[j]);
    }
  }

  lemma RecordedCarries(strategy: Strategy, s: Sys, a: Agreements, t: Sys, b: Agreements, h: History)
    requires Recorded(strategy, s, a, h) && Reduces(a, b) && SameLimits(s, t)
    ensures Recorded(strategy, t, b, h)
  {
    forall x | x in b.jobToNodeIds && 0 <= x < |t.jobs| ensures RecordedOne(strategy, t.jobs[x], |b.NodesOf(x)|, h, x) {
      assert RecordedOne(strategy, s.jobs[x], |a.NodesOf(x)|, h, x);
    }
  }

  /** Reserving for job `p` changes only that job's entries. */
  lemma ReservingRecords(strategy: Strategy, ctx: Ctx, r: Round, t: Round, ds: seq<Donation>, p: int, h: History)
    requires 0 <= p < |r.sys.jobs| && !r.agreements.HasJob(p) && ReservesFor(ctx, r, t, ds, p) && SameLimits(r.sys, t.sys)
    requires Recorded(strategy, r.sys, r.agreements, h) && (ds != [] ==> IsSize(strategy, r.sys.jobs[p], TotalDonated(ds)))
    ensures Recorded(strategy, t.sys, t.agreements, AfterReserving(ctx, r.sys, ds, p, h))
  {
    hide AllSupport;
    var a, b, h' := r.agreements, t.agreements, AfterReserving(ctx, r.sys, ds, p, h);
    forall x | x in b.jobToNodeIds && 0 <= x < |t.sys.jobs| ensures RecordedOne(strategy, t.sys.jobs[x], |b.NodesOf(x)|, h', x) {
      if x != p { assert b.HasJob(x) && a.HasJob(x); assert RecordedOne(strategy, r.sys.jobs[x], |a.NodesOf(x)|, h, x); }
    }
  }

  lemma OneRecords(strategy: Strategy, ctx: Ctx, s0: Sys, r: Round, p: int, sorted: seq<int>, malleable: seq<int>, h: History)
    requires RoundOk(strategy, ctx.cfg.loaded, s0, r, -1) && (forall n :: n in r.free ==> !r.agreements.HasNode(n)) && p in r.pending
    requires 0 <= p < |r.sys.jobs| && !r.agreements.HasJob(p) && Donors(s0, sorted) && Donors(s0, malleable)
    requires (forall j :: j in sorted ==> 0 <= j < |r.sys.jobs|) && (forall j :: j in malleable ==> 0 <= j < |r.sys.jobs|)
    requires Recorded(strategy, r.sys, r.agreements, h)
    ensures var t := ShrinkForOne(strategy, ctx, r, p, sorted, malleable);
      Recorded(strategy, t.sys, t.agreements, HistoryForOne(strategy, ctx, r, p, sorted, malleable, h))
  {
    var v := r.sys.jobs[p];
    assert 0 < v.nodesMin <= v.nodesPref by { assert JobOk(v, |r.sys.nodes|); }
    hide RoundOk;
    hide SelectDonations;
    hide ShrinkForOne;
    hide ReservesFor;
    hide Recorded;
    hide DonorOrder;
    hide DonationsOk;
    hide Donors;
    hide SameLimits;
    ShrinkForOneKeeps(strategy, ctx, s0, r, p, sorted, malleable);
    var donors := DonorOrder(strategy, r.sys, sorted, malleable);
    var t := ShrinkForOne(strategy, ctx, r, p, sorted, malleable);
    DonorsInOrder(strategy, s0, r.sys, sorted, malleable);
    SelectedAreOk(strategy, ctx.cfg.loaded, s0, r, donors, v);
    RoundKeepsLimits(strategy, ctx.cfg.loaded, s0, r, -1);
    RoundKeepsLimits(strategy, ctx.cfg.loaded, s0, t, -1);
    LimitsAreEqual(s0, r.sys, t.sys);
    ReservingRecords(strategy, ctx, r, t, SelectDonations(strategy, r.sys, r.agreements, donors, v), p, h);
  }

  lemma DonorsInOrder(strategy: Strategy, s0: Sys, s: Sys, sorted: seq<int>, malleable: seq<int>)
    requires Donors(s0, sorted) && Donors(s0, malleable)
    ensures Donors(s0, DonorOrder(strategy, s, sorted, malleable))
  {
  }

  /** Only pending jobs' entries change. */
  ghost predicate RefusalsKept(h: History, k: History, waiting: seq<int>) {
    forall j :: j !in waiting ==> (j in k.refused <==> j in h.refused)
  }

  lemma {:induction false} PendingRecords(strategy: Strategy, ctx: Ctx, s0: Sys, r: Round, waiting: seq<int>, sorted: seq<int>, malleable: seq<int>, h: History)
    requires RoundOk(strategy, ctx.cfg.loaded, s0, r, -1) && (forall n :: n in r.free ==> !r.agreements.HasNode(n))
    requires Distinct(waiting) && forall j :: j in waiting ==> 0 <= j < |r.sys.jobs| && j in r.pending && !r.agreements.HasJob(j)
    requires Donors(s0, sorted) && Donors(s0, malleable)
    requires (forall j :: j in sorted ==> 0 <= j < |r.sys.jobs|) && (forall j :: j in malleable ==> 0 <= j < |r.sys.jobs|)
    requires Recorded(strategy, r.sys, r.agreements, h)
    ensures var t, k := ShrinkForPending(strategy, ctx, r, waiting, sorted, malleable), HistoryForPending(strategy, ctx, r, waiting, sorted, malleable, h);
      Recorded(strategy, t.sys, t.agreements, k) && RefusalsKept(h, k, waiting)
    decreases |waiting|
  {
    hide RoundOk;
    hide ShrinkForOne;
    hide HistoryForOne;
    hide Recorded;
    if waiting != [] {
      var j, tail := waiting[0], waiting[1..];
      HeadAndTail(waiting);
      ShrinkForOneKeeps(strategy, ctx, s0, r, j, sorted, malleable);
      OneRecords(strategy, ctx, s0, r, j, sorted, malleable, h);
      OneKeepsRefusals(strategy, ctx, r, j, sorted, malleable, h);
      PendingRecords(strategy, ctx, s0, ShrinkForOne(strategy, ctx, r, j, sorted, malleable), tail, sorted, malleable,
                     HistoryForOne(strategy, ctx, r, j, sorted, malleable, h));
    }
  }

  lemma OneKeepsRefusals(strategy: Strategy, ctx: Ctx, r: Round, p: int, sorted: seq<int>, malleable: seq<int>, h: History)
    requires 0 <= p < |r.sys.jobs|
    ensures RefusalsKept(h, HistoryForOne(strategy, ctx, r, p, sorted, malleable, h), [p])
  {
  }

  lemma ShrinkingRecords(strategy: Strategy, ctx: Ctx, s0: Sys, r: Round, malleable: seq<int>, h: History)
    requires RoundOk(strategy, ctx.cfg.loaded, s0, r, -1) && Unreserved(r) && r.Indexed()
    requires Donors(s0, malleable) && forall j :: j in malleable ==> 0 <= j < |r.sys.jobs|
    requires Recorded(strategy, r.sys, r.agreements, h)
    ensures var t, k := ShrinkPhase(strategy, ctx, r, malleable), HistoryOfShrinking(strategy, ctx, r, malleable, h);
      Recorded(strategy, t.sys, t.agreements, k) && RefusalsKept(h, k, r.pending)
  {
    assert Distinct(r.pending);
    hide RoundOk;
    hide Recorded;
    hide ShrinkForPending;
    hide HistoryForPending;
    hide MostSurplusFirst;
    PendingRecords(strategy, ctx, s0, r, r.pending, MostSurplusFirst(r.sys, malleable, strategy.RankedBy()), malleable, h);
  }

  /** A round keeps the record right, and changes it for jobs only that are pending after it. */
  lemma RoundRecords(strategy: Strategy, ctx: Ctx, s: Sys, a: Agreements, h: History)
    requires Settled(strategy, ctx.cfg.loaded, s, a) && Recorded(strategy, s, a, h)
    ensures var t, k := ScheduleRound(strategy, ctx, s, a), HistoryOfRound(strategy, ctx, s, a, h);
      Recorded(strategy, t.sys, t.agreements, k) && RefusalsKept(h, k, Backfilled(strategy, ctx, s, a).pending)
  {
    hide RoundOk;
    hide Settled;
    hide Unreserved;
    hide ScheduleRound;
    hide Resolved;
    hide Backfilled;
    hide RunningMalleable;
    hide Recorded;
    hide ShrinkPhase;
    hide SameLimits;
    hide HistoryOfShrinking;
    ResolvedStage(strategy, ctx, s, a);
    BackfilledStage(strategy, ctx, s, a);
    LastStages(strategy, ctx, s, a);
    RoundIsSafe(strategy, ctx, s, a);
    var r3, t, malleable := Backfilled(strategy, ctx, s, a), ScheduleRound(strategy, ctx, s, a), RunningMalleable(s.jobs);
    RoundKeepsLimits(strategy, ctx.cfg.loaded, s, r3, -1);
    RoundKeepsLimits(strategy, ctx.cfg.loaded, s, t, -1);
    RecordedCarries(strategy, s, a, r3.sys, r3.agreements, h);
    assert Donors(s, malleable);
    ShrinkPhaseKeeps(strategy, ctx, s, r3, malleable);
    ShrinkingRecords(strategy, ctx, s, r3, malleable, h);
    var r4, k := ShrinkPhase(strategy, ctx, r3, malleable), HistoryOfShrinking(strategy, ctx, r3, malleable, h);
    RoundKeepsLimits(strategy, ctx.cfg.loaded, s, r4, -1);
    LimitsAreEqual(s, r4.sys, t.sys);
    SameIsReduced(r4.agreements);
    RecordedCarries(strategy, r4.sys, r4.agreements, t.sys, t.agreements, k);
  }

  lemma LimitsAreEqual(s: Sys, t: Sys, u: Sys)
    requires SameLimits(s, t) && SameLimits(s, u)
    ensures SameLimits(t, u)
  {
  }

  lemma SameIsReduced(a: Agreements)
    ensures Reduces(a, a)
  {
  }

  lemma StartIsJustified(strategy: Strategy, ctx: Ctx, s: Sys, a: Agreements, h: History, j: int)
    requires Settled(strategy, ctx.cfg.loaded, s, a) && Recorded(strategy, s, a, h) && j in ScheduleRound(strategy, ctx, s, a).started
    ensures 0 <= j < |s.jobs|
    ensures s.jobs[j].nodesMin <= |ScheduleRound(strategy, ctx, s, a).sys.jobs[j].assignedNodes| || j in HistoryOfRound(strategy, ctx, s, a, h).refused
  {
    RoundStartsAsAsked(strategy, ctx, s, a, h, j);
    RoundRecords(strategy, ctx, s, a, h);
    assert NoStarts(s) && s.jobs[j].nodesMin <= s.jobs[j].nodesPref by { assert JobOk(s.jobs[j], |s.nodes|); }
    hide Settled;
    hide RoundOk;
    hide Unreserved;
    hide ScheduleRound;
    hide Backfilled;
    hide HistoryOfRound;
    hide Resolved;
    BackfilledStage(strategy, ctx, s, a);
    LastStages(strategy, ctx, s, a);
    StartedAreNotMalleable(strategy, ctx.cfg.loaded, s, Backfilled(strategy, ctx, s, a), j);
  }

  lemma NonPendingIsJustified(strategy: Strategy, ctx: Ctx, s: Sys, a: Agreements, h: History, j: int)
    requires Settled(strategy, ctx.cfg.loaded, s, a) && Recorded(strategy, s, a, h) && 0 <= j < |s.jobs| && !s.jobs[j].state.Pending?
    ensures j in HistoryOfRound(strategy, ctx, s, a, h).refused <==> j in h.refused
  {
    assert NoStarts(s);
    hide Settled;
    hide RoundOk;
    hide Unreserved;
    hide ScheduleRound;
    hide Backfilled;
    hide HistoryOfRound;
    BackfilledStage(strategy, ctx, s, a);
    RoundRecords(strategy, ctx, s, a, h);
    PendingBeforeIfAfter(strategy, ctx.cfg.loaded, s, Backfilled(strategy, ctx, s, a), j);
  }

  lemma RoundEvolvesJob(strategy: Strategy, loaded: bool, s0: Sys, t: Round, j: int)
    requires RoundOk(strategy, loaded, s0, t, -1) && 0 <= j < |s0.jobs|
    ensures |t.sys.jobs| == |s0.jobs| && JobEvolves(s0, s0.jobs[j], t.sys.jobs[j])
    ensures j in t.started <==> t.sys.jobs[j].state.PendingAllocation?
  {
  }

  /** What a round may do to a job that is not pending keeps it justified. */
  lemma EvolvingIsJustified(s0: Sys, v: JobView, u: JobView, h: History, k: History, j: int)
    requires JobEvolves(s0, v, u) && Justified(v, h, j) && !v.state.Pending? && (j in k.refused <==> j in h.refused)
    ensures Justified(u, k, j)
  {
  }

  /** A round gives a job fewer nodes than its minimum only if a donated node refused it. */
  lemma RoundJustifies(strategy: Strategy, ctx: Ctx, s: Sys, a: Agreements, h: History, j: int)
    requires Settled(strategy, ctx.cfg.loaded, s, a) && Recorded(strategy, s, a, h) && 0 <= j < |s.jobs| && Justified(s.jobs[j], h, j)
    ensures Justified(ScheduleRound(strategy, ctx, s, a).sys.jobs[j], HistoryOfRound(strategy, ctx, s, a, h), j)
  {
    hide Settled;
    hide RoundOk;
    hide ScheduleRound;
    hide HistoryOfRound;
    var t, k := ScheduleRound(strategy, ctx, s, a), HistoryOfRound(strategy, ctx, s, a, h);
    RoundIsSafe(strategy, ctx, s, a);
    RoundEvolvesJob(strategy, ctx.cfg.loaded, s, t, j);
    if !s.jobs[j].state.Pending? {
      NonPendingIsJustified(strategy, ctx, s, a, h, j);
      EvolvingIsJustified(s, s.jobs[j], t.sys.jobs[j], h, k, j);
    } else if j in t.started {
      StartIsJustified(strategy, ctx, s, a, h, j);
    }
  }

  lemma PendingBeforeIfAfter(strategy: Strategy, loaded: bool, s0: Sys, r: Round, j: int)
    requires RoundOk(strategy, loaded, s0, r, -1) && NoStarts(s0) && 0 <= j < |s0.jobs| && !s0.jobs[j].state.Pending?
    ensures j !in r.pending
  {
    assert JobEvolves(s0, s0.jobs[j], r.sys.jobs[j]);
  }

  // ---- The history through a run -------------------------------------------------------------

  /** What holds between the messages of a run. */
  ghost predicate InRecord(cfg: SchedulerConfig, w: World, h: History) {
    && Settled(cfg.strategy, cfg.policy.loaded, w.sys, w.agreements)
    && Recorded(cfg.strategy, w.sys, w.agreements, h) && AllJustified(w.sys, h)
  }

  /** Before the strategy is asked, jobs only lose nodes, and no pending job changes. */
  lemma PrepareJustifies(cfg: PolicyConfig, policy: PolicyState, s: Sys, now: real, h: History)
    requires now >= 0.0 && Inv(s) && NoStarts(s) && AllJustified(s, h)
    ensures var t := Prepare(cfg, policy, s, now).1; AllJustified(t, h) && SameLimits(s, t)
  {
    hide Inv;
    hide Update;
    hide ApplyMalleablePolicy;
    hide UpdateRunningPredictions;
    var s1 := UpdateRunningPredictions(s, now);
    ProgressJustifies(s, now, h);
    UpdateKeepsInv(cfg, policy, s1, now);
    var (policy1, nodes1) := Update(cfg, policy, s1.nodes, now);
    var s2 := s1.(nodes := nodes1);
    ApplyMalleablePolicyKeepsInv(cfg, policy1, s2, now);
    LosingJustifies(s2, ApplyMalleablePolicy(cfg, policy1, s2, now).1, h);
  }

  lemma ProgressJustifies(s: Sys, now: real, h: History)
    requires Inv(s) && NoStarts(s) && AllJustified(s, h)
    ensures var t := UpdateRunningPredictions(s, now); Inv(t) && NoStarts(t) && AllJustified(t, h) && SameLimits(s, t)
  {
    var t := UpdateRunningPredictions(s, now);
    forall j | 0 <= j < |s.jobs| ensures SameButProgress(s.jobs[j], t.jobs[j]) && JobOk(t.jobs[j], |t.nodes|) && Justified(t.jobs[j], h, j) {
      assert JobOk(s.jobs[j], |s.nodes|) && Justified(s.jobs[j], h, j);
    }
    ProgressKeepsInv(s, t);
  }

  lemma LosingJustifies(s: Sys, t: Sys, h: History)
    requires Loses(s, t) && AllJustified(s, h)
    ensures AllJustified(t, h) && SameLimits(s, t)
  {
    forall j | 0 <= j < |t.jobs| ensures Justified(t.jobs[j], h, j) {
      assert JobLoses(s.jobs[j], t.jobs[j]) && Justified(s.jobs[j], h, j);
    }
  }

  /** A job that takes over its nodes runs on as many as it was assigned. */
  lemma ForwardingJustifies(strategy: Strategy, loaded: bool, s: Sys, a: Agreements, started: seq<int>, now: real, h: History)
    requires Forwarding(strategy, loaded, s, a, started) && AllJustified(s, h)
    ensures AllJustified(ForwardAll(s, started, now), h) && SameLimits(s, ForwardAll(s, started, now))
  {
    var t := ForwardAll(s, started, now);
    forall j | 0 <= j < |t.jobs| ensures Justified(t.jobs[j], h, j) && t.jobs[j].nodesMin == s.jobs[j].nodesMin && t.jobs[j].nodesPref == s.jobs[j].nodesPref {
      ForwardingTakesOver(strategy, loaded, s, a, started, now, j);
      assert Justified(s.jobs[j], h, j);
    }
  }

  /** A job that is reconfigured runs on as many nodes as it was assigned. */
  lemma AnswerJustifies(strategy: Strategy, loaded: bool, s: Sys, a: Agreements, started: seq<int>, requester: int, now: real, h: History)
    requires Forwarding(strategy, loaded, s, a, started) && AllJustified(s, h)
    ensures AllJustified(Answer(s, requester, now), h) && SameLimits(s, Answer(s, requester, now))
  {
    var t := Answer(s, requester, now);
    AnswerKeepsForwarding(strategy, loaded, s, a, started, requester, now);
    if 0 <= requester < |s.jobs| { assert JobOk(s.jobs[requester], |s.nodes|); }
    forall j | 0 <= j < |t.jobs| ensures Justified(t.jobs[j], h, j) {
      assert Justified(s.jobs[j], h, j);
    }
  }

  lemma InvocationRecords(cfg: SchedulerConfig, w: World, now: real, h: History, requester: int := -1)
    requires now >= 0.0 && InRecord(cfg, w, h)
    ensures InRecord(cfg, Schedule(cfg, w, now, requester), HistoryOfInvocation(cfg, w, now, h))
  {
    InvokeKeepsSettled(cfg, w, now, requester);
    assert Inv(w.sys) && NoStarts(w.sys);
    hide Settled;
    hide Inv;
    hide Recorded;
    hide SameLimits;
    hide Prepare;
    hide ScheduleRound;
    hide HistoryOfRound;
    hide AllJustified;
    if cfg.minSchedulingInterval == 0.0 || now - w.lastInvocation >= cfg.minSchedulingInterval - EPSILON {
      var (policy, s) := Prepare(cfg.policy, w.policy, w.sys, now);
      PrepareKeepsSettled(cfg.strategy, cfg.policy, w.policy, w.sys, w.agreements, now);
      PrepareJustifies(cfg.policy, w.policy, w.sys, now, h);
      SameIsReduced(w.agreements);
      RecordedCarries(cfg.strategy, w.sys, w.agreements, s, w.agreements, h);
      RoundAndForwardingRecord(cfg.strategy, Context(cfg.policy, policy, now), s, w.agreements, requester, now, h);
    }
  }

  lemma RoundAndForwardingRecord(strategy: Strategy, ctx: Ctx, s: Sys, a: Agreements, requester: int, now: real, h: History)
    requires Settled(strategy, ctx.cfg.loaded, s, a) && Recorded(strategy, s, a, h) && AllJustified(s, h)
    ensures var t, k := ScheduleRound(strategy, ctx, s, a), HistoryOfRound(strategy, ctx, s, a, h); var u := ForwardAll(Answer(t.sys, requester, now), t.started, now);
      Recorded(strategy, u, t.agreements, k) && AllJustified(u, k)
  {
    hide Settled;
    hide RoundOk;
    hide Forwarding;
    hide Recorded;
    hide SameLimits;
    hide ScheduleRound;
    hide HistoryOfRound;
    hide ForwardAll;
    var t, k := ScheduleRound(strategy, ctx, s, a), HistoryOfRound(strategy, ctx, s, a, h);
    RoundIsSafe(strategy, ctx, s, a);
    RoundRecords(strategy, ctx, s, a, h);
    forall j | 0 <= j < |t.sys.jobs| ensures Justified(t.sys.jobs[j], k, j) {
      assert Justified(s.jobs[j], h, j);
      RoundJustifies(strategy, ctx, s, a, h, j);
    }
    RoundEndsForwarding(strategy, ctx.cfg.loaded, s, t);
    AnswerKeepsForwarding(strategy, ctx.cfg.loaded, t.sys, t.agreements, t.started, requester, now);
    AnswerJustifies(strategy, ctx.cfg.loaded, t.sys, t.agreements, t.started, requester, now, k);
    hide Answer;
    var v := Answer(t.sys, requester, now);
    ForwardingJustifies(strategy, ctx.cfg.loaded, v, t.agreements, t.started, now, k);
    SameIsReduced(t.agreements);
    RecordedCarries(strategy, t.sys, t.agreements, v, t.agreements, k);
    RecordedCarries(strategy, v, t.agreements, ForwardAll(v, t.started, now), t.agreements, k);
  }

  /** A message changed one active job, which keeps its nodes or takes over those it is assigned. */
  lemma MessageRecords(cfg: SchedulerConfig, w: World, t: World, j: int, h: History)
    requires InRecord(cfg, w, h) && 0 <= j < |w.sys.jobs| && |t.sys.jobs| == |w.sys.jobs| && t.agreements == w.agreements
    requires Settled(cfg.strategy, cfg.policy.loaded, t.sys, t.agreements) && SameLimits(w.sys, t.sys)
    requires forall k :: 0 <= k < |w.sys.jobs| && k != j ==> t.sys.jobs[k] == w.sys.jobs[k]
    requires t.sys.jobs[j].Active() ==> w.sys.jobs[j].Active() && t.sys.jobs[j].assignedNodes == w.sys.jobs[j].assignedNodes
    requires t.sys.jobs[j].Active() ==> t.sys.jobs[j].executingNodes in {w.sys.jobs[j].executingNodes, w.sys.jobs[j].assignedNodes}
    requires !t.sys.jobs[j].state.PendingAllocation?
    ensures InRecord(cfg, t, h)
  {
    hide Settled;
    SameIsReduced(w.agreements);
    RecordedCarries(cfg.strategy, w.sys, w.agreements, t.sys, t.agreements, h);
    forall k | 0 <= k < |t.sys.jobs| ensures Justified(t.sys.jobs[k], h, k) {
      assert Justified(w.sys.jobs[k], h, k);
    }
  }

  lemma SubmissionRecords(cfg: SchedulerConfig, w: World, v: JobView, now: real, h: History)
    requires InRecord(cfg, w, h) && 1 <= v.nodesMin <= v.nodesPref <= v.nodesMax
    ensures InRecord(cfg, w.(sys := w.sys.Submit(v), clock := now), h)
  {
    SubmitKeepsSettled(cfg.strategy, cfg.policy.loaded, w.sys, w.agreements, v);
    var t := w.sys.Submit(v);
    forall j | 0 <= j < |t.jobs| ensures Justified(t.jobs[j], h, j) {
      if j < |w.sys.jobs| { assert Justified(w.sys.jobs[j], h, j); }
    }
    forall x | x in w.agreements.jobToNodeIds && 0 <= x < |t.jobs| ensures RecordedOne(cfg.strategy, t.jobs[x], |w.agreements.NodesOf(x)|, h, x) {
      assert x < |w.sys.jobs|;
      assert RecordedOne(cfg.strategy, w.sys.jobs[x], |w.agreements.NodesOf(x)|, h, x);
    }
  }

  lemma PointRecords(cfg: SchedulerConfig, w: World, j: int, now: real, h: History)
    requires InRecord(cfg, w, h) && 0 <= j < |w.sys.jobs|
    ensures InRecord(cfg, w.(sys := w.sys.SchedulingPoint(j, now), clock := now), h)
  {
    hide Settled;
    hide Recorded;
    if w.sys.jobs[j].state.PendingReconfiguration? {
      ReconfigureKeepsSettled(cfg.strategy, cfg.policy.loaded, w.sys, w.agreements, j, now);
      MessageRecords(cfg, w, w.(sys := w.sys.SchedulingPoint(j, now), clock := now), j, h);
    }
  }

  lemma ReportsRecord(cfg: SchedulerConfig, w: World, j: int, now: real, h: History)
    requires InRecord(cfg, w, h) && 0 <= j < |w.sys.jobs| && w.sys.jobs[j].Active()
    ensures InRecord(cfg, w.(sys := w.sys.ProcessedWorkload(j, now), clock := now), h)
    ensures InRecord(cfg, w.(sys := w.sys.ApplicationRunning(j, now), clock := now), h)
  {
    hide Settled;
    hide Recorded;
    ProcessedKeepsSettled(cfg.strategy, cfg.policy.loaded, w.sys, w.agreements, j, now);
    MessageRecords(cfg, w, w.(sys := w.sys.ProcessedWorkload(j, now), clock := now), j, h);
    ReportKeepsSettled(cfg.strategy, cfg.policy.loaded, w.sys, w.agreements, j, now);
    MessageRecords(cfg, w, w.(sys := w.sys.ApplicationRunning(j, now), clock := now), j, h);
  }

  lemma EventRecords(cfg: SchedulerConfig, w: World, e: Event, h: History)
    requires Possible(w, e) && InRecord(cfg, w, h)
    ensures InRecord(cfg, Handle(cfg, w, e), HistoryOfEvent(cfg, w, e, h))
  {
    hide InRecord;
    hide Schedule;
    hide HistoryOfInvocation;
    hide Sys.SchedulingPoint;
    hide Sys.ProcessedWorkload;
    hide Sys.ApplicationRunning;
    hide Sys.Submit;
    match e.message
    case InvokeScheduling => InvocationRecords(cfg, w, e.at, h);
    case JobSubmit(v) =>
      SubmissionRecords(cfg, w, v, e.at, h);
      InvocationRecords(cfg, w.(sys := w.sys.Submit(v), clock := e.at), e.at, h);
    case SchedulingPointReached(j) =>
      PointRecords(cfg, w, j, e.at, h);
      InvocationRecords(cfg, w.(sys := w.sys.SchedulingPoint(j, e.at), clock := e.at), e.at, h);
      InvocationRecords(cfg, w, e.at, h, j);
    case WorkloadProcessed(j) =>
      ReportsRecord(cfg, w, j, e.at, h);
      InvocationRecords(cfg, w.(sys := w.sys.ProcessedWorkload(j, e.at), clock := e.at), e.at, h);
    case ApplicationRuns(j) => ReportsRecord(cfg, w, j, e.at, h);
  }

  lemma {:induction false} RunRecords(cfg: SchedulerConfig, w: World, events: seq<Event>, h: History)
    requires PossibleRun(cfg, w, events) && InRecord(cfg, w, h)
    ensures InRecord(cfg, Run(cfg, w, events), HistoryOfRun(cfg, w, events, h))
    decreases |events|
  {
    hide InRecord;
    hide Handle;
    hide HistoryOfEvent;
    if events != [] {
      EventRecords(cfg, w, events[0], h);
      RunRecords(cfg, Handle(cfg, w, events[0]), events[1..], HistoryOfEvent(cfg, w, events[0], h));
    }
  }

  /** From an empty cluster, in every reachable world the history is right. */
  lemma ReachableIsInRecord(cfg: SchedulerConfig, nodeCount: nat, events: seq<Event>)
    requires PossibleRun(cfg, NewWorld(nodeCount), events)
    ensures InRecord(cfg, Run(cfg, NewWorld(nodeCount), events), HistoryOfRun(cfg, NewWorld(nodeCount), events, NO_HISTORY))
  {
    NewWorldIsSettled(cfg.strategy, cfg.policy.loaded, nodeCount);
    hide Settled;
    RunRecords(cfg, NewWorld(nodeCount), events, NO_HISTORY);
  }

  /** Over whole runs, with any policy: a reservation holds as many nodes as were asked for, or
      fewer exactly if one of the nodes selected for it refused the job. */
  lemma ReservationsAreAsAsked(cfg: SchedulerConfig, nodeCount: nat, events: seq<Event>, x: int)
    requires PossibleRun(cfg, NewWorld(nodeCount), events)
    requires Run(cfg, NewWorld(nodeCount), events).agreements.HasJob(x)
    ensures var w, h := Run(cfg, NewWorld(nodeCount), events), HistoryOfRun(cfg, NewWorld(nodeCount), events, NO_HISTORY);
      && 0 <= x < |w.sys.jobs| && x in h.asked && IsSize(cfg.strategy, w.sys.jobs[x], h.asked[x])
      && |w.agreements.NodesOf(x)| <= h.asked[x] && (|w.agreements.NodesOf(x)| < h.asked[x] <==> x in h.refused)
  {
    ReachableIsInRecord(cfg, nodeCount, events);
    var w, h := Run(cfg, NewWorld(nodeCount), events), HistoryOfRun(cfg, NewWorld(nodeCount), events, NO_HISTORY);
    assert RecordedOne(cfg.strategy, w.sys.jobs[x], |w.agreements.NodesOf(x)|, h, x);
  }

  /** Over whole runs, with any policy: an active job is assigned, or runs on, fewer nodes than its
      minimum only if one of the nodes selected for it refused it. */
  lemma JobsBelowMinimumWereRefused(cfg: SchedulerConfig, nodeCount: nat, events: seq<Event>, j: int)
    requires PossibleRun(cfg, NewWorld(nodeCount), events)
    requires 0 <= j < |Run(cfg, NewWorld(nodeCount), events).sys.jobs| && Run(cfg, NewWorld(nodeCount), events).sys.jobs[j].Active()
    ensures var v, h := Run(cfg, NewWorld(nodeCount), events).sys.jobs[j], HistoryOfRun(cfg, NewWorld(nodeCount), events, NO_HISTORY);
      |v.assignedNodes| < v.nodesMin || |v.executingNodes| < v.nodesMin ==> j in h.refused
  {
    ReachableIsInRecord(cfg, nodeCount, events);
    var w, h := Run(cfg, NewWorld(nodeCount), events), HistoryOfRun(cfg, NewWorld(nodeCount), events, NO_HISTORY);
    assert Justified(w.sys.jobs[j], h, j);
  }

  /** The round starts a job from its reservation on fewer nodes than were asked for exactly if one
      of the selected nodes refused it, and every other job on exactly one of its sizes. */
  ghost predicate StartsAsAsked(strategy: Strategy, ctx: Ctx, s: Sys, a: Agreements, h: History) {
    forall j :: j in ScheduleRound(strategy, ctx, s, a).started && 0 <= j < |s.jobs| ==>
      var count := |ScheduleRound(strategy, ctx, s, a).sys.jobs[j].assignedNodes|;
      if j in Resolved(strategy, ctx, s, a).started then RecordedOne(strategy, s.jobs[j], count, h, j)
      else IsSize(strategy, s.jobs[j], count)
  }

  lemma RoundIsAsAsked(strategy: Strategy, ctx: Ctx, s: Sys, a: Agreements, h: History)
    requires Settled(strategy, ctx.cfg.loaded, s, a) && Recorded(strategy, s, a, h)
    ensures StartsAsAsked(strategy, ctx, s, a, h)
  {
    hide Settled;
    hide Recorded;
    hide ScheduleRound;
    hide Resolved;
    hide RecordedOne;
    hide IsSize;
    forall j | j in ScheduleRound(strategy, ctx, s, a).started && 0 <= j < |s.jobs|
      ensures j in Resolved(strategy, ctx, s, a).started ==> RecordedOne(strategy, s.jobs[j], |ScheduleRound(strategy, ctx, s, a).sys.jobs[j].assignedNodes|, h, j)
      ensures j !in Resolved(strategy, ctx, s, a).started ==> IsSize(strategy, s.jobs[j], |ScheduleRound(strategy, ctx, s, a).sys.jobs[j].assignedNodes|)
    {
      RoundStartsAsAsked(strategy, ctx, s, a, h, j);
    }
  }

  /** So does the round of every invocation, in every reachable world. */
  lemma InvocationsStartAsAsked(cfg: SchedulerConfig, nodeCount: nat, events: seq<Event>, now: real)
    requires PossibleRun(cfg, NewWorld(nodeCount), events) && now >= 0.0
    ensures var w, h := Run(cfg, NewWorld(nodeCount), events), HistoryOfRun(cfg, NewWorld(nodeCount), events, NO_HISTORY);
      var (policy, s) := Prepare(cfg.policy, w.policy, w.sys, now); StartsAsAsked(cfg.strategy, Context(cfg.policy, policy, now), s, w.agreements, h)
  {
    ReachableIsInRecord(cfg, nodeCount, events);
    var w, h := Run(cfg, NewWorld(nodeCount), events), HistoryOfRun(cfg, NewWorld(nodeCount), events, NO_HISTORY);
    assert Inv(w.sys) && NoStarts(w.sys);
    hide Settled;
    hide Inv;
    hide Recorded;
    hide SameLimits;
    hide Prepare;
    hide StartsAsAsked;
    hide Run;
    hide PossibleRun;
    hide HistoryOfRun;
    var (policy, s) := Prepare(cfg.policy, w.policy, w.sys, now);
    PrepareKeepsSettled(cfg.strategy, cfg.policy, w.policy, w.sys, w.agreements, now);
    PrepareJustifies(cfg.policy, w.policy, w.sys, now, h);
    SameIsReduced(w.agreements);
    RecordedCarries(cfg.strategy, w.sys, w.agreements, s, w.agreements, h);
    RoundIsAsAsked(cfg.strategy, Context(cfg.policy, policy, now), s, w.agreements, h);
  }
}
