/** What backfilling must do. At its turn a job starts exactly if enough free nodes accept it and it
    is the head of the queue or does not delay the head; and whoever can start first does. */
module BackfillProgress {
  import opened Sequences
  import opened ClusterState
  import opened ClusterInvariant
  import opened ShutdownPolicy
  import opened AgreementMaps
  import opened SchedulingRound
  import opened RoundInvariant
  import opened RoundProperties
  import opened HeadDelays
  import opened Scheduler
  import opened Runs
  import opened ReservationHistory
  import opened ReservedStarts
  import opened ResolvingProgress

  /** The free nodes that accept job `j` for its runtime on `size` nodes, in list order. */
  ghost function Willing(ctx: Ctx, s: Sys, j: int, free: seq<int>, size: int): seq<int>
    requires 0 <= j < |s.jobs| && size > 0
  {
    Filter(n => Accepts(ctx, s.nodes, n, s.jobs[j].profile.PredictedRuntimeForNodes(size), false), free)
  }

  ghost predicate Fits(ctx: Ctx, s: Sys, j: int, free: seq<int>, size: int)
    requires 0 <= j < |s.jobs|
  {
    size > 0 && |Willing(ctx, s, j, free, size)| >= size
  }

  /** The size on which the job can start now, or zero: the preferred one if the strategy tries it
      and enough nodes accept the job on it, else the minimum if enough do. */
  ghost function SizeNow(strategy: Strategy, ctx: Ctx, s: Sys, j: int, free: seq<int>): int
    requires 0 <= j < |s.jobs|
  {
    var v := s.jobs[j];
    if strategy.Prefers() && Fits(ctx, s, j, free, v.nodesPref) then v.nodesPref
    else if Fits(ctx, s, j, free, v.nodesMin) then v.nodesMin
    else 0
  }

  /** How many nodes the head could have now. */
  ghost function NodesForHead(strategy: Strategy, ctx: Ctx, s: Sys, head: int, free: seq<int>): nat
    requires 0 <= head < |s.jobs| && HasSizes(s.jobs[head])
  {
    var v := s.jobs[head];
    |Willing(ctx, s, head, free, if strategy.Prefers() && Fits(ctx, s, head, free, v.nodesPref) then v.nodesPref else v.nodesMin)|
  }

  /** The head's runtime against which a delay is measured. The preferring strategy takes the size
      on which the head could start now, and sees no delay if there is none. */
  ghost function RuntimeOfHead(strategy: Strategy, ctx: Ctx, s: Sys, head: int, free: seq<int>): real
    requires 0 <= head < |s.jobs| && HasSizes(s.jobs[head])
  {
    var v, size := s.jobs[head], SizeNow(strategy, ctx, s, head, free);
    if !strategy.Prefers() then v.profile.PredictedRuntimeForNodes(v.nodesMin)
    else if size > 0 then v.profile.PredictedRuntimeForNodes(size) else 0.0
  }

  ghost predicate Delays(strategy: Strategy, ctx: Ctx, s: Sys, j: int, head: int, free: seq<int>, running: seq<int>)
    requires 0 <= j < |s.jobs| && 0 <= head < |s.jobs| && HasSizes(s.jobs[head]) && HavePredictions(s, running)
  {
    var time := RuntimeOfHead(strategy, ctx, s, head, free);
    && j != head && (strategy.Prefers() ==> time > 0.0)
    && GatherBefore(ctx, s, running, SizeNow(strategy, ctx, s, j, free) - NodesForHead(strategy, ctx, s, head, free), time)
  }

  /** All pending jobs can be planned for, and nobody is assigned nodes. */
  ghost predicate Plannable(r: Round) {
    && Distinct(r.pending) && Distinct(r.free)
    && forall j :: j in r.pending ==> 0 <= j < |r.sys.jobs| && HasSizes(r.sys.jobs[j]) && IsFresh(r.sys.jobs[j])
  }

  ghost predicate IsFresh(v: JobView) {
    v.state.Pending? && v.assignedNodes == []
  }

  lemma RoundIsPlannable(strategy: Strategy, loaded: bool, s0: Sys, r: Round)
    requires RoundOk(strategy, loaded, s0, r, -1)
    ensures Plannable(r)
  {
    forall j | j in r.pending ensures 0 <= j < |r.sys.jobs| && HasSizes(r.sys.jobs[j]) && IsFresh(r.sys.jobs[j]) {
      assert JobOk(r.sys.jobs[j], |r.sys.nodes|);
    }
  }

  /** The job at index `i` can start without delaying the head. */
  ghost predicate Startable(strategy: Strategy, ctx: Ctx, r: Round, i: nat, running: seq<int>)
    requires Plannable(r) && i < |r.pending| && HavePredictions(r.sys, running)
  {
    assert r.pending[i] in r.pending && r.pending[0] in r.pending;
    && SizeNow(strategy, ctx, r.sys, r.pending[i], r.free) > 0
    && !Delays(strategy, ctx, r.sys, r.pending[i], r.pending[0], r.free, running)
  }

  /** The job at index `i` leaves the queue with the first nodes that accept it, and only that. */
  ghost predicate StartsNow(strategy: Strategy, ctx: Ctx, r: Round, t: Round, i: nat)
    requires Plannable(r) && i < |r.pending|
  {
    assert r.pending[i] in r.pending;
    var j := r.pending[i];
    var size := SizeNow(strategy, ctx, r.sys, j, r.free);
    && size > 0
    && var ns := Willing(ctx, r.sys, j, r.free, size)[..size];
    && t.sys.nodes == r.sys.nodes && t.sys.jobs == r.sys.jobs[j := r.sys.jobs[j].(assignedNodes := ns, state := PendingAllocation)]
    && t.agreements == r.agreements && t.started == r.started + [j]
    && t.pending == r.pending[..i] + r.pending[i + 1..] && t.free == RemoveEach(r.free, ns)
  }

  lemma EligibleAreWilling(ctx: Ctx, s: Sys, j: int, free: seq<int>, size: int)
    requires 0 <= j < |s.jobs| && size > 0
    ensures EligibleForPending(ctx, s, j, free, size) == Willing(ctx, s, j, free, size)
  {
    var runtime := PlannedRuntime(s.jobs[j], size);
    SameFilter(n => Accepts(ctx, s.nodes, n, runtime, false),
               n => Accepts(ctx, s.nodes, n, s.jobs[j].profile.PredictedRuntimeForNodes(size), false), free);
  }

  lemma PreferredStartIsSizeNow(ctx: Ctx, s: Sys, j: int, free: seq<int>)
    requires 0 <= j < |s.jobs| && HasSizes(s.jobs[j])
    ensures var (size, eligible) := PreferredStart(ctx, s, j, free);
      && size == SizeNow(PrefStealAgreement, ctx, s, j, free) && |eligible| == NodesForHead(PrefStealAgreement, ctx, s, j, free)
      && (size > 0 ==> eligible == Willing(ctx, s, j, free, size))
  {
    EligibleAreWilling(ctx, s, j, free, s.jobs[j].nodesPref);
    EligibleAreWilling(ctx, s, j, free, s.jobs[j].nodesMin);
  }

  lemma StartIsExact(strategy: Strategy, ctx: Ctx, r: Round, i: nat)
    requires Plannable(r) && r.Indexed() && i < |r.pending| && 0 <= r.pending[i] < |r.sys.jobs|
    requires SizeNow(strategy, ctx, r.sys, r.pending[i], r.free) > 0
    ensures var size := SizeNow(strategy, ctx, r.sys, r.pending[i], r.free);
      StartsNow(strategy, ctx, r, BackfillStart(r, i, Willing(ctx, r.sys, r.pending[i], r.free, size)[..size]), i)
  {
    var j, size := r.pending[i], SizeNow(strategy, ctx, r.sys, r.pending[i], r.free);
    assert j in r.pending;
    var ns := Willing(ctx, r.sys, j, r.free, size)[..size];
    assert r.sys.jobs[j].assignedNodes + ns == ns;
  }

  lemma PreferredDelays(ctx: Ctx, s: Sys, j: int, head: int, free: seq<int>, running: seq<int>)
    requires 0 <= j < |s.jobs| && 0 <= head < |s.jobs| && HasSizes(s.jobs[head]) && HavePredictions(s, running)
    ensures PreferredDelaysHead(ctx, s, j, SizeNow(PrefStealAgreement, ctx, s, j, free), head, HeadPlan(ctx, s, head, free), running)
       <==> Delays(PrefStealAgreement, ctx, s, j, head, free, running)
  {
    hide GatherBefore;
    hide PreferredDelaysHead;
    PreferredStartIsSizeNow(ctx, s, head, free);
    PreferredDelaysHeadExactlyIf(ctx, s, j, SizeNow(PrefStealAgreement, ctx, s, j, free), head, HeadPlan(ctx, s, head, free), running);
  }

  lemma PreferredTurnExactly(ctx: Ctx, r: Round, i: nat, running: seq<int>)
    requires Plannable(r) && r.Indexed() && i < |r.pending| && HavePredictions(r.sys, running)
    ensures var t := BackfillPreferred(ctx, r, i, running);
      && (Startable(PrefStealAgreement, ctx, r, i, running) ==> StartsNow(PrefStealAgreement, ctx, r, t, i))
      && (!Startable(PrefStealAgreement, ctx, r, i, running) ==> t == r)
  {
    var j, head := r.pending[i], r.pending[0];
    assert j in r.pending && head in r.pending;
    hide BackfillStart;
    hide StartsNow;
    hide Delays;
    hide PreferredStart;
    hide PreferredDelaysHead;
    PreferredDelays(ctx, r.sys, j, head, r.free, running);
    PreferredStartIsSizeNow(ctx, r.sys, j, r.free);
    hide SizeNow;
    hide Willing;
    if SizeNow(PrefStealAgreement, ctx, r.sys, j, r.free) > 0 { StartIsExact(PrefStealAgreement, ctx, r, i); }
    SizeIsFitting(PrefStealAgreement, ctx, r.sys, j, r.free);
  }

  lemma SizeIsFitting(strategy: Strategy, ctx: Ctx, s: Sys, j: int, free: seq<int>)
    requires 0 <= j < |s.jobs|
    ensures var size := SizeNow(strategy, ctx, s, j, free); size != 0 ==> 0 < size <= |Willing(ctx, s, j, free, size)|
  {
  }

  lemma MinimumDelays(strategy: Strategy, ctx: Ctx, s: Sys, j: int, head: int, free: seq<int>, running: seq<int>)
    requires 0 <= j < |s.jobs| && 0 <= head < |s.jobs| && HasSizes(s.jobs[head]) && HavePredictions(s, running)
    requires !strategy.Prefers() && SizeNow(strategy, ctx, s, j, free) > 0
    ensures DelaysHead(ctx, s, j, head, |EligibleForPending(ctx, s, head, free, s.jobs[head].nodesMin)|, running)
       <==> Delays(strategy, ctx, s, j, head, free, running)
  {
    hide GatherBefore;
    hide DelaysHead;
    EligibleAreWilling(ctx, s, head, free, s.jobs[head].nodesMin);
    hide EligibleForPending;
    hide Willing;
    DelaysHeadExactlyIf(ctx, s, j, head, |EligibleForPending(ctx, s, head, free, s.jobs[head].nodesMin)|, running);
  }

  lemma MinimumTurnExactly(strategy: Strategy, ctx: Ctx, r: Round, i: nat, running: seq<int>)
    requires !strategy.Prefers() && Plannable(r) && r.Indexed() && i < |r.pending| && HavePredictions(r.sys, running)
    ensures var t := BackfillAtMinimum(ctx, r, i, running);
      && (Startable(strategy, ctx, r, i, running) ==> StartsNow(strategy, ctx, r, t, i))
      && (!Startable(strategy, ctx, r, i, running) ==> t == r)
  {
    var j, head := r.pending[i], r.pending[0];
    assert j in r.pending && head in r.pending;
    hide BackfillStart;
    hide StartsNow;
    hide Delays;
    hide DelaysHead;
    EligibleAreWilling(ctx, r.sys, j, r.free, r.sys.jobs[j].nodesMin);
    hide EligibleForPending;
    hide Willing;
    if SizeNow(strategy, ctx, r.sys, j, r.free) > 0 {
      MinimumDelays(strategy, ctx, r.sys, j, head, r.free, running);
      StartIsExact(strategy, ctx, r, i);
    }
  }

  /** At its turn a job starts exactly if it can without delaying the head; else nothing changes. */
  lemma BackfillTurnExactly(strategy: Strategy, ctx: Ctx, r: Round, i: nat, running: seq<int>)
    requires Plannable(r) && r.Indexed() && i < |r.pending| && HavePredictions(r.sys, running)
    ensures var t := BackfillOne(strategy, ctx, r, i, running);
      && (Startable(strategy, ctx, r, i, running) ==> StartsNow(strategy, ctx, r, t, i))
      && (!Startable(strategy, ctx, r, i, running) ==> t == r)
  {
    hide Startable;
    hide StartsNow;
    hide BackfillPreferred;
    hide BackfillAtMinimum;
    if strategy.Prefers() { PreferredTurnExactly(ctx, r, i, running); } else { MinimumTurnExactly(strategy, ctx, r, i, running); }
  }

  // ---- The walk over the queue -----------------------------------------------------------------

  /** From index `i` on, every job has its turn; after a start the job behind it has none. */
  ghost predicate WalksTo(strategy: Strategy, ctx: Ctx, r: Round, i: nat, running: seq<int>, t: Round)
    requires Plannable(r) && HavePredictions(r.sys, running)
    decreases |r.pending| - i
  {
    if i >= |r.pending| then t == r
    else if Startable(strategy, ctx, r, i, running) then
      exists u: Round :: StartsNow(strategy, ctx, r, u, i) && Plannable(u) && |u.pending| < |r.pending| && HavePredictions(u.sys, running)
        && WalksTo(strategy, ctx, u, i + 1, running, t)
    else WalksTo(strategy, ctx, r, i + 1, running, t)
  }

  lemma NobodyStartsOnNothing(strategy: Strategy, ctx: Ctx, r: Round, i: nat, running: seq<int>)
    requires Plannable(r) && i < |r.pending| && HavePredictions(r.sys, running) && r.free == []
    ensures !Startable(strategy, ctx, r, i, running)
  {
    assert r.pending[i] in r.pending;
  }

  lemma {:induction false} WalkEndsOnNothing(strategy: Strategy, ctx: Ctx, r: Round, i: nat, running: seq<int>)
    requires Plannable(r) && HavePredictions(r.sys, running) && r.free == []
    ensures WalksTo(strategy, ctx, r, i, running, r)
    decreases |r.pending| - i
  {
    hide Startable;
    if i < |r.pending| {
      NobodyStartsOnNothing(strategy, ctx, r, i, running);
      WalkEndsOnNothing(strategy, ctx, r, i + 1, running);
    }
  }

  lemma RestIsPlannable(r: Round, t: Round, i: nat, ns: seq<int>, running: seq<int>)
    requires Plannable(r) && i < |r.pending| && 0 <= r.pending[i] < |r.sys.jobs| && HavePredictions(r.sys, running)
    requires t.sys.jobs == r.sys.jobs[r.pending[i] := r.sys.jobs[r.pending[i]].(assignedNodes := ns, state := PendingAllocation)]
    requires t.pending == r.pending[..i] + r.pending[i + 1..] && t.free == RemoveEach(r.free, ns)
    ensures Plannable(t) && HavePredictions(t.sys, running)
  {
    RemoveEachDistinct(r.free, ns);
    WithoutIndex(r.pending, i);
    forall j | j in t.pending ensures 0 <= j < |t.sys.jobs| && HasSizes(t.sys.jobs[j]) && IsFresh(t.sys.jobs[j]) {
      assert j in r.pending && j != r.pending[i];
    }
    forall k | k in running ensures 0 <= k < |t.sys.jobs| && t.sys.jobs[k].prediction.Prediction? {
    }
  }

  lemma StartKeepsPlannable(strategy: Strategy, ctx: Ctx, r: Round, t: Round, i: nat, running: seq<int>)
    requires Plannable(r) && i < |r.pending| && HavePredictions(r.sys, running) && StartsNow(strategy, ctx, r, t, i)
    ensures Plannable(t) && |t.pending| < |r.pending| && HavePredictions(t.sys, running) && t.started == r.started + [r.pending[i]]
  {
    hide Willing;
    assert r.pending[i] in r.pending && 0 <= r.pending[i] < |r.sys.jobs|;
    var size := SizeNow(strategy, ctx, r.sys, r.pending[i], r.free);
    RestIsPlannable(r, t, i, Willing(ctx, r.sys, r.pending[i], r.free, size)[..size], running);
  }

  /** Backfilling is that walk: its early end when no node is free is harmless. */
  lemma {:induction false} BackfillWalks(strategy: Strategy, ctx: Ctx, r: Round, i: nat, running: seq<int>)
    requires Plannable(r) && r.Indexed() && HavePredictions(r.sys, running)
    ensures WalksTo(strategy, ctx, r, i, running, Backfill(strategy, ctx, r, i, running))
    decreases |r.pending| - i
  {
    hide Startable;
    hide StartsNow;
    hide Plannable;
    hide BackfillOne;
    if i < |r.pending| {
      if r.free == [] {
        WalkEndsOnNothing(strategy, ctx, r, i, running);
      } else {
        BackfillTurnExactly(strategy, ctx, r, i, running);
        var t := BackfillOne(strategy, ctx, r, i, running);
        if Startable(strategy, ctx, r, i, running) { StartKeepsPlannable(strategy, ctx, r, t, i, running); }
        BackfillWalks(strategy, ctx, t, i + 1, running);
      }
    }
  }

  lemma {:induction false} StartedStayInWalk(strategy: Strategy, ctx: Ctx, r: Round, i: nat, running: seq<int>, t: Round, j: int)
    requires Plannable(r) && HavePredictions(r.sys, running) && WalksTo(strategy, ctx, r, i, running, t)
    requires j in r.started && 0 <= j < |r.sys.jobs| && j !in r.pending
    ensures j in t.started && |t.sys.jobs| == |r.sys.jobs| && t.sys.jobs[j] == r.sys.jobs[j]
    decreases |r.pending| - i
  {
    hide Startable;
    hide StartsNow;
    hide Plannable;
    if i < |r.pending| {
      if Startable(strategy, ctx, r, i, running) {
        var u: Round :| StartsNow(strategy, ctx, r, u, i) && Plannable(u) && |u.pending| < |r.pending| && HavePredictions(u.sys, running)
          && WalksTo(strategy, ctx, u, i + 1, running, t);
        StartLeavesOthers(strategy, ctx, r, u, i, j);
        StartedStayInWalk(strategy, ctx, u, i + 1, running, t, j);
      } else {
        StartedStayInWalk(strategy, ctx, r, i + 1, running, t, j);
      }
    }
  }

  lemma StartLeavesOthers(strategy: Strategy, ctx: Ctx, r: Round, t: Round, i: nat, j: int)
    requires Plannable(r) && i < |r.pending| && StartsNow(strategy, ctx, r, t, i) && 0 <= j < |r.sys.jobs| && j !in r.pending
    ensures t.started == r.started + [r.pending[i]] && |t.sys.jobs| == |r.sys.jobs| && t.sys.jobs[j] == r.sys.jobs[j] && j !in t.pending
  {
    hide Willing;
    hide SizeNow;
    assert r.pending[i] in r.pending;
    WithoutIndex(r.pending, i);
  }

  lemma StarterIsDone(strategy: Strategy, ctx: Ctx, r: Round, t: Round, i: nat)
    requires Plannable(r) && i < |r.pending| && StartsNow(strategy, ctx, r, t, i)
    ensures var j := r.pending[i]; var size := SizeNow(strategy, ctx, r.sys, j, r.free);
      && 0 <= j < |r.sys.jobs| && size > 0 && |Willing(ctx, r.sys, j, r.free, size)| >= size
      && j in t.started && j !in t.pending && |t.sys.jobs| == |r.sys.jobs|
      && t.sys.jobs[j].assignedNodes == Willing(ctx, r.sys, j, r.free, size)[..size]
  {
    assert r.pending[i] in r.pending;
    WithoutIndex(r.pending, i);
  }

  /** The first job that can start does, on the first nodes that accept it. */
  ghost predicate StartsOnFirst(strategy: Strategy, ctx: Ctx, r: Round, j: int, t: Round) {
    && j in t.started && 0 <= j < |t.sys.jobs| && 0 <= j < |r.sys.jobs|
    && var size := SizeNow(strategy, ctx, r.sys, j, r.free);
       0 < size <= |Willing(ctx, r.sys, j, r.free, size)| && t.sys.jobs[j].assignedNodes == Willing(ctx, r.sys, j, r.free, size)[..size]
  }

  lemma {:induction false} FirstStartableStarts(strategy: Strategy, ctx: Ctx, r: Round, i: nat, k: nat, running: seq<int>, t: Round)
    requires Plannable(r) && HavePredictions(r.sys, running) && WalksTo(strategy, ctx, r, i, running, t)
    requires i <= k < |r.pending| && Startable(strategy, ctx, r, k, running)
    requires forall m :: i <= m < k ==> !Startable(strategy, ctx, r, m, running)
    ensures StartsOnFirst(strategy, ctx, r, r.pending[k], t)
    decreases k - i
  {
    hide Startable;
    hide StartsNow;
    hide Willing;
    hide SizeNow;
    if i == k {
      var u: Round :| StartsNow(strategy, ctx, r, u, i) && Plannable(u) && |u.pending| < |r.pending| && HavePredictions(u.sys, running)
        && WalksTo(strategy, ctx, u, i + 1, running, t);
      StarterIsDone(strategy, ctx, r, u, i);
      hide Plannable;
      StartedStayInWalk(strategy, ctx, u, i + 1, running, t, r.pending[k]);
    } else {
      FirstStartableStarts(strategy, ctx, r, i + 1, k, running, t);
    }
  }

  // ---- The whole round -------------------------------------------------------------------------

  lemma AllocationWalks(strategy: Strategy, ctx: Ctx, r: Round, running: seq<int>)
    requires Plannable(r) && r.Indexed() && HavePredictions(r.sys, running)
    ensures WalksTo(strategy, ctx, r, 0, running, AllocatePhase(strategy, ctx, r, running))
  {
    hide Plannable;
    hide WalksTo;
    hide Backfill;
    FilterNone(k => 0 <= k < |r.sys.jobs| && r.sys.jobs[k].prediction.NoPrediction?, running);
    if r.pending == [] {
      NothingToWalk(strategy, ctx, r, running);
    } else if r.free == [] {
      WalkEndsOnNothing(strategy, ctx, r, 0, running);
    } else {
      BackfillWalks(strategy, ctx, r, 0, running);
    }
  }

  lemma NothingToWalk(strategy: Strategy, ctx: Ctx, r: Round, running: seq<int>)
    requires Plannable(r) && HavePredictions(r.sys, running) && r.pending == []
    ensures WalksTo(strategy, ctx, r, 0, running, r)
  {
  }

  /** The round when backfilling begins: reservations are resolved, the lists hold only jobs and
      nodes without one. */
  ghost function BeforeBackfilling(strategy: Strategy, ctx: Ctx, s: Sys, a: Agreements): (r: Round)
    ensures r.Indexed() && |r.sys.jobs| == |s.jobs|
  {
    WithoutAgreements(ResolvePhase(strategy, ctx, BeginRound(s, a)))
  }

  lemma BackfillingBegins(strategy: Strategy, ctx: Ctx, s: Sys, a: Agreements)
    requires Settled(strategy, ctx.cfg.loaded, s, a)
    ensures var r := BeforeBackfilling(strategy, ctx, s, a);
      && RoundOk(strategy, ctx.cfg.loaded, s, r, -1) && Plannable(r) && HavePredictions(r.sys, SoonestEndFirst(ctx, s))
      && WalksTo(strategy, ctx, r, 0, SoonestEndFirst(ctx, s), Backfilled(strategy, ctx, s, a))
      && RoundOk(strategy, ctx.cfg.loaded, s, Backfilled(strategy, ctx, s, a), -1)
  {
    hide RoundOk;
    hide Settled;
    hide Unreserved;
    hide Plannable;
    hide WalksTo;
    hide BackfillsTo;
    hide ResolvePhase;
    hide WithoutAgreements;
    hide AllocatePhase;
    ResolvedStage(strategy, ctx, s, a);
    ResolvedIsPhase(strategy, ctx, s, a);
    BackfilledStage(strategy, ctx, s, a);
    BackfilledIsPhase(strategy, ctx, s, a);
    var r, running := BeforeBackfilling(strategy, ctx, s, a), SoonestEndFirst(ctx, s);
    RoundIsPlannable(strategy, ctx.cfg.loaded, s, r);
    RoundHasPredictions(strategy, ctx.cfg.loaded, s, r, running);
    AllocationWalks(strategy, ctx, r, running);
  }

  /** What backfilling started stays as it is to the end of the round. */
  lemma BackfilledStays(strategy: Strategy, ctx: Ctx, s: Sys, a: Agreements, j: int)
    requires Settled(strategy, ctx.cfg.loaded, s, a) && j in Backfilled(strategy, ctx, s, a).started
    ensures 0 <= j < |s.jobs| && |Backfilled(strategy, ctx, s, a).sys.jobs| == |s.jobs|
    ensures var t := ScheduleRound(strategy, ctx, s, a); j in t.started && t.sys.jobs[j] == Backfilled(strategy, ctx, s, a).sys.jobs[j]
  {
    hide RoundOk;
    hide BackfillsTo;
    hide Unreserved;
    hide ScheduleRound;
    hide Backfilled;
    BackfilledStage(strategy, ctx, s, a);
    assert NoStarts(s);
    hide Settled;
    LastStages(strategy, ctx, s, a);
    StartedAreNotMalleable(strategy, ctx.cfg.loaded, s, Backfilled(strategy, ctx, s, a), j);
  }

  /** A round starts the first job in the queue that can start when backfilling begins. */
  lemma RoundStartsFirstStartable(strategy: Strategy, ctx: Ctx, s: Sys, a: Agreements, k: nat)
    requires Settled(strategy, ctx.cfg.loaded, s, a)
    requires var r, running := BeforeBackfilling(strategy, ctx, s, a), SoonestEndFirst(ctx, s);
      && k < |r.pending| && Plannable(r) && HavePredictions(r.sys, running) && Startable(strategy, ctx, r, k, running)
      && forall m :: 0 <= m < k ==> !Startable(strategy, ctx, r, m, running)
    ensures var r := BeforeBackfilling(strategy, ctx, s, a); StartsOnFirst(strategy, ctx, r, r.pending[k], ScheduleRound(strategy, ctx, s, a))
  {
    hide RoundOk;
    hide Settled;
    hide Startable;
    hide Plannable;
    hide WalksTo;
    hide Willing;
    hide SizeNow;
    hide BeforeBackfilling;
    hide Backfilled;
    hide ScheduleRound;
    BackfillingBegins(strategy, ctx, s, a);
    var r := BeforeBackfilling(strategy, ctx, s, a);
    FirstStartableStarts(strategy, ctx, r, 0, k, SoonestEndFirst(ctx, s), Backfilled(strategy, ctx, s, a));
    BackfilledStays(strategy, ctx, s, a, r.pending[k]);
  }

  /** In particular the head of the queue, if enough free nodes accept it. */
  lemma RoundStartsHead(strategy: Strategy, ctx: Ctx, s: Sys, a: Agreements)
    requires Settled(strategy, ctx.cfg.loaded, s, a)
    requires var r := BeforeBackfilling(strategy, ctx, s, a);
      r.pending != [] && 0 <= r.pending[0] < |r.sys.jobs| && SizeNow(strategy, ctx, r.sys, r.pending[0], r.free) > 0
    ensures var r := BeforeBackfilling(strategy, ctx, s, a); StartsOnFirst(strategy, ctx, r, r.pending[0], ScheduleRound(strategy, ctx, s, a))
  {
    hide BeforeBackfilling;
    BackfillingBegins(strategy, ctx, s, a);
    hide RoundOk;
    hide Settled;
    hide WalksTo;
    hide SizeNow;
    hide ScheduleRound;
    var r := BeforeBackfilling(strategy, ctx, s, a);
    assert Startable(strategy, ctx, r, 0, SoonestEndFirst(ctx, s));
    RoundStartsFirstStartable(strategy, ctx, s, a, 0);
  }

  lemma NothingReserved(strategy: Strategy, ctx: Ctx, s: Sys)
    ensures BeforeBackfilling(strategy, ctx, s, NO_AGREEMENTS) == BeginRound(s, NO_AGREEMENTS)
  {
    var r := BeginRound(s, NO_AGREEMENTS);
    FilterNone(j => r.agreements.HasJob(j), r.pending);
    FilterAll(j => !r.agreements.HasJob(j), r.pending);
    FilterAll(n => !r.agreements.HasNode(n), r.free);
    assert ResolvePhase(strategy, ctx, r) == r;
  }

  lemma FirstPendingLeads(s: Sys, j: int)
    requires 0 <= j < |s.jobs| && s.jobs[j].state.Pending? && forall k :: 0 <= k < j ==> !s.jobs[k].state.Pending?
    ensures PendingJobs(s.jobs) != [] && PendingJobs(s.jobs)[0] == j
  {
    FilterAscends(j => 0 <= j < |s.jobs| && s.jobs[j].state.Pending?, Range(|s.jobs|));
    var pending := PendingJobs(s.jobs);
    var i := IndexIn(pending, j);
    assert pending[0] in pending;
  }

  /** When nothing is reserved, an invocation runs the first pending job in the queue if enough free
      nodes accept it, on the first of them: on its preferred number if the strategy tries that and
      enough accept, else on its minimum. */
  lemma InvocationRunsHead(cfg: SchedulerConfig, w: World, now: real, requester: int, j: int)
    requires now >= 0.0 && Settled(cfg.strategy, cfg.policy.loaded, w.sys, w.agreements) && w.agreements == NO_AGREEMENTS
    requires var (policy, s) := Prepare(cfg.policy, w.policy, w.sys, now);
      && 0 <= j < |s.jobs| && s.jobs[j].state.Pending? && (forall k :: 0 <= k < j ==> !s.jobs[k].state.Pending?)
      && SizeNow(cfg.strategy, Context(cfg.policy, policy, now), s, j, FreeNodes(s.nodes)) > 0
    ensures var (policy, s) := Prepare(cfg.policy, w.policy, w.sys, now); var ctx := Context(cfg.policy, policy, now);
      var v, size := Invoke(cfg, w, now, requester).sys.jobs[j], SizeNow(cfg.strategy, ctx, s, j, FreeNodes(s.nodes));
      && v.state.Running?
      && 0 < size <= |Willing(ctx, s, j, FreeNodes(s.nodes), size)| && v.executingNodes == Willing(ctx, s, j, FreeNodes(s.nodes), size)[..size]
  {
    hide Settled;
    hide Prepare;
    hide ScheduleRound;
    hide SizeNow;
    hide Willing;
    hide BeforeBackfilling;
    hide Invoke;
    PrepareKeepsSettled(cfg.strategy, cfg.policy, w.policy, w.sys, w.agreements, now);
    var (policy, s) := Prepare(cfg.policy, w.policy, w.sys, now);
    var ctx := Context(cfg.policy, policy, now);
    NothingReserved(cfg.strategy, ctx, s);
    FirstPendingLeads(s, j);
    RoundStartsHead(cfg.strategy, ctx, s, w.agreements);
    StartedRuns(cfg, w, now, requester, j);
  }
}
