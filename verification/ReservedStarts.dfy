/** When a job that holds a reservation starts. Without a shutdown policy nobody refuses, so this
    depends on free nodes alone: on those of the reservation itself with the direct handler, on
    the number of reserved free nodes with the steal handler, on the number of free nodes with
    the pool handler. */
module ReservedStarts {
  import opened Sequences
  import opened ClusterState
  import opened ClusterInvariant
  import opened ShutdownPolicy
  import opened AgreementMaps
  import opened SchedulingRound
  import opened RoundInvariant
  import opened RoundProperties
  import opened Scheduler
  import opened Runs
  import opened ReservationHistory

  lemma NobodyRefuses(ctx: Ctx, s: Sys, j: int, ns: seq<int>, planned: int)
    requires !ctx.cfg.loaded && 0 <= j < |s.jobs| && planned > 0 && forall n :: n in ns ==> 0 <= n < |s.nodes|
    ensures EligibleForPending(ctx, s, j, ns, planned) == ns
  {
    var runtime := PlannedRuntime(s.jobs[j], planned);
    FilterAll(n => Accepts(ctx, s.nodes, n, runtime, false), ns);
  }

  /** All nodes that the job has reserved are free. */
  ghost predicate AllFree(r: Round, j: int) {
    forall n :: n in r.agreements.NodesOf(j) ==> n in r.free
  }

  /** The listed reserved nodes are all of them exactly if each is listed. */
  lemma AllReservedListed(a: Agreements, j: int, ns: seq<int>)
    requires Distinct(ns)
    ensures |ReservedFor(a, j, ns)| == |a.NodesOf(j)| <==> forall n :: n in a.NodesOf(j) ==> n in ns
  {
    var listed := ReservedFor(a, j, ns);
    DistinctSize(listed);
    SubsetByMembers(SetOf(listed), a.NodesOf(j));
    if |listed| == |a.NodesOf(j)| {
      SameSizeSubset(SetOf(listed), a.NodesOf(j));
    } else if forall n :: n in a.NodesOf(j) ==> n in ns {
      SetEqualByMembers(SetOf(listed), a.NodesOf(j));
    }
  }

  lemma SameSizeSubset(a: set<int>, b: set<int>)
    requires a <= b && |a| == |b|
    ensures forall x :: x in b ==> x in a
  {
    assert b == a + (b - a);
  }

  lemma FreeAreInRange(strategy: Strategy, loaded: bool, s0: Sys, r: Round, ns: seq<int>)
    requires RoundOk(strategy, loaded, s0, r, -1) && forall n :: n in ns ==> n in r.free
    ensures Distinct(r.free) && forall n :: n in ns ==> 0 <= n < |r.sys.nodes|
  {
  }

  // ---- One job's turn --------------------------------------------------------------------------

  /** With the direct handler a job starts exactly if all its reserved nodes are free. */
  lemma DirectStartsIfAllFree(ctx: Ctx, s0: Sys, r: Round, j: int)
    requires RoundOk(MinAgreement, false, s0, r, -1) && !ctx.cfg.loaded && j in r.pending && r.agreements.HasJob(j)
    ensures var t := ResolveDirectOne(ctx, r, j);
      && (AllFree(r, j) ==> t.started == r.started + [j] && t.agreements == r.agreements.Remove(j))
      && (AllFree(r, j) ==> t.free == RemoveEach(r.free, ReservedFor(r.agreements, j, r.free)))
      && (!AllFree(r, j) ==> t == r)
  {
    var reserved, ns := r.agreements.NodesOf(j), ReservedFor(r.agreements, j, r.free);
    FreeAreInRange(MinAgreement, false, s0, r, ns);
    ReservationNonEmpty(MinAgreement, r.agreements, j, |r.sys.jobs|);
    AllReservedListed(r.agreements, j, r.free);
    hide RoundOk;
    hide ReservedFor;
    if |ns| == |reserved| { NobodyRefuses(ctx, r.sys, j, ns, |reserved|); }
  }

  /** With the steal handler, at its turn, exactly if as many reserved nodes are free as it has
      reserved, whosever they are. */
  lemma StealStartsIfEnoughReserved(strategy: Strategy, ctx: Ctx, s0: Sys, r: Round, j: int)
    requires strategy.MinStealAgreement? || strategy.PrefStealAgreement?
    requires RoundOk(strategy, false, s0, r, -1) && !ctx.cfg.loaded && j in r.pending && r.agreements.HasJob(j)
    ensures var t, enough := ResolveStealOne(ctx, r, j), |r.agreements.NodesOf(j)| <= |NodesWithAgreement(r.agreements, r.free)|;
      (enough ==> t.started == r.started + [j]) && (!enough ==> t == r)
  {
    var freeReserved, needed := NodesWithAgreement(r.agreements, r.free), |r.agreements.NodesOf(j)|;
    if needed <= |freeReserved| {
      ReservationNonEmpty(strategy, r.agreements, j, |r.sys.jobs|);
      var a := r.agreements.Steal(j, freeReserved);
      var ns := ReservedFor(a, j, freeReserved);
      FreeAreInRange(strategy, false, s0, r, ns);
      StealIsNeverShort(r.agreements, r.free, j);
      NobodyRefuses(ctx, r.sys, j, ns, needed);
    }
  }

  /** With the pool handler, at its turn, exactly if as many nodes are free as it has reserved. */
  lemma PoolStartsIfEnoughFree(ctx: Ctx, s0: Sys, r: Round, j: int)
    requires RoundOk(MinCommonPool, false, s0, r, -1) && !ctx.cfg.loaded && j in r.pending && r.agreements.HasJob(j)
    ensures var t, enough := ResolvePoolOne(ctx, r, j), |r.agreements.NodesOf(j)| <= |r.free|;
      (enough ==> t.started == r.started + [j]) && (!enough ==> t == r)
  {
    var needed := |r.agreements.NodesOf(j)|;
    ReservationNonEmpty(MinCommonPool, r.agreements, j, |r.sys.jobs|);
    FreeAreInRange(MinCommonPool, false, s0, r, r.free);
    NobodyRefuses(ctx, r.sys, j, r.free, needed);
    hide RoundOk;
    hide Agreements.SelectFromPool;
    SelectionIsSound(r.agreements, j, r.free);
  }

  // ---- The whole round with the direct handler -------------------------------------------------

  /** Another job's start takes nothing that this job has reserved. */
  lemma OthersTakeNothing(ctx: Ctx, s0: Sys, r: Round, k: int, j: int)
    requires RoundOk(MinAgreement, false, s0, r, -1) && !ctx.cfg.loaded && k in r.pending && r.agreements.HasJob(k) && j != k
    ensures var t := ResolveDirectOne(ctx, r, k);
      && (t.agreements.HasJob(j) <==> r.agreements.HasJob(j))
      && (AllFree(t, j) <==> AllFree(r, j)) && (j in t.started <==> j in r.started)
  {
    assert TwoWay(r.agreements) && Distinct(r.free) && 0 <= k < |r.sys.jobs|;
    hide RoundOk;
    hide ResolveDirectOne;
    DirectStartsIfAllFree(ctx, s0, r, k);
    if AllFree(r, k) {
      var a, ns, t := r.agreements, ReservedFor(r.agreements, k, r.free), ResolveDirectOne(ctx, r, k);
      RemoveKeepsTwoWay(a, k);
      RemoveEachDistinct(r.free, ns);
      assert forall n :: n in ns ==> n in a.NodesOf(k);
      hide TwoWay;
      hide Agreements.Remove;
      hide ReservedFor;
      forall n ensures n in t.agreements.NodesOf(j) <==> n in a.NodesOf(j) {
        SetsFromNodeMap(a, j, n);
      }
      forall n | n in a.NodesOf(j) ensures n !in ns {
        SetsFromNodeMap(a, j, n);
        SetsFromNodeMap(a, k, n);
      }
    }
  }

  /** One turn of the direct handler, seen from job `j`. */
  lemma DirectTurn(ctx: Ctx, s0: Sys, r: Round, k: int, j: int)
    requires RoundOk(MinAgreement, false, s0, r, -1) && !ctx.cfg.loaded && k in r.pending && r.agreements.HasJob(k)
    ensures 0 <= k < |r.sys.jobs|
    ensures var t := ResolveOne(MinAgreement, ctx, r, k);
      && RoundOk(MinAgreement, false, s0, t, -1)
      && (j in t.started <==> j in r.started || (k == j && AllFree(r, j)))
      && (t.agreements.HasJob(j) <==> r.agreements.HasJob(j) && !(k == j && AllFree(r, j)))
      && (k != j ==> (AllFree(t, j) <==> AllFree(r, j)))
  {
    assert TwoWay(r.agreements) && 0 <= k < |r.sys.jobs|;
    hide RoundOk;
    hide AllFree;
    ResolveOneKeeps(MinAgreement, ctx, s0, r, k);
    assert ResolveOne(MinAgreement, ctx, r, k) == ResolveDirectOne(ctx, r, k);
    hide ResolveOne;
    hide ResolveDirectOne;
    DirectStartsIfAllFree(ctx, s0, r, k);
    if k == j {
      RemoveKeepsTwoWay(r.agreements, j);
    } else {
      OthersTakeNothing(ctx, s0, r, k, j);
    }
  }

  lemma {:induction false} ResolvingStartsIfAllFree(ctx: Ctx, s0: Sys, r: Round, targets: seq<int>, j: int)
    requires RoundOk(MinAgreement, false, s0, r, -1) && !ctx.cfg.loaded
    requires Distinct(targets) && forall k :: k in targets ==> 0 <= k < |r.sys.jobs| && k in r.pending && r.agreements.HasJob(k)
    requires r.agreements.HasJob(j) || j !in targets
    ensures var t := Resolve(MinAgreement, ctx, r, targets);
      && (j in t.started <==> j in r.started || (j in targets && AllFree(r, j)))
      && (t.agreements.HasJob(j) <==> r.agreements.HasJob(j) && !(j in targets && AllFree(r, j)))
    decreases |targets|
  {
    hide RoundOk;
    hide AllFree;
    hide ResolveOne;
    hide ResolvesOne;
    if targets != [] {
      var k, tail := targets[0], targets[1..];
      HeadAndTail(targets);
      DirectTurn(ctx, s0, r, k, j);
      ResolveOneKeeps(MinAgreement, ctx, s0, r, k);
      ResolveOneKeepsOthersPending(MinAgreement, ctx, r, k);
      ResolvingStartsIfAllFree(ctx, s0, ResolveOne(MinAgreement, ctx, r, k), tail, j);
      assert targets == [k] + tail;
    }
  }

  /** Without a policy, a round with the direct handler starts a job that holds a reservation
      exactly if all its reserved nodes are free when the round begins. */
  lemma RoundStartsExactlyIfAllFree(ctx: Ctx, s: Sys, a: Agreements, j: int)
    requires Settled(MinAgreement, false, s, a) && !ctx.cfg.loaded && a.HasJob(j)
    ensures j in ScheduleRound(MinAgreement, ctx, s, a).started <==> forall n :: n in a.NodesOf(j) ==> InitiallyFree(s, n)
  {
    var r := BeginRound(s, a);
    RoundBeginsOk(MinAgreement, false, s, a);
    var targets := WithAgreement(a, r.pending);
    FilterDistinct(k => a.HasJob(k), r.pending);
    assert j in targets && 0 <= j < |s.jobs| && s.jobs[j].state.Pending?;
    assert AllFree(r, j) <==> forall n :: n in a.NodesOf(j) ==> InitiallyFree(s, n);
    ResolvingStartsIfAllFree(ctx, s, r, targets, j);
    assert Resolved(MinAgreement, ctx, s, a) == Resolve(MinAgreement, ctx, r, targets);
    hide Settled;
    hide RoundOk;
    hide AllFree;
    hide Resolve;
    hide Resolved;
    hide Backfilled;
    hide ScheduleRound;
    LaterStartsHoldNothing(MinAgreement, ctx, s, a, j);
  }

  /** A job that still holds its reservation after the first phase is not started later. */
  lemma LaterStartsHoldNothing(strategy: Strategy, ctx: Ctx, s: Sys, a: Agreements, j: int)
    requires Settled(strategy, ctx.cfg.loaded, s, a) && 0 <= j < |s.jobs| && s.jobs[j].state.Pending?
    ensures var r := Resolved(strategy, ctx, s, a);
      (j in r.started ==> j in ScheduleRound(strategy, ctx, s, a).started)
      && (j !in r.started && r.agreements.HasJob(j) ==> j !in ScheduleRound(strategy, ctx, s, a).started)
  {
    hide Settled;
    hide RoundOk;
    hide Resolved;
    hide Backfilled;
    hide ScheduleRound;
    ResolvedStage(strategy, ctx, s, a);
    BackfilledStage(strategy, ctx, s, a);
    LastStages(strategy, ctx, s, a);
    var r := WithoutAgreements(Resolved(strategy, ctx, s, a));
    NotPendingStaysAsItIs(strategy, ctx.cfg.loaded, s, r, Backfilled(strategy, ctx, s, a), j);
  }

  lemma NotPendingStaysAsItIs(strategy: Strategy, loaded: bool, s0: Sys, r: Round, t: Round, j: int)
    requires RoundOk(strategy, loaded, s0, r, -1) && RoundOk(strategy, loaded, s0, t, -1) && BackfillsTo(strategy, r, t) && 0 <= j < |s0.jobs|
    ensures j in r.started ==> j in t.started
    ensures j !in r.pending && j !in r.started ==> j !in t.started
  {
  }

  /** So does an invocation. */
  lemma InvocationStartsExactlyIfAllFree(cfg: SchedulerConfig, w: World, now: real, requester: int, j: int)
    requires cfg.strategy.MinAgreement? && !cfg.policy.loaded && now >= 0.0
    requires Settled(cfg.strategy, false, w.sys, w.agreements) && w.agreements.HasJob(j)
    ensures var s := Prepare(cfg.policy, w.policy, w.sys, now).1;
      && 0 <= j < |s.jobs|
      && (Invoke(cfg, w, now, requester).sys.jobs[j].state.Running? <==> forall n :: n in w.agreements.NodesOf(j) ==> InitiallyFree(s, n))
  {
    hide Settled;
    hide RoundOk;
    hide Prepare;
    hide ScheduleRound;
    hide ForwardAll;
    hide Forwarding;
    PrepareKeepsSettled(cfg.strategy, cfg.policy, w.policy, w.sys, w.agreements, now);
    var (policy, s) := Prepare(cfg.policy, w.policy, w.sys, now);
    var ctx := Context(cfg.policy, policy, now);
    var t := ScheduleRound(cfg.strategy, ctx, s, w.agreements);
    HolderIsPending(cfg.strategy, false, s, w.agreements, j);
    RoundStartsExactlyIfAllFree(ctx, s, w.agreements, j);
    RoundIsSafe(cfg.strategy, ctx, s, w.agreements);
    RoundEvolvesJob(cfg.strategy, false, s, t, j);
    RoundEndsForwarding(cfg.strategy, false, s, t);
    AnswerKeepsForwarding(cfg.strategy, false, t.sys, t.agreements, t.started, requester, now);
    ForwardingTakesOver(cfg.strategy, false, Answer(t.sys, requester, now), t.agreements, t.started, now, j);
    JobIsSound(cfg.strategy, false, s, t, j);
  }

  lemma HolderIsPending(strategy: Strategy, loaded: bool, s: Sys, a: Agreements, j: int)
    requires Settled(strategy, loaded, s, a) && a.HasJob(j)
    ensures 0 <= j < |s.jobs| && s.jobs[j].state.Pending?
  {
  }

  lemma JobIsSound(strategy: Strategy, loaded: bool, s0: Sys, t: Round, j: int)
    requires RoundOk(strategy, loaded, s0, t, -1) && 0 <= j < |t.sys.jobs|
    ensures JobOk(t.sys.jobs[j], |t.sys.nodes|)
  {
  }
}
