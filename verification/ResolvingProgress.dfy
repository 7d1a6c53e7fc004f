/** What resolving reservations must do. Without a shutdown policy nobody refuses, so a job keeps
    waiting for its reservation only if that is larger than what is left; and the first job in the
    queue whose reservation is small enough is started. */
module ResolvingProgress {
  import opened Sequences
  import opened ClusterState
  import opened ClusterInvariant
  import opened ShutdownPolicy
  import opened AgreementMaps
  import opened SchedulingRound
  import opened RoundInvariant
  import opened RoundProperties
  import opened Scheduler
  import opened Runs
  import opened ReservationHistory
  import opened ReservedStarts

  /** The nodes with which a reservation can be redeemed: all listed free ones from the pool, the
      reserved ones among them otherwise. */
  ghost function Usable(strategy: Strategy, a: Agreements, free: seq<int>): set<int> {
    set n | n in free && (strategy.MinCommonPool? || n in a.nodeToJobId)
  }

  /** More nodes are reserved for the job than can be used, or, with the direct handler, others. */
  ghost predicate TooLarge(strategy: Strategy, r: Round, j: int) {
    if strategy.MinAgreement? then exists n :: n in r.agreements.NodesOf(j) && n !in r.free
    else |r.agreements.NodesOf(j)| > |Usable(strategy, r.agreements, r.free)|
  }

  lemma UsableIsListed(strategy: Strategy, a: Agreements, free: seq<int>)
    requires Distinct(free)
    ensures |Usable(strategy, a, free)| == if strategy.MinCommonPool? then |free| else |NodesWithAgreement(a, free)|
  {
    var listed := if strategy.MinCommonPool? then free else NodesWithAgreement(a, free);
    DistinctSize(listed);
    SetEqualByMembers(Usable(strategy, a, free), SetOf(listed));
  }

  lemma UsableShrinks(strategy: Strategy, a: Agreements, free: seq<int>, b: Agreements, rest: seq<int>)
    requires Reduces(a, b) && forall n :: n in rest ==> n in free
    ensures |Usable(strategy, b, rest)| <= |Usable(strategy, a, free)|
  {
    SubsetByMembers(Usable(strategy, b, rest), Usable(strategy, a, free));
    SubsetSize(Usable(strategy, b, rest), Usable(strategy, a, free));
  }

  /** Resolving takes nodes from the free list and reservations away, and swaps some. */
  ghost predicate LeavesLess(r: Round, t: Round) {
    Reduces(r.agreements, t.agreements) && forall n :: n in t.free ==> n in r.free
  }

  lemma TooLargeStays(strategy: Strategy, r: Round, t: Round, j: int)
    requires LeavesLess(r, t) && TooLarge(strategy, r, j) && t.agreements.HasJob(j)
    requires strategy.MinAgreement? ==> t.agreements.NodesOf(j) == r.agreements.NodesOf(j)
    ensures TooLarge(strategy, t, j)
  {
    UsableShrinks(strategy, r.agreements, r.free, t.agreements, t.free);
    if strategy.MinAgreement? {
      var n :| n in r.agreements.NodesOf(j) && n !in r.free;
      assert n in t.agreements.NodesOf(j) && n !in t.free;
    }
  }

  /** At its turn a job starts exactly if its reservation is not too large; then it holds none any
      more, and else nothing changes. */
  lemma StartsUnlessTooLarge(strategy: Strategy, ctx: Ctx, s0: Sys, r: Round, j: int)
    requires RoundOk(strategy, false, s0, r, -1) && !ctx.cfg.loaded && j in r.pending && r.agreements.HasJob(j)
    ensures 0 <= j < |r.sys.jobs|
    ensures var t := ResolveOne(strategy, ctx, r, j);
      && LeavesLess(r, t)
      && (TooLarge(strategy, r, j) ==> t == r)
      && (!TooLarge(strategy, r, j) ==> t.started == r.started + [j] && !t.agreements.HasJob(j))
  {
    assert Distinct(r.free) && 0 <= j < |r.sys.jobs|;
    hide RoundOk;
    UsableIsListed(strategy, r.agreements, r.free);
    ResolveOneKeeps(strategy, ctx, s0, r, j);
    FreeOnlyShrinks(strategy, ctx, r, j);
    match strategy
    case MinAgreement =>
      DirectStartsIfAllFree(ctx, s0, r, j);
      assert AllFree(r, j) <==> !TooLarge(strategy, r, j);
      if AllFree(r, j) { StartedHoldsNothing(strategy, ctx, s0, r, j); }
    case MinStealAgreement =>
      StealStartsIfEnoughReserved(strategy, ctx, s0, r, j);
      if !TooLarge(strategy, r, j) { StartedHoldsNothing(strategy, ctx, s0, r, j); }
    case MinCommonPool =>
      PoolStartsIfEnoughFree(ctx, s0, r, j);
      if !TooLarge(strategy, r, j) { StartedHoldsNothing(strategy, ctx, s0, r, j); }
    case PrefStealAgreement =>
      StealStartsIfEnoughReserved(strategy, ctx, s0, r, j);
      if !TooLarge(strategy, r, j) { StartedHoldsNothing(strategy, ctx, s0, r, j); }
  }

  /** A job that has started is not pending any more, so it holds no reservation. */
  lemma StartedHoldsNothing(strategy: Strategy, ctx: Ctx, s0: Sys, r: Round, j: int)
    requires RoundOk(strategy, false, s0, r, -1) && !ctx.cfg.loaded && j in r.pending && r.agreements.HasJob(j) && 0 <= j < |r.sys.jobs|
    requires ResolveOne(strategy, ctx, r, j).started == r.started + [j]
    ensures !ResolveOne(strategy, ctx, r, j).agreements.HasJob(j)
  {
    ResolveOneKeeps(strategy, ctx, s0, r, j);
    hide ResolveOne;
    var t := ResolveOne(strategy, ctx, r, j);
    assert j in t.started;
  }

  lemma FreeOnlyShrinks(strategy: Strategy, ctx: Ctx, r: Round, j: int)
    requires 0 <= j < |r.sys.jobs|
    ensures forall n :: n in ResolveOne(strategy, ctx, r, j).free ==> n in r.free
  {
    hide EligibleForPending;
    hide RemoveEach;
    hide ReservedFor;
    hide Agreements.Steal;
    hide Agreements.SelectFromPool;
    hide Agreements.Remove;
    hide Agreements.FinalizePool;
    var a, freeReserved := r.agreements, NodesWithAgreement(r.agreements, r.free);
    RemoveEachShrinks(r.free, ReservedFor(a, j, r.free));
    RemoveEachShrinks(r.free, ReservedFor(a.Steal(j, freeReserved), j, freeReserved));
    if |a.NodesOf(j)| > 0 {
      RemoveEachShrinks(r.free, a.SelectFromPool(j, EligibleForPending(ctx, r.sys, j, r.free, |a.NodesOf(j)|)));
    }
  }

  lemma HolderIsSized(strategy: Strategy, s0: Sys, r: Round, j: int)
    requires RoundOk(strategy, false, s0, r, -1) && r.agreements.HasJob(j)
    ensures Distinct(r.free) && |r.agreements.NodesOf(j)| > 0
  {
    ReservationNonEmpty(strategy, r.agreements, j, |r.sys.jobs|);
  }

  /** Where the loop stops early, every reservation is too large. */
  lemma StopsWhenAllAreTooLarge(strategy: Strategy, s0: Sys, r: Round, j: int)
    requires RoundOk(strategy, false, s0, r, -1) && r.agreements.HasJob(j) && StopsResolving(strategy, r)
    ensures TooLarge(strategy, r, j)
  {
    HolderIsSized(strategy, s0, r, j);
    UsableIsListed(strategy, r.agreements, r.free);
  }

  /** One turn, seen from any job. */
  lemma TurnLeavesTooLarge(strategy: Strategy, ctx: Ctx, s0: Sys, r: Round, k: int, j: int)
    requires RoundOk(strategy, false, s0, r, -1) && !ctx.cfg.loaded && k in r.pending && r.agreements.HasJob(k)
    ensures 0 <= k < |r.sys.jobs|
    ensures var t := ResolveOne(strategy, ctx, r, k);
      && (t.agreements.HasJob(j) ==> r.agreements.HasJob(j))
      && (t.agreements.HasJob(j) && (j == k || TooLarge(strategy, r, j)) ==> TooLarge(strategy, t, j))
  {
    StartsUnlessTooLarge(strategy, ctx, s0, r, k);
    var t := ResolveOne(strategy, ctx, r, k);
    if t.agreements.HasJob(j) && j != k && TooLarge(strategy, r, j) {
      if strategy.MinAgreement? {
        assert AllFree(r, j) <==> !TooLarge(strategy, r, j);
        assert AllFree(t, j) <==> !TooLarge(strategy, t, j);
        hide RoundOk;
        DirectTurn(ctx, s0, r, k, j);
      } else {
        TooLargeStays(strategy, r, t, j);
      }
    }
  }

  lemma {:induction false} ResolvingLeavesTooLarge(strategy: Strategy, ctx: Ctx, s0: Sys, r: Round, targets: seq<int>, j: int)
    requires RoundOk(strategy, false, s0, r, -1) && !ctx.cfg.loaded
    requires Distinct(targets) && forall k :: k in targets ==> 0 <= k < |r.sys.jobs| && k in r.pending && r.agreements.HasJob(k)
    requires j in targets || TooLarge(strategy, r, j)
    ensures var t := Resolve(strategy, ctx, r, targets); t.agreements.HasJob(j) ==> r.agreements.HasJob(j) && TooLarge(strategy, t, j)
    decreases |targets|
  {
    hide RoundOk;
    hide StopsResolving;
    hide ResolveOne;
    hide ResolvesOne;
    hide TooLarge;
    if targets != [] && !StopsResolving(strategy, r) {
      var k, tail := targets[0], targets[1..];
      HeadAndTail(targets);
      ResolveOneKeeps(strategy, ctx, s0, r, k);
      ResolveOneKeepsOthersPending(strategy, ctx, r, k);
      TurnLeavesTooLarge(strategy, ctx, s0, r, k, j);
      var t := ResolveOne(strategy, ctx, r, k);
      assert targets == [k] + tail;
      if j in tail || TooLarge(strategy, t, j) {
        ResolvingLeavesTooLarge(strategy, ctx, s0, t, tail, j);
      } else {
        assert !t.agreements.HasJob(j);
        ReservationsOnlyGo(strategy, ctx, s0, t, tail);
      }
    } else if targets != [] && r.agreements.HasJob(j) {
      StopsWhenAllAreTooLarge(strategy, s0, r, j);
    }
  }

  lemma ReservationsOnlyGo(strategy: Strategy, ctx: Ctx, s0: Sys, r: Round, targets: seq<int>)
    requires RoundOk(strategy, ctx.cfg.loaded, s0, r, -1)
    requires Distinct(targets) && forall j :: j in targets ==> 0 <= j < |r.sys.jobs| && j in r.pending && r.agreements.HasJob(j)
    ensures Reduces(r.agreements, Resolve(strategy, ctx, r, targets).agreements)
  {
    hide RoundOk;
    ResolveStartsReserved(strategy, ctx, s0, r, targets);
  }

  /** The first job whose reservation is not too large is started at its turn. */
  lemma {:induction false} FirstFitStarts(strategy: Strategy, ctx: Ctx, s0: Sys, r: Round, targets: seq<int>, i: nat)
    requires RoundOk(strategy, false, s0, r, -1) && !ctx.cfg.loaded
    requires Distinct(targets) && forall k :: k in targets ==> 0 <= k < |r.sys.jobs| && k in r.pending && r.agreements.HasJob(k)
    requires i < |targets| && !TooLarge(strategy, r, targets[i]) && forall m :: 0 <= m < i ==> TooLarge(strategy, r, targets[m])
    ensures targets[i] in Resolve(strategy, ctx, r, targets).started
    decreases |targets|
  {
    hide RoundOk;
    hide StopsResolving;
    hide ResolveOne;
    hide ResolvesOne;
    hide TooLarge;
    var k, tail := targets[0], targets[1..];
    HeadAndTail(targets);
    if StopsResolving(strategy, r) {
      StopsWhenAllAreTooLarge(strategy, s0, r, targets[i]);
    } else {
      StartsUnlessTooLarge(strategy, ctx, s0, r, k);
      ResolveOneKeeps(strategy, ctx, s0, r, k);
      ResolveOneKeepsOthersPending(strategy, ctx, r, k);
      var t := ResolveOne(strategy, ctx, r, k);
      if i == 0 {
        assert k in t.started;
        StartedStay(strategy, ctx, t, tail, k);
      } else {
        FirstFitStarts(strategy, ctx, s0, r, tail, i - 1);
      }
    }
  }

  lemma {:induction false} StartedStay(strategy: Strategy, ctx: Ctx, r: Round, targets: seq<int>, j: int)
    requires (forall k :: k in targets ==> 0 <= k < |r.sys.jobs|) && j in r.started
    ensures j in Resolve(strategy, ctx, r, targets).started
    decreases |targets|
  {
    if targets != [] && !StopsResolving(strategy, r) {
      assert targets[0] in targets && forall k :: k in targets[1..] ==> k in targets;
      StartedStayOne(strategy, ctx, r, targets[0], j);
      StartedStay(strategy, ctx, ResolveOne(strategy, ctx, r, targets[0]), targets[1..], j);
    }
  }

  lemma StartedStayOne(strategy: Strategy, ctx: Ctx, r: Round, k: int, j: int)
    requires 0 <= k < |r.sys.jobs| && j in r.started
    ensures j in ResolveOne(strategy, ctx, r, k).started
  {
  }

  // ---- The turns with any policy ---------------------------------------------------------------

  /** Every listed node accepts the job on as many nodes as it has reserved. */
  ghost predicate AllAccept(ctx: Ctx, r: Round, j: int, ns: set<int>) {
    && 0 <= j < |r.sys.jobs| && |r.agreements.NodesOf(j)| > 0
    && forall n :: n in ns ==> Accepts(ctx, r.sys.nodes, n, PlannedRuntime(r.sys.jobs[j], |r.agreements.NodesOf(j)|), false)
  }

  /** The job starts on exactly these nodes, which are free no more, and holds no reservation. */
  ghost predicate StartsOn(r: Round, t: Round, j: int, ns: set<int>) {
    && 0 <= j < |r.sys.jobs| && |t.sys.jobs| == |r.sys.jobs| && t.sys.jobs[j].state.PendingAllocation? && SetOf(t.sys.jobs[j].assignedNodes) == ns
    && t.started == r.started + [j] && j !in t.pending && !t.agreements.HasJob(j) && forall n :: n in t.free <==> n in r.free && n !in ns
  }

  lemma AssignmentStartsOn(r: Round, j: int, ns: seq<int>, b: Agreements)
    requires 0 <= j < |r.sys.jobs| && r.sys.jobs[j].assignedNodes == [] && Distinct(r.free) && Distinct(r.pending) && !b.HasJob(j)
    ensures StartsOn(r, ApplyAgreement(r, j, ns).(agreements := b), j, SetOf(ns))
  {
    RemoveEachDistinct(r.free, ns);
    assert r.sys.jobs[j].assignedNodes + ns == ns;
  }

  lemma HolderMayStart(strategy: Strategy, loaded: bool, s0: Sys, r: Round, j: int)
    requires RoundOk(strategy, loaded, s0, r, -1) && j in r.pending && r.agreements.HasJob(j)
    ensures 0 <= j < |r.sys.jobs| && r.sys.jobs[j].assignedNodes == [] && Distinct(r.free) && Distinct(r.pending)
    ensures |r.agreements.NodesOf(j)| > 0 && (!strategy.MinCommonPool? ==> TwoWay(r.agreements))
  {
    assert JobOk(r.sys.jobs[j], |r.sys.nodes|);
    ReservationNonEmpty(strategy, r.agreements, j, |r.sys.jobs|);
  }

  /** With the direct handler a job waits until all its reserved nodes are free, and then starts on
      them or, if one refuses, loses its reservation. */
  lemma DirectTurnExactly(ctx: Ctx, s0: Sys, r: Round, j: int)
    requires RoundOk(MinAgreement, ctx.cfg.loaded, s0, r, -1) && j in r.pending && r.agreements.HasJob(j)
    ensures 0 <= j < |r.sys.jobs|
    ensures var t, reserved := ResolveOne(MinAgreement, ctx, r, j), r.agreements.NodesOf(j);
      && (!AllFree(r, j) ==> t == r)
      && (AllFree(r, j) && AllAccept(ctx, r, j, reserved) ==> StartsOn(r, t, j, reserved))
      && (AllFree(r, j) && !AllAccept(ctx, r, j, reserved) ==> t == r.(agreements := t.agreements) && !t.agreements.HasJob(j))
  {
    HolderMayStart(MinAgreement, ctx.cfg.loaded, s0, r, j);
    hide RoundOk;
    hide TwoWay;
    hide Agreements.Remove;
    var ns, size := ReservedFor(r.agreements, j, r.free), |r.agreements.NodesOf(j)|;
    AllReservedListed(r.agreements, j, r.free);
    RemoveKeepsTwoWay(r.agreements, j);
    if AllFree(r, j) {
      SetEqualByMembers(SetOf(ns), r.agreements.NodesOf(j));
      FilterAll(n => Accepts(ctx, r.sys.nodes, n, PlannedRuntime(r.sys.jobs[j], size), false), ns);
      AssignmentStartsOn(r, j, ns, r.agreements.Remove(j));
    }
  }

  /** With its reservation on free nodes alone, the job starts on them or, if one refuses, loses it. */
  lemma StolenStarts(ctx: Ctx, r: Round, b: Agreements, j: int, listed: seq<int>)
    requires 0 <= j < |r.sys.jobs| && r.sys.jobs[j].assignedNodes == [] && Distinct(r.free) && Distinct(r.pending) && Distinct(listed)
    requires TwoWay(b) && |b.NodesOf(j)| == |r.agreements.NodesOf(j)| > 0 && forall n :: n in b.NodesOf(j) ==> n in listed
    ensures var t, stolen := AssignStolen(ctx, r.(agreements := b), j, listed, |b.NodesOf(j)|), b.NodesOf(j);
      && (AllAccept(ctx, r, j, stolen) ==> StartsOn(r, t, j, stolen))
      && (!AllAccept(ctx, r, j, stolen) ==> t == r.(agreements := t.agreements) && !t.agreements.HasJob(j))
  {
    var ns, size := ReservedFor(b, j, listed), |b.NodesOf(j)|;
    SetEqualByMembers(SetOf(ns), b.NodesOf(j));
    DistinctSize(ns);
    RemoveKeepsTwoWay(b, j);
    hide TwoWay;
    hide StartsOn;
    hide Agreements.Remove;
    FilterAll(n => Accepts(ctx, r.sys.nodes, n, PlannedRuntime(r.sys.jobs[j], size), false), ns);
    AssignmentStartsOn(r, j, ns, b.Remove(j));
  }

  lemma StolenAreFree(strategy: Strategy, a: Agreements, free: seq<int>, j: int)
    requires !strategy.MinCommonPool? && TwoWay(a) && Distinct(free) && a.HasJob(j) && |a.NodesOf(j)| <= |Usable(strategy, a, free)|
    ensures |a.NodesOf(j)| <= |NodesWithAgreement(a, free)|
    ensures var b := a.Steal(j, NodesWithAgreement(a, free));
      && TwoWay(b) && |b.NodesOf(j)| == |a.NodesOf(j)| && b.NodesOf(j) <= Usable(strategy, a, free)
      && forall n :: n in b.NodesOf(j) ==> n in NodesWithAgreement(a, free)
  {
    UsableIsListed(strategy, a, free);
    StealReduces(a, free, j);
    StealIsNeverShort(a, free, j);
    SubsetByMembers(a.Steal(j, NodesWithAgreement(a, free)).NodesOf(j), Usable(strategy, a, free));
  }

  /** With a steal handler a job waits until as many reserved nodes are free as it has reserved. Then
      its reservation comes to be of free nodes alone, and it starts on them or, if one refuses,
      loses its reservation. */
  lemma StealTurnExactly(strategy: Strategy, ctx: Ctx, s0: Sys, r: Round, j: int)
    requires strategy.MinStealAgreement? || strategy.PrefStealAgreement?
    requires RoundOk(strategy, ctx.cfg.loaded, s0, r, -1) && j in r.pending && r.agreements.HasJob(j)
    ensures 0 <= j < |r.sys.jobs|
    ensures var t, size, usable := ResolveOne(strategy, ctx, r, j), |r.agreements.NodesOf(j)|, Usable(strategy, r.agreements, r.free);
      var stolen := r.agreements.Steal(j, NodesWithAgreement(r.agreements, r.free)).NodesOf(j);
      && (size > |usable| ==> t == r)
      && (size <= |usable| ==> |stolen| == size && stolen <= usable)
      && (size <= |usable| && AllAccept(ctx, r, j, stolen) ==> StartsOn(r, t, j, stolen))
      && (size <= |usable| && !AllAccept(ctx, r, j, stolen) ==> t == r.(agreements := t.agreements) && !t.agreements.HasJob(j))
  {
    HolderMayStart(strategy, ctx.cfg.loaded, s0, r, j);
    hide RoundOk;
    hide TwoWay;
    hide StartsOn;
    hide AllAccept;
    hide AssignStolen;
    hide Agreements.Steal;
    hide Usable;
    UsableIsListed(strategy, r.agreements, r.free);
    var freeReserved := NodesWithAgreement(r.agreements, r.free);
    hide NodesWithAgreement;
    if |r.agreements.NodesOf(j)| <= |freeReserved| {
      StolenAreFree(strategy, r.agreements, r.free, j);
      StolenStarts(ctx, r, r.agreements.Steal(j, freeReserved), j, freeReserved);
    }
  }

  lemma SelectedAreAccepting(ctx: Ctx, r: Round, j: int, size: nat)
    requires 0 <= j < |r.sys.jobs| && Distinct(r.free) && size == |r.agreements.NodesOf(j)| > 0
    ensures var accepting := set n | n in r.free && Accepts(ctx, r.sys.nodes, n, PlannedRuntime(r.sys.jobs[j], size), false);
      var ns := r.agreements.SelectFromPool(j, EligibleForPending(ctx, r.sys, j, r.free, size));
      && |ns| <= size && (|ns| == size <==> size <= |accepting|) && (size <= |accepting| ==> size <= |r.free|)
      && SetOf(ns) <= accepting && |SetOf(ns)| == |ns|
  {
    var eligible := EligibleForPending(ctx, r.sys, j, r.free, size);
    var accepting := set n | n in r.free && Accepts(ctx, r.sys.nodes, n, PlannedRuntime(r.sys.jobs[j], size), false);
    SetEqualByMembers(accepting, SetOf(eligible));
    DistinctSize(eligible);
    SelectionIsSound(r.agreements, j, eligible);
    hide Accepts;
    hide Agreements.SelectFromPool;
    var ns := r.agreements.SelectFromPool(j, eligible);
    SubsetByMembers(SetOf(ns), accepting);
    DistinctSize(ns);
  }

  /** With the pool handler a job waits until as many free nodes accept it as it has reserved. */
  lemma PoolTurnExactly(ctx: Ctx, s0: Sys, r: Round, j: int)
    requires RoundOk(MinCommonPool, ctx.cfg.loaded, s0, r, -1) && j in r.pending && r.agreements.HasJob(j)
    ensures 0 <= j < |r.sys.jobs| && |r.agreements.NodesOf(j)| > 0
    ensures var t, size := ResolveOne(MinCommonPool, ctx, r, j), |r.agreements.NodesOf(j)|;
      var accepting := set n | n in r.free && Accepts(ctx, r.sys.nodes, n, PlannedRuntime(r.sys.jobs[j], size), false);
      && (size > |accepting| ==> t == r)
      && (size <= |accepting| ==> exists ns: set<int> :: |ns| == size && ns <= accepting && StartsOn(r, t, j, ns))
  {
    HolderMayStart(MinCommonPool, ctx.cfg.loaded, s0, r, j);
    assert Pooled(r.agreements, |r.sys.jobs|);
    hide RoundOk;
    hide Pooled;
    hide StartsOn;
    hide Accepts;
    hide EligibleForPending;
    hide Agreements.SelectFromPool;
    hide Agreements.FinalizePool;
    var size := |r.agreements.NodesOf(j)|;
    SelectedAreAccepting(ctx, r, j, size);
    var ns := r.agreements.SelectFromPool(j, EligibleForPending(ctx, r.sys, j, r.free, size));
    if |ns| == size {
      FinalizeKeepsPooled(r.agreements, j, ns, |r.sys.jobs|);
      AssignmentStartsOn(r, j, ns, r.agreements.FinalizePool(j, ns));
    }
  }

  /** All listed jobs have their turn, one after the other. */
  ghost function EachInTurn(strategy: Strategy, ctx: Ctx, r: Round, targets: seq<int>): Round
    requires forall j :: j in targets ==> 0 <= j < |r.sys.jobs|
    decreases |targets|
  {
    if targets == [] then r
    else
      assert targets[0] in targets && forall j :: j in targets[1..] ==> j in targets;
      EachInTurn(strategy, ctx, ResolveOne(strategy, ctx, r, targets[0]), targets[1..])
  }

  lemma StoppedTurnDoesNothing(strategy: Strategy, ctx: Ctx, s0: Sys, r: Round, j: int)
    requires RoundOk(strategy, ctx.cfg.loaded, s0, r, -1) && j in r.pending && r.agreements.HasJob(j) && StopsResolving(strategy, r)
    ensures 0 <= j < |r.sys.jobs| && ResolveOne(strategy, ctx, r, j) == r
  {
    ReservationNonEmpty(strategy, r.agreements, j, |r.sys.jobs|);
    UsableIsListed(strategy, r.agreements, r.free);
  }

  /** The early exits of the loop are harmless, with any policy: every job that holds a reservation
      has its turn, as if there were none. */
  lemma {:induction false} EarlyExitIsHarmless(strategy: Strategy, ctx: Ctx, s0: Sys, r: Round, targets: seq<int>)
    requires RoundOk(strategy, ctx.cfg.loaded, s0, r, -1)
    requires Distinct(targets) && forall j :: j in targets ==> 0 <= j < |r.sys.jobs| && j in r.pending && r.agreements.HasJob(j)
    ensures Resolve(strategy, ctx, r, targets) == EachInTurn(strategy, ctx, r, targets)
    decreases |targets|
  {
    hide RoundOk;
    hide ResolveOne;
    hide ResolvesOne;
    hide StopsResolving;
    if targets != [] {
      var j, tail := targets[0], targets[1..];
      HeadAndTail(targets);
      if StopsResolving(strategy, r) {
        StoppedTurnDoesNothing(strategy, ctx, s0, r, j);
        EarlyExitIsHarmless(strategy, ctx, s0, r, tail);
      } else {
        ResolveOneKeeps(strategy, ctx, s0, r, j);
        ResolveOneKeepsOthersPending(strategy, ctx, r, j);
        EarlyExitIsHarmless(strategy, ctx, s0, ResolveOne(strategy, ctx, r, j), tail);
      }
    }
  }

  // ---- The whole round -------------------------------------------------------------------------

  lemma HoldersAscend(s: Sys, a: Agreements)
    ensures AscendingOrder(WithAgreement(a, PendingJobs(s.jobs))) && Distinct(WithAgreement(a, PendingJobs(s.jobs)))
  {
    FilterAscends(j => 0 <= j < |s.jobs| && s.jobs[j].state.Pending?, Range(|s.jobs|));
    FilterAscends(j => a.HasJob(j), PendingJobs(s.jobs));
  }

  /** A job's reservation can be redeemed now. With the direct handler its own nodes have to be
      free, with the others as many nodes: any with the pool handler, reserved ones with the steal
      handler. */
  ghost predicate Redeemable(strategy: Strategy, s: Sys, a: Agreements, j: int) {
    match strategy
    case MinAgreement => forall n :: n in a.NodesOf(j) ==> InitiallyFree(s, n)
    case MinCommonPool => |a.NodesOf(j)| <= |set n | 0 <= n < |s.nodes| && InitiallyFree(s, n)|
    case MinStealAgreement => |a.NodesOf(j)| <= |set n | 0 <= n < |s.nodes| && InitiallyFree(s, n) && n in a.nodeToJobId|
    case PrefStealAgreement => |a.NodesOf(j)| <= |set n | 0 <= n < |s.nodes| && InitiallyFree(s, n) && n in a.nodeToJobId|
  }

  lemma RedeemableIsNotTooLarge(strategy: Strategy, s: Sys, a: Agreements, j: int)
    ensures Redeemable(strategy, s, a, j) <==> !TooLarge(strategy, BeginRound(s, a), j)
  {
    var free := FreeNodes(s.nodes);
    SetEqualByMembers(Usable(MinCommonPool, a, free), set n | 0 <= n < |s.nodes| && InitiallyFree(s, n));
    SetEqualByMembers(Usable(MinStealAgreement, a, free), set n | 0 <= n < |s.nodes| && InitiallyFree(s, n) && n in a.nodeToJobId);
    assert Usable(PrefStealAgreement, a, free) == Usable(MinStealAgreement, a, free);
    assert forall n :: n in free <==> InitiallyFree(s, n);
  }

  lemma RoundBegins(strategy: Strategy, s: Sys, a: Agreements)
    requires Settled(strategy, false, s, a)
    ensures RoundOk(strategy, false, s, BeginRound(s, a), -1)
    ensures forall j :: j in WithAgreement(a, PendingJobs(s.jobs)) <==> a.HasJob(j)
    ensures forall j :: a.HasJob(j) ==> 0 <= j < |s.jobs| && s.jobs[j].state.Pending?
  {
    RoundBeginsOk(strategy, false, s, a);
  }

  /** Without a policy, after reservations were resolved a job still holds one only if it is larger
      than what is left to redeem it with. */
  lemma HoldersWaitOnlyForMore(strategy: Strategy, ctx: Ctx, s: Sys, a: Agreements, j: int)
    requires Settled(strategy, false, s, a) && !ctx.cfg.loaded
    ensures var t := ResolvePhase(strategy, ctx, BeginRound(s, a)); t.agreements.HasJob(j) ==> a.HasJob(j) && TooLarge(strategy, t, j)
  {
    RoundBegins(strategy, s, a);
    HoldersAscend(s, a);
    hide Settled;
    hide RoundOk;
    hide TooLarge;
    hide Resolve;
    var r, targets := BeginRound(s, a), WithAgreement(a, PendingJobs(s.jobs));
    if j in targets {
      ResolvingLeavesTooLarge(strategy, ctx, s, r, targets, j);
    } else {
      ReservationsOnlyGo(strategy, ctx, s, r, targets);
    }
  }

  /** Without a policy, a round starts the first job in the queue whose reservation can be redeemed
      when it begins. */
  lemma FirstRedeemableStarts(strategy: Strategy, ctx: Ctx, s: Sys, a: Agreements, j: int)
    requires Settled(strategy, false, s, a) && !ctx.cfg.loaded && a.HasJob(j) && Redeemable(strategy, s, a, j)
    requires forall k :: k < j && a.HasJob(k) ==> !Redeemable(strategy, s, a, k)
    ensures j in ScheduleRound(strategy, ctx, s, a).started
  {
    RoundBegins(strategy, s, a);
    HoldersAscend(s, a);
    hide Settled;
    hide RoundOk;
    hide TooLarge;
    hide Redeemable;
    hide Resolve;
    hide Resolved;
    hide ScheduleRound;
    var r, targets := BeginRound(s, a), WithAgreement(a, PendingJobs(s.jobs));
    var i := IndexIn(targets, j);
    RedeemableIsNotTooLarge(strategy, s, a, j);
    forall m | 0 <= m < i ensures TooLarge(strategy, r, targets[m]) {
      assert targets[m] in targets;
      RedeemableIsNotTooLarge(strategy, s, a, targets[m]);
    }
    FirstFitStarts(strategy, ctx, s, r, targets, i);
    ResolvedIsPhase(strategy, ctx, s, a);
    LaterStartsHoldNothing(strategy, ctx, s, a, j);
  }

  /** Without a policy, after an invocation that job runs. */
  lemma InvocationRunsFirstRedeemable(cfg: SchedulerConfig, w: World, now: real, requester: int, j: int)
    requires !cfg.policy.loaded && now >= 0.0 && Settled(cfg.strategy, false, w.sys, w.agreements) && w.agreements.HasJob(j)
    requires var s := Prepare(cfg.policy, w.policy, w.sys, now).1;
      Redeemable(cfg.strategy, s, w.agreements, j) && forall k :: k < j && w.agreements.HasJob(k) ==> !Redeemable(cfg.strategy, s, w.agreements, k)
    ensures 0 <= j < |w.sys.jobs| && Invoke(cfg, w, now, requester).sys.jobs[j].state.Running?
  {
    hide Settled;
    hide Redeemable;
    hide Prepare;
    hide ScheduleRound;
    PrepareKeepsSettled(cfg.strategy, cfg.policy, w.policy, w.sys, w.agreements, now);
    var (policy, s) := Prepare(cfg.policy, w.policy, w.sys, now);
    FirstRedeemableStarts(cfg.strategy, Context(cfg.policy, policy, now), s, w.agreements, j);
    HolderIsPending(cfg.strategy, false, s, w.agreements, j);
    StartedRuns(cfg, w, now, requester, j);
  }

  /** What the round of an invocation starts runs after the invocation, on the nodes it was assigned. */
  lemma StartedRuns(cfg: SchedulerConfig, w: World, now: real, requester: int, j: int)
    requires now >= 0.0 && Settled(cfg.strategy, cfg.policy.loaded, w.sys, w.agreements) && 0 <= j < |w.sys.jobs|
    requires var (policy, s) := Prepare(cfg.policy, w.policy, w.sys, now);
      j in ScheduleRound(cfg.strategy, Context(cfg.policy, policy, now), s, w.agreements).started
    ensures Invoke(cfg, w, now, requester).sys.jobs[j].state.Running?
    ensures var (policy, s) := Prepare(cfg.policy, w.policy, w.sys, now);
      Invoke(cfg, w, now, requester).sys.jobs[j].executingNodes
      == ScheduleRound(cfg.strategy, Context(cfg.policy, policy, now), s, w.agreements).sys.jobs[j].assignedNodes
  {
    hide Settled;
    hide RoundOk;
    hide Prepare;
    hide ScheduleRound;
    hide ForwardAll;
    hide Forwarding;
    PrepareKeepsSettled(cfg.strategy, cfg.policy, w.policy, w.sys, w.agreements, now);
    var (policy, s) := Prepare(cfg.policy, w.policy, w.sys, now);
    var ctx, loaded := Context(cfg.policy, policy, now), cfg.policy.loaded;
    var t := ScheduleRound(cfg.strategy, ctx, s, w.agreements);
    RoundIsSafe(cfg.strategy, ctx, s, w.agreements);
    RoundEndsForwarding(cfg.strategy, loaded, s, t);
    AnswerKeepsForwarding(cfg.strategy, loaded, t.sys, t.agreements, t.started, requester, now);
    ForwardingTakesOver(cfg.strategy, loaded, Answer(t.sys, requester, now), t.agreements, t.started, now, j);
    StartedWaits(cfg.strategy, loaded, s, t, j);
  }

  lemma StartedWaits(strategy: Strategy, loaded: bool, s0: Sys, t: Round, j: int)
    requires RoundOk(strategy, loaded, s0, t, -1) && j in t.started
    ensures 0 <= j < |t.sys.jobs| && t.sys.jobs[j].state.PendingAllocation? && t.sys.jobs[j].assignedNodes != []
  {
    assert 0 <= j < |t.sys.jobs|;
    assert JobOk(t.sys.jobs[j], |t.sys.nodes|);
  }
}
