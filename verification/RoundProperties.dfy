/** What one scheduling round guarantees, for all four strategies: no node is handed out twice,
    reserved nodes stay out of every job, jobs stay within their limits, and every node that was
    free is accounted for. */
module RoundProperties {
  import opened Sequences
  import opened RuntimePrediction
  import opened ClusterState
  import opened ClusterInvariant
  import opened ShutdownPolicy
  import opened AgreementMaps
  import opened SchedulingRound
  import opened RoundInvariant

  // ---- Phase 1 -----------------------------------------------------------------------------

  lemma ReducesTransitive(a: Agreements, b: Agreements, c: Agreements)
    requires Reduces(a, b) && Reduces(b, c)
    ensures Reduces(a, c)
  {
  }

  lemma RemoveReduces(a: Agreements, j: int)
    requires TwoWay(a)
    ensures Reduces(a, a.Remove(j)) && TwoWay(a.Remove(j)) && !a.Remove(j).HasJob(j)
    ensures forall k :: k != j && a.HasJob(k) ==> a.Remove(j).HasJob(k)
    ensures forall n :: n in a.NodesOf(j) ==> n !in a.Remove(j).nodeToJobId
  {
    RemoveKeepsTwoWay(a, j);
  }

  /** Starting a job that holds a reservation. */
  lemma ApplyAgreementKeeps(strategy: Strategy, loaded: bool, s0: Sys, r: Round, j: int, ns: seq<int>, b: Agreements)
    requires RoundOk(strategy, loaded, s0, r, -1) && j in r.pending && r.agreements.HasJob(j)
    requires ns != [] && Distinct(ns) && (forall n :: n in ns ==> n in r.free && n !in b.nodeToJobId)
    requires Reduces(r.agreements, b) && Maps(strategy, b, |r.sys.jobs|) && !b.HasJob(j)
    requires |ns| == |r.agreements.NodesOf(j)|
    ensures RoundOk(strategy, loaded, s0, ApplyAgreement(r, j, ns).(agreements := b), -1)
    ensures ResolvesOne(r, ApplyAgreement(r, j, ns).(agreements := b), j)
  {
    assert r.sys.jobs[j].assignedNodes + ns == ns by { assert JobOk(r.sys.jobs[j], |r.sys.nodes|); }
    StartStep(strategy, loaded, s0, r, j, ns, b, RemoveFirst(r.pending, j));
  }

  /** What resolving one job does to anything but the queue and the free list: the job may start
      on as many nodes as it has reserved, and no other reservation changes its size. */
  ghost predicate ResolvesOne(r: Round, t: Round, j: int) {
    && Reduces(r.agreements, t.agreements)
    && |t.sys.jobs| == |r.sys.jobs| && (forall k :: 0 <= k < |r.sys.jobs| && k != j ==> t.sys.jobs[k] == r.sys.jobs[k])
    && (t.started == r.started
        || (t.started == r.started + [j] && 0 <= j < |t.sys.jobs| && |t.sys.jobs[j].assignedNodes| == |r.agreements.NodesOf(j)|))
  }

  lemma ReservationNonEmpty(strategy: Strategy, a: Agreements, j: int, jobCount: nat)
    requires Maps(strategy, a, jobCount) && a.HasJob(j)
    ensures a.NodesOf(j) != {} && |a.NodesOf(j)| > 0
  {
  }

  lemma ResolveDirectKeeps(ctx: Ctx, s0: Sys, r: Round, j: int)
    requires RoundOk(MinAgreement, ctx.cfg.loaded, s0, r, -1) && j in r.pending && r.agreements.HasJob(j)
    ensures RoundOk(MinAgreement, ctx.cfg.loaded, s0, ResolveDirectOne(ctx, r, j), -1)
    ensures ResolvesOne(r, ResolveDirectOne(ctx, r, j), j)
    ensures forall k :: k != j && r.agreements.HasJob(k) ==> ResolveDirectOne(ctx, r, j).agreements.HasJob(k)
  {
    var reserved, ns, b := r.agreements.NodesOf(j), ReservedFor(r.agreements, j, r.free), r.agreements.Remove(j);
    RemoveReduces(r.agreements, j);
    if |ns| == |reserved| {
      ReservationNonEmpty(MinAgreement, r.agreements, j, |r.sys.jobs|);
      if |EligibleForPending(ctx, r.sys, j, ns, |reserved|)| == |reserved| {
        ApplyAgreementKeeps(MinAgreement, ctx.cfg.loaded, s0, r, j, ns, b);
      } else {
        ReduceStep(MinAgreement, ctx.cfg.loaded, s0, r, b);
      }
    }
  }

  /** The free reserved nodes of a round, and what stealing among them does. */
  lemma StealReduces(a: Agreements, free: seq<int>, j: int)
    requires TwoWay(a) && Distinct(free) && a.HasJob(j)
    ensures var freeReserved := NodesWithAgreement(a, free); var b := a.Steal(j, freeReserved);
      && TwoWay(b) && Reduces(a, b) && |b.NodesOf(j)| == |a.NodesOf(j)| && (forall k :: a.HasJob(k) ==> b.HasJob(k))
  {
    FilterDistinct(n => a.HasNode(n), free);
    StealSucceeds(a, j, NodesWithAgreement(a, free));
  }

  /** When there are as many free reserved nodes as the job has reserved, stealing always yields
      the whole reservation: the branch for too few nodes, and the one for none, are dead. */
  lemma StealIsNeverShort(a: Agreements, free: seq<int>, j: int)
    requires TwoWay(a) && Distinct(free) && a.HasJob(j)
    requires |a.NodesOf(j)| <= |NodesWithAgreement(a, free)|
    ensures var freeReserved := NodesWithAgreement(a, free); var b := a.Steal(j, freeReserved);
      && |ReservedFor(b, j, freeReserved)| == |a.NodesOf(j)| && ReservedFor(b, j, freeReserved) != []
      && forall n :: n in b.NodesOf(j) <==> n in ReservedFor(b, j, freeReserved)
  {
    var freeReserved := NodesWithAgreement(a, free);
    FilterDistinct(n => a.HasNode(n), free);
    StealSucceeds(a, j, freeReserved);
    var b := a.Steal(j, freeReserved);
    StolenNodesSuffice(b, j, freeReserved);
    assert |ReservedFor(b, j, freeReserved)| == |b.NodesOf(j)| == |a.NodesOf(j)|;
    ReservationNonEmpty(MinStealAgreement, a, j, 0);
  }

  lemma SameIsResolved(r: Round, j: int)
    ensures ResolvesOne(r, r, j)
  {
  }

  lemma ReducedIsResolved(r: Round, b: Agreements, j: int)
    requires Reduces(r.agreements, b)
    ensures ResolvesOne(r, r.(agreements := b), j)
  {
  }

  lemma ResolveStealKeeps(strategy: Strategy, ctx: Ctx, s0: Sys, r: Round, j: int)
    requires strategy.MinStealAgreement? || strategy.PrefStealAgreement?
    requires RoundOk(strategy, ctx.cfg.loaded, s0, r, -1) && j in r.pending && r.agreements.HasJob(j)
    ensures RoundOk(strategy, ctx.cfg.loaded, s0, ResolveStealOne(ctx, r, j), -1)
    ensures ResolvesOne(r, ResolveStealOne(ctx, r, j), j)
    ensures forall k :: k != j && r.agreements.HasJob(k) ==> ResolveStealOne(ctx, r, j).agreements.HasJob(k)
  {
    var freeReserved, needed := NodesWithAgreement(r.agreements, r.free), |r.agreements.NodesOf(j)|;
    assert TwoWay(r.agreements) && Distinct(r.free) && 0 <= j < |r.sys.jobs|;
    hide RoundOk;
    hide ResolvesOne;
    hide TwoWay;
    hide Agreements.Steal;
    hide Agreements.Remove;
    SameIsResolved(r, j);
    if needed <= |freeReserved| {
      var a := r.agreements.Steal(j, freeReserved);
      var ns, b := ReservedFor(a, j, freeReserved), a.Remove(j);
      StealReduces(r.agreements, r.free, j);
      StealIsNeverShort(r.agreements, r.free, j);
      RemoveReduces(a, j);
      ReducesTransitive(r.agreements, a, b);
      ReducedIsResolved(r, b, j);
      assert needed > 0 && |ns| == needed;
      if |EligibleForPending(ctx, r.sys, j, ns, needed)| == needed {
        ApplyAgreementKeeps(strategy, ctx.cfg.loaded, s0, r, j, ns, b);
      } else {
        ReduceStep(strategy, ctx.cfg.loaded, s0, r, b);
      }
    }
  }

  lemma ResolvePoolKeeps(ctx: Ctx, s0: Sys, r: Round, j: int)
    requires RoundOk(MinCommonPool, ctx.cfg.loaded, s0, r, -1) && j in r.pending && r.agreements.HasJob(j)
    ensures RoundOk(MinCommonPool, ctx.cfg.loaded, s0, ResolvePoolOne(ctx, r, j), -1)
    ensures ResolvesOne(r, ResolvePoolOne(ctx, r, j), j)
    ensures forall k :: k != j && r.agreements.HasJob(k) ==> ResolvePoolOne(ctx, r, j).agreements.HasJob(k)
  {
    var a, needed := r.agreements, |r.agreements.NodesOf(j)|;
    ReservationNonEmpty(MinCommonPool, a, j, |r.sys.jobs|);
    var eligible := EligibleForPending(ctx, r.sys, j, r.free, needed);
    var ns := a.SelectFromPool(j, eligible);
    if needed <= |r.free| && |ns| >= needed {
      SelectionIsSound(a, j, eligible);
      FinalizeKeepsPooled(a, j, ns, |r.sys.jobs|);
      ApplyAgreementKeeps(MinCommonPool, ctx.cfg.loaded, s0, r, j, ns, a.FinalizePool(j, ns));
    }
  }

  lemma ResolveOneKeeps(strategy: Strategy, ctx: Ctx, s0: Sys, r: Round, j: int)
    requires RoundOk(strategy, ctx.cfg.loaded, s0, r, -1) && j in r.pending && r.agreements.HasJob(j)
    ensures RoundOk(strategy, ctx.cfg.loaded, s0, ResolveOne(strategy, ctx, r, j), -1)
    ensures ResolvesOne(r, ResolveOne(strategy, ctx, r, j), j)
    ensures forall k :: k != j && r.agreements.HasJob(k) ==> ResolveOne(strategy, ctx, r, j).agreements.HasJob(k)
  {
    match strategy
    case MinAgreement =>
      ResolveDirectKeeps(ctx, s0, r, j);
      assert ResolveOne(strategy, ctx, r, j) == ResolveDirectOne(ctx, r, j);
    case MinStealAgreement =>
      ResolveStealKeeps(strategy, ctx, s0, r, j);
      assert ResolveOne(strategy, ctx, r, j) == ResolveStealOne(ctx, r, j);
    case PrefStealAgreement =>
      ResolveStealKeeps(strategy, ctx, s0, r, j);
      assert ResolveOne(strategy, ctx, r, j) == ResolveStealOne(ctx, r, j);
    case MinCommonPool =>
      ResolvePoolKeeps(ctx, s0, r, j);
      assert ResolveOne(strategy, ctx, r, j) == ResolvePoolOne(ctx, r, j);
  }

  lemma ResolveOneKeepsOthersPending(strategy: Strategy, ctx: Ctx, r: Round, j: int)
    requires 0 <= j < |r.sys.jobs|
    ensures forall k :: k != j && k in r.pending ==> k in ResolveOne(strategy, ctx, r, j).pending
  {
  }

  lemma {:induction false} ResolveKeeps(strategy: Strategy, ctx: Ctx, s0: Sys, r: Round, targets: seq<int>)
    requires RoundOk(strategy, ctx.cfg.loaded, s0, r, -1)
    requires Distinct(targets) && forall j :: j in targets ==> 0 <= j < |r.sys.jobs| && j in r.pending && r.agreements.HasJob(j)
    ensures RoundOk(strategy, ctx.cfg.loaded, s0, Resolve(strategy, ctx, r, targets), -1)
    decreases |targets|
  {
    hide RoundOk;
    hide ResolveOne;
    hide StopsResolving;
    if targets != [] && !StopsResolving(strategy, r) {
      var j := targets[0];
      assert j in targets && forall k :: k in targets[1..] ==> k in targets && k != j;
      ResolveOneKeeps(strategy, ctx, s0, r, j);
      ResolveOneKeepsOthersPending(strategy, ctx, r, j);
      ResolveKeeps(strategy, ctx, s0, ResolveOne(strategy, ctx, r, j), targets[1..]);
    }
  }

  // ---- Phase 2 -----------------------------------------------------------------------------

  /** The lists name only jobs and nodes without an agreement. */
  ghost predicate Unreserved(r: Round) {
    (forall j :: j in r.pending ==> !r.agreements.HasJob(j)) && (forall n :: n in r.free ==> !r.agreements.HasNode(n))
  }

  /** A job starts on as many of the eligible free nodes as one of its sizes. */
  lemma StartFromFree(strategy: Strategy, loaded: bool, s0: Sys, r: Round, i: nat, eligible: seq<int>, size: int)
    requires RoundOk(strategy, loaded, s0, r, -1) && Unreserved(r) && r.Indexed() && i < |r.pending|
    requires 0 <= r.pending[i] < |r.sys.jobs| && Distinct(eligible) && forall n :: n in eligible ==> n in r.free
    requires 0 <= size <= |eligible| && (size == r.sys.jobs[r.pending[i]].nodesMin || size == strategy.StartSize(r.sys.jobs[r.pending[i]]))
    ensures RoundOk(strategy, loaded, s0, BackfillStart(r, i, eligible[..size]), -1) && Unreserved(BackfillStart(r, i, eligible[..size]))
  {
    var j := r.pending[i];
    assert JobOk(r.sys.jobs[j], |r.sys.nodes|);
    var ns, pending := eligible[..size], r.pending[..i] + r.pending[i + 1..];
    DistinctPrefix(eligible, |ns|);
    WithoutIndex(r.pending, i);
    StartStep(strategy, loaded, s0, r, j, ns, r.agreements, pending);
    RemoveEachDistinct(r.free, ns);
  }

  lemma WithoutIndex(s: seq<int>, i: nat)
    requires Distinct(s) && i < |s|
    ensures Distinct(s[..i] + s[i + 1..]) && forall x :: x in s[..i] + s[i + 1..] ==> x in s && x != s[i]
  {
  }

  lemma EligibleIsFree(ctx: Ctx, s: Sys, j: int, free: seq<int>, planned: int)
    requires 0 <= j < |s.jobs| && Distinct(free) && planned > 0
    ensures Distinct(EligibleForPending(ctx, s, j, free, planned)) && forall n :: n in EligibleForPending(ctx, s, j, free, planned) ==> n in free
  {
  }

  lemma BackfillOneKeeps(strategy: Strategy, ctx: Ctx, s0: Sys, r: Round, i: nat, running: seq<int>)
    requires RoundOk(strategy, ctx.cfg.loaded, s0, r, -1) && Unreserved(r) && r.Indexed() && i < |r.pending|
    requires HavePredictions(r.sys, running)
    ensures RoundOk(strategy, ctx.cfg.loaded, s0, BackfillOne(strategy, ctx, r, i, running), -1)
    ensures Unreserved(BackfillOne(strategy, ctx, r, i, running))
  {
    var j, head := r.pending[i], r.pending[0];
    assert j in r.pending && head in r.pending;
    var v := r.sys.jobs[j];
    assert Distinct(r.free) && HasSizes(v) && HasSizes(r.sys.jobs[head]) by {
      assert JobOk(v, |r.sys.nodes|) && JobOk(r.sys.jobs[head], |r.sys.nodes|);
    }
    hide RoundOk;
    hide Unreserved;
    hide BackfillStart;
    hide EligibleForPending;
    EligibleIsFree(ctx, r.sys, j, r.free, v.nodesMin);
    EligibleIsFree(ctx, r.sys, j, r.free, v.nodesPref);
    var t := BackfillOne(strategy, ctx, r, i, running);
    if t != r {
      if strategy.Prefers() {
        var (size, eligible) := PreferredStart(ctx, r.sys, j, r.free);
        StartFromFree(strategy, ctx.cfg.loaded, s0, r, i, eligible, size);
      } else {
        StartFromFree(strategy, ctx.cfg.loaded, s0, r, i, EligibleForPending(ctx, r.sys, j, r.free, v.nodesMin), v.nodesMin);
      }
    }
  }

  lemma {:induction false} BackfillKeeps(strategy: Strategy, ctx: Ctx, s0: Sys, r: Round, i: nat, running: seq<int>)
    requires RoundOk(strategy, ctx.cfg.loaded, s0, r, -1) && Unreserved(r) && r.Indexed()
    requires HavePredictions(r.sys, running)
    ensures var t := Backfill(strategy, ctx, r, i, running); RoundOk(strategy, ctx.cfg.loaded, s0, t, -1) && Unreserved(t)
    decreases |r.pending| - i
  {
    hide RoundOk;
    hide BackfillOne;
    if i < |r.pending| && r.free != [] {
      BackfillOneKeeps(strategy, ctx, s0, r, i, running);
      BackfillKeeps(strategy, ctx, s0, BackfillOne(strategy, ctx, r, i, running), i + 1, running);
    }
  }

  // ---- Phase 3: which nodes are given up -----------------------------------------------------

  ghost predicate DonationOk(s0: Sys, s: Sys, d: Donation) {
    && 0 <= d.donor < |s.jobs| && d.donor < |s0.jobs| && IsRunningMalleable(s0.jobs[d.donor])
    && Distinct(d.nodes) && (forall n :: n in d.nodes ==> n in s.jobs[d.donor].assignedNodes)
    && s.jobs[d.donor].nodesMin <= |s.jobs[d.donor].assignedNodes| - |d.nodes|
  }

  ghost predicate DonationsOk(s0: Sys, s: Sys, ds: seq<Donation>) {
    && (forall k :: 0 <= k < |ds| ==> DonationOk(s0, s, ds[k]))
    && (forall i, k :: 0 <= i < k < |ds| ==> ds[i].donor != ds[k].donor)
  }

  /** Donors are asked in the order of what they hold beyond the ranking size, most first, and
      expansions are offered in the opposite order; nobody is left out or asked twice. */
  lemma JobsAreRanked(s: Sys, jobs: seq<int>, aim: Aim)
    requires forall j :: j in jobs ==> 0 <= j < |s.jobs|
    ensures var most, least := MostSurplusFirst(s, jobs, aim), LeastSurplusFirst(s, jobs, aim);
      && multiset(most) == multiset(jobs) && multiset(least) == multiset(jobs)
      && (forall i, k :: 0 <= i < k < |most| ==> Beyond(s, most[i], aim) >= Beyond(s, most[k], aim))
      && (forall i, k :: 0 <= i < k < |least| ==> Beyond(s, least[i], aim) <= Beyond(s, least[k], aim))
  {
    StableSortSorts(jobs, j => -Beyond(s, j, aim));
    StableSortSorts(jobs, j => Beyond(s, j, aim));
  }

  /** Jobs that hold equally much beyond the ranking size keep their order in both. */
  lemma TiesKeepTheirOrder(s: Sys, jobs: seq<int>, aim: Aim, surplus: real)
    ensures WithKey(MostSurplusFirst(s, jobs, aim), j => -Beyond(s, j, aim), surplus) == WithKey(jobs, j => -Beyond(s, j, aim), surplus)
    ensures WithKey(LeastSurplusFirst(s, jobs, aim), j => Beyond(s, j, aim), surplus) == WithKey(jobs, j => Beyond(s, j, aim), surplus)
  {
    StableSortIsStable(jobs, j => -Beyond(s, j, aim), surplus);
    StableSortIsStable(jobs, j => Beyond(s, j, aim), surplus);
  }

  /** The unreserved surplus of all donors together. */
  function TotalSurplus(s: Sys, a: Agreements, donors: seq<int>, aim: Aim): nat {
    if donors == [] then 0 else |Surplus(s, a, donors[0], aim)| + TotalSurplus(s, a, donors[1..], aim)
  }

  /** Selection collects exactly the required number of nodes, and gives up only when the donors'
      unreserved surplus is smaller than that. */
  lemma SelectionIsExact(s: Sys, a: Agreements, donors: seq<int>, required: int, aim: Aim)
    requires required > 0
    ensures SelectShrinkJobs(s, a, donors, required, aim) == [] <==> TotalSurplus(s, a, donors, aim) < required
    ensures SelectShrinkJobs(s, a, donors, required, aim) != [] ==> TotalDonated(SelectShrinkJobs(s, a, donors, required, aim)) == required
  {
    CollectionIsExact(s, a, donors, required, aim);
  }

  /** The preferring strategy asks for the preferred size if donors can give it without falling
      below theirs; else for the minimum, from donors that only then fall below their preferred
      size; and for nothing only if even that is too little. */
  lemma PreferenceIsGentle(s: Sys, a: Agreements, donors: seq<int>, v: JobView)
    requires 0 < v.nodesMin <= v.nodesPref
    ensures var ds := SelectForPreference(s, a, donors, v); var gentle, last := TotalSurplus(s, a, donors, ToPref), TotalSurplus(s, a, donors, ToMin);
      && (gentle >= v.nodesPref ==> ds == CollectDonations(s, a, donors, v.nodesPref, ToPref) && TotalDonated(ds) == v.nodesPref)
      && (v.nodesMin <= gentle < v.nodesPref ==> ds == CollectDonations(s, a, donors, v.nodesMin, ToPref) && TotalDonated(ds) == v.nodesMin)
      && (gentle < v.nodesMin <= last ==> ds == CollectDonations(s, a, donors, v.nodesMin, ToMin) && TotalDonated(ds) == v.nodesMin)
      && (gentle < v.nodesMin && last < v.nodesMin ==> ds == [])
  {
    SelectionIsExact(s, a, donors, v.nodesPref, ToPref);
    SelectionIsExact(s, a, donors, v.nodesMin, ToPref);
    SelectionIsExact(s, a, donors, v.nodesMin, ToMin);
  }

  /** A donor that is asked to go down to an aim, and gives something, still holds at least that. */
  ghost predicate KeepsAim(s: Sys, d: Donation, aim: Aim) {
    0 <= d.donor < |s.jobs| && aim.Of(s.jobs[d.donor]) <= |s.jobs[d.donor].assignedNodes| - |d.nodes|
  }

  lemma OneDonorKeepsAim(s: Sys, a: Agreements, j: int, required: int, aim: Aim)
    requires AllocateResourcesFromJob(s, a, j, required, aim) != []
    ensures KeepsAim(s, Donation(j, AllocateResourcesFromJob(s, a, j, required, aim)), aim)
  {
  }

  ghost predicate AllKeepAim(s: Sys, ds: seq<Donation>, aim: Aim) {
    forall k :: 0 <= k < |ds| ==> KeepsAim(s, ds[k], aim)
  }

  lemma PrependKeepsAim(s: Sys, j: int, ns: seq<int>, rest: seq<Donation>, aim: Aim)
    requires AllKeepAim(s, rest, aim) && (ns != [] ==> KeepsAim(s, Donation(j, ns), aim))
    ensures AllKeepAim(s, Prepend(j, ns, rest), aim)
  {
  }

  lemma {:induction false} DonorsKeepAim(s: Sys, a: Agreements, donors: seq<int>, required: int, aim: Aim)
    ensures AllKeepAim(s, CollectDonations(s, a, donors, required, aim), aim)
    decreases |donors|
  {
    hide AllocateResourcesFromJob;
    if donors != [] && required > 0 {
      var ns := AllocateResourcesFromJob(s, a, donors[0], required, aim);
      if ns != [] { OneDonorKeepsAim(s, a, donors[0], required, aim); }
      DonorsKeepAim(s, a, donors[1..], required - |ns|, aim);
      PrependKeepsAim(s, donors[0], ns, CollectDonations(s, a, donors[1..], required - |ns|, aim), aim);
    }
  }

  /** While the donors can give the minimum without falling below their preferred size, none falls
      below it; otherwise every donor keeps its minimum. */
  lemma PreferenceSparesDonors(s: Sys, a: Agreements, donors: seq<int>, v: JobView)
    requires 0 < v.nodesMin <= v.nodesPref
    ensures AllKeepAim(s, SelectForPreference(s, a, donors, v), if TotalSurplus(s, a, donors, ToPref) >= v.nodesMin then ToPref else ToMin)
  {
    PreferenceIsGentle(s, a, donors, v);
    DonorsKeepAim(s, a, donors, v.nodesPref, ToPref);
    DonorsKeepAim(s, a, donors, v.nodesMin, ToPref);
    DonorsKeepAim(s, a, donors, v.nodesMin, ToMin);
  }

  lemma TakesWhatIsNeeded(s: Sys, a: Agreements, j: int, required: int, aim: Aim)
    requires required >= 0
    ensures |AllocateResourcesFromJob(s, a, j, required, aim)| == if |Surplus(s, a, j, aim)| < required then |Surplus(s, a, j, aim)| else required
  {
  }

  lemma OneMoreDonation(d: Donation, rest: seq<Donation>)
    ensures TotalDonated([d] + rest) == |d.nodes| + TotalDonated(rest)
  {
  }

  lemma {:induction false} CollectionIsExact(s: Sys, a: Agreements, donors: seq<int>, required: int, aim: Aim)
    requires required >= 0
    ensures TotalDonated(CollectDonations(s, a, donors, required, aim))
         == if TotalSurplus(s, a, donors, aim) < required then TotalSurplus(s, a, donors, aim) else required
    decreases |donors|
  {
    hide AllocateResourcesFromJob;
    hide Surplus;
    if donors != [] && required > 0 {
      var ns := AllocateResourcesFromJob(s, a, donors[0], required, aim);
      TakesWhatIsNeeded(s, a, donors[0], required, aim);
      CollectionIsExact(s, a, donors[1..], required - |ns|, aim);
      OneMoreDonation(Donation(donors[0], ns), CollectDonations(s, a, donors[1..], required - |ns|, aim));
    }
  }

  lemma DonationIsOk(s0: Sys, s: Sys, a: Agreements, j: int, required: int, aim: Aim)
    requires 0 <= j < |s.jobs| && j < |s0.jobs| && IsRunningMalleable(s0.jobs[j]) && s.jobs[j].nodesMin <= aim.Of(s.jobs[j])
    requires Distinct(s.jobs[j].assignedNodes) && AllocateResourcesFromJob(s, a, j, required, aim) != []
    ensures DonationOk(s0, s, Donation(j, AllocateResourcesFromJob(s, a, j, required, aim)))
  {
    var v, size := s.jobs[j], aim.Of(s.jobs[j]);
    if 0 <= size < |v.assignedNodes| {
      DistinctPrefix(v.assignedNodes, size);
      FilterDistinct(n => !a.HasNode(n), v.assignedNodes[size..]);
      DistinctPrefix(Surplus(s, a, j, aim), |AllocateResourcesFromJob(s, a, j, required, aim)|);
    }
  }

  lemma PrependIsOk(s0: Sys, s: Sys, j: int, ns: seq<int>, rest: seq<Donation>)
    requires ns != [] ==> DonationOk(s0, s, Donation(j, ns))
    requires DonationsOk(s0, s, rest) && forall k :: 0 <= k < |rest| ==> rest[k].donor != j
    ensures DonationsOk(s0, s, Prepend(j, ns, rest))
  {
  }

  lemma HeadAndTail(s: seq<int>)
    requires Distinct(s) && s != []
    ensures s[0] in s && Distinct(s[1..]) && forall x :: x in s[1..] ==> x in s && x != s[0]
  {
  }

  ghost predicate DonorsIn(ds: seq<Donation>, donors: seq<int>) {
    forall k :: 0 <= k < |ds| ==> ds[k].donor in donors
  }

  lemma {:induction false} DonorsAreListed(s: Sys, a: Agreements, donors: seq<int>, required: int, aim: Aim)
    ensures DonorsIn(CollectDonations(s, a, donors, required, aim), donors)
    decreases |donors|
  {
    hide AllocateResourcesFromJob;
    if donors != [] && required > 0 {
      var ns := AllocateResourcesFromJob(s, a, donors[0], required, aim);
      DonorsAreListed(s, a, donors[1..], required - |ns|, aim);
    }
  }

  /** Donors that may give down to the aim. */
  ghost predicate MayGive(s0: Sys, s: Sys, donors: seq<int>, aim: Aim) {
    && Distinct(donors) && (forall j :: j in donors ==> 0 <= j < |s.jobs| && j < |s0.jobs|)
    && forall j :: j in donors ==> IsRunningMalleable(s0.jobs[j]) && Distinct(s.jobs[j].assignedNodes) && s.jobs[j].nodesMin <= aim.Of(s.jobs[j])
  }

  lemma {:induction false} DonationsAreOk(s0: Sys, s: Sys, a: Agreements, donors: seq<int>, required: int, aim: Aim)
    requires MayGive(s0, s, donors, aim)
    ensures DonationsOk(s0, s, CollectDonations(s, a, donors, required, aim))
    decreases |donors|
  {
    hide AllocateResourcesFromJob;
    hide DonationOk;
    if donors != [] && required > 0 {
      var j, tail := donors[0], donors[1..];
      HeadAndTail(donors);
      var ns := AllocateResourcesFromJob(s, a, j, required, aim);
      var rest := CollectDonations(s, a, tail, required - |ns|, aim);
      DonationsAreOk(s0, s, a, tail, required - |ns|, aim);
      DonorsAreListed(s, a, tail, required - |ns|, aim);
      if ns != [] { DonationIsOk(s0, s, a, j, required, aim); }
      PrependIsOk(s0, s, j, ns, rest);
    }
  }

  /** A set of nodes on which the job could run as a whole: each accepts the runtime that is
      predicted for as many nodes as the set has. */
  ghost predicate Supports(ctx: Ctx, s: Sys, j: int, ns: seq<int>)
    requires 0 <= j < |s.jobs|
  {
    forall n :: n in ns ==> |ns| > 0 && Accepts(ctx, s.nodes, n, PlannedRuntime(s.jobs[j], |ns|), false)
  }

  /** The filter loop yields the greatest supporting subset of a donor's nodes: the result
      supports the job, and every supporting subset lies within it. */
  lemma {:induction false} FilterIsGreatest(ctx: Ctx, s: Sys, j: int, ns: seq<int>)
    requires 0 <= j < |s.jobs| && Distinct(ns)
    ensures var r := FilterForReservation(ctx, s, j, ns);
      Distinct(r) && Supports(ctx, s, j, r) && |r| <= |ns| && forall n :: n in r ==> n in ns
    ensures forall zs: seq<int> :: (Distinct(zs) && Supports(ctx, s, j, zs) && (forall n :: n in zs ==> n in ns)
      ==> forall n :: n in zs ==> n in FilterForReservation(ctx, s, j, ns))
    decreases |ns|
  {
    if ns != [] {
      var runtime := PlannedRuntime(s.jobs[j], |ns|);
      var filtered := EligibleForPending(ctx, s, j, ns, |ns|);
      FilterAll(n => Accepts(ctx, s.nodes, n, runtime, false), ns);
      if |filtered| != |ns| {
        FilterIsGreatest(ctx, s, j, filtered);
        forall zs: seq<int> | Distinct(zs) && Supports(ctx, s, j, zs) && (forall n :: n in zs ==> n in ns)
          ensures forall n :: n in zs ==> n in FilterForReservation(ctx, s, j, ns)
        {
          SmallerSupportsSurvive(ctx, s, j, ns, zs);
        }
      }
    }
  }

  /** One turn of the loop keeps every supporting subset. */
  lemma SmallerSupportsSurvive(ctx: Ctx, s: Sys, j: int, ns: seq<int>, zs: seq<int>)
    requires 0 <= j < |s.jobs| && Distinct(ns) && Distinct(zs) && ns != []
    requires Supports(ctx, s, j, zs) && forall n :: n in zs ==> n in ns
    ensures forall n :: n in zs ==> n in EligibleForPending(ctx, s, j, ns, |ns|)
  {
    if zs != [] {
      MembersBoundLength(zs, ns);
      RuntimeAntitoneInNodes(s.jobs[j].profile, |zs|, |ns|);
      forall n | n in zs ensures n in EligibleForPending(ctx, s, j, ns, |ns|) {
        assert Accepts(ctx, s.nodes, n, PlannedRuntime(s.jobs[j], |zs|), false);
        AcceptanceAntitoneInRuntime(ctx.cfg, ctx.policy, s.nodes[n].state, n, PlannedRuntime(s.jobs[j], |ns|),
                                    PlannedRuntime(s.jobs[j], |zs|), ctx.now, false);
      }
    }
  }

  lemma MembersBoundLength(a: seq<int>, b: seq<int>)
    requires Distinct(a) && Distinct(b) && forall n :: n in a ==> n in b
    ensures |a| <= |b|
  {
    DistinctSize(a);
    DistinctSize(b);
    SubsetByMembers(SetOf(a), SetOf(b));
    SubsetSize(SetOf(a), SetOf(b));
  }

  lemma SubsetSize(a: set<int>, b: set<int>)
    requires a <= b
    ensures |a| <= |b|
  {
    assert b == a + (b - a);
  }

  /** Without a shutdown policy the filter drops nothing. */
  lemma NoPolicyKeepsAll(ctx: Ctx, s: Sys, j: int, ns: seq<int>)
    requires !ctx.cfg.loaded && 0 <= j < |s.jobs| && forall n :: n in ns ==> 0 <= n < |s.nodes|
    ensures FilterForReservation(ctx, s, j, ns) == ns
  {
    if ns != [] {
      var runtime := PlannedRuntime(s.jobs[j], |ns|);
      FilterAll(n => Accepts(ctx, s.nodes, n, runtime, false), ns);
    }
  }

  // ---- Phase 3: reserving them ---------------------------------------------------------------

  /** Reserving unreserved nodes for one more job keeps either handler's invariant. */
  lemma AddKeepsMaps(strategy: Strategy, a: Agreements, p: int, ns: seq<int>, jobCount: nat)
    requires Maps(strategy, a, jobCount) && 0 <= p < jobCount && Distinct(ns)
    requires forall n :: n in ns ==> !a.HasNode(n)
    requires forall n :: n in a.NodesOf(p) ==> a.HasNode(n)
    ensures var b := a.Add(p, ns, |ns|);
      && Maps(strategy, b, jobCount) && |b.NodesOf(p)| == |a.NodesOf(p)| + |ns|
      && (forall n :: n in b.nodeToJobId <==> n in a.nodeToJobId || n in ns)
      && (forall n :: n in b.NodesOf(p) ==> b.HasNode(n))
      && (forall x :: x in b.jobToNodeIds ==> x in a.jobToNodeIds || x == p)
      && (forall x :: x != p ==> b.NodesOf(x) == a.NodesOf(x))
  {
    var b := a.Add(p, ns, |ns|);
    assert ns[..|ns|] == ns;
    AddEffect(a, p, ns, |ns|);
    if strategy.MinCommonPool? { AddKeepsPooled(a, p, ns, |ns|, jobCount); } else { AddKeepsTwoWay(a, p, ns, |ns|); }
    SetEqualByMembers(b.NodesOf(p), a.NodesOf(p) + SetOf(ns));
    DistinctSize(ns);
    assert a.NodesOf(p) !! SetOf(ns);
  }

  /** A donor's nodes are not reserved yet. */
  lemma DonatedIsUnreserved(s0: Sys, s: Sys, a: Agreements, d: Donation, n: int)
    requires Evolves(s0, s) && ReservedOut(s, a) && DonationOk(s0, s, d) && n in d.nodes
    ensures !a.HasNode(n)
  {
  }

  /** What is true while reservations for job `p` are put together. */
  ghost predicate Reserving(strategy: Strategy, loaded: bool, s0: Sys, r: Round, p: int) {
    && RoundOk(strategy, loaded, s0, r, p) && 0 <= p < |r.sys.jobs| && r.sys.jobs[p].state.Pending?
    && (forall n :: n in r.agreements.NodesOf(p) ==> r.agreements.HasNode(n))
    && (forall n :: n in r.free ==> !r.agreements.HasNode(n))
  }

  /** Only job `p` may get reservations, and no other one's change. */
  ghost predicate OthersKeep(a: Agreements, b: Agreements, p: int) {
    && (forall x :: x != p && b.HasJob(x) ==> a.HasJob(x))
    && (forall x :: x != p ==> b.NodesOf(x) == a.NodesOf(x))
  }

  /** Part of a donation becomes a reservation. */
  lemma ReserveStep(strategy: Strategy, loaded: bool, s0: Sys, r: Round, j: int, ns: seq<int>, p: int)
    requires Reserving(strategy, loaded, s0, r, p) && DonationOk(s0, r.sys, Donation(j, ns))
    requires |r.agreements.NodesOf(p)| + |ns| <= strategy.StartSize(r.sys.jobs[p])
    ensures var b := r.agreements.Add(p, ns, |ns|); var t := r.(sys := r.sys.ShrinkBy(j, ns), agreements := b);
      && Reserving(strategy, loaded, s0, t, p) && |b.NodesOf(p)| == |r.agreements.NodesOf(p)| + |ns|
      && OthersKeep(r.agreements, b, p)
  {
    hide Maps;
    var b := r.agreements.Add(p, ns, |ns|);
    forall n | n in ns ensures !r.agreements.HasNode(n) { DonatedIsUnreserved(s0, r.sys, r.agreements, Donation(j, ns), n); }
    AddKeepsMaps(strategy, r.agreements, p, ns, |r.sys.jobs|);
    FreeIsNotDonated(s0, r, Donation(j, ns));
    ActiveIsSized(strategy, loaded, s0, r.sys, j);
    assert j != p;
    DonateStep(strategy, loaded, s0, r, j, ns, b, p);
  }

  lemma ApplyDonationKeeps(strategy: Strategy, ctx: Ctx, s0: Sys, r: Round, d: Donation, p: int)
    requires Reserving(strategy, ctx.cfg.loaded, s0, r, p) && DonationOk(s0, r.sys, d)
    requires |r.agreements.NodesOf(p)| + |d.nodes| <= strategy.StartSize(r.sys.jobs[p])
    ensures var t := ApplyDonation(ctx, r, d, p);
      && Reserving(strategy, ctx.cfg.loaded, s0, t, p)
      && |t.agreements.NodesOf(p)| == |r.agreements.NodesOf(p)| + |FilterForReservation(ctx, r.sys, p, d.nodes)|
      && |t.agreements.NodesOf(p)| <= |r.agreements.NodesOf(p)| + |d.nodes|
      && (!ctx.cfg.loaded ==> |t.agreements.NodesOf(p)| == |r.agreements.NodesOf(p)| + |d.nodes|)
      && OthersKeep(r.agreements, t.agreements, p)
  {
    var ns := FilterForReservation(ctx, r.sys, p, d.nodes);
    FilterIsGreatest(ctx, r.sys, p, d.nodes);
    if !ctx.cfg.loaded { NodesInRange(s0, r.sys, d); NoPolicyKeepsAll(ctx, r.sys, p, d.nodes); }
    if ns != [] {
      ReserveStep(strategy, ctx.cfg.loaded, s0, r, d.donor, ns, p);
    }
  }

  lemma NodesInRange(s0: Sys, s: Sys, d: Donation)
    requires Inv(s) && DonationOk(s0, s, d)
    ensures forall n :: n in d.nodes ==> 0 <= n < |s.nodes|
  {
  }

  lemma FreeIsNotDonated(s0: Sys, r: Round, d: Donation)
    requires ListsOk(s0, r) && Evolves(s0, r.sys) && DonationOk(s0, r.sys, d)
    ensures forall n :: n in r.free ==> n !in d.nodes
  {
  }

  lemma OtherDonationsStayOk(ctx: Ctx, s0: Sys, r: Round, ds: seq<Donation>, p: int)
    requires ds != [] && DonationsOk(s0, r.sys, ds) && 0 <= p < |r.sys.jobs|
    ensures DonationsOk(s0, ApplyDonation(ctx, r, ds[0], p).sys, ds[1..])
  {
    var t := ApplyDonation(ctx, r, ds[0], p).sys;
    forall k | 0 <= k < |ds[1..]| ensures DonationOk(s0, t, ds[1..][k]) {
      assert ds[1..][k] == ds[k + 1] && DonationOk(s0, r.sys, ds[k + 1]) && ds[0].donor != ds[k + 1].donor;
    }
  }

  /** Every node of every donation accepts job `p` on as many nodes as its donation has. */
  ghost predicate AllSupport(ctx: Ctx, s: Sys, ds: seq<Donation>, p: int)
    requires 0 <= p < |s.jobs|
  {
    forall k :: 0 <= k < |ds| ==> Supports(ctx, s, p, ds[k].nodes)
  }

  /** The filter drops nothing exactly if the donation supports the job. */
  lemma FilterDropsNothingExactlyIf(ctx: Ctx, s: Sys, j: int, ns: seq<int>)
    requires 0 <= j < |s.jobs|
    ensures FilterForReservation(ctx, s, j, ns) == ns <==> Supports(ctx, s, j, ns)
    ensures |FilterForReservation(ctx, s, j, ns)| == |ns| <==> Supports(ctx, s, j, ns)
  {
    if ns != [] {
      var runtime := PlannedRuntime(s.jobs[j], |ns|);
      FilterAll(n => Accepts(ctx, s.nodes, n, runtime, false), ns);
      var filtered := EligibleForPending(ctx, s, j, ns, |ns|);
      if |filtered| != |ns| { FilterShortens(ctx, s, j, filtered); }
    }
  }

  lemma {:induction false} FilterShortens(ctx: Ctx, s: Sys, j: int, ns: seq<int>)
    requires 0 <= j < |s.jobs|
    ensures |FilterForReservation(ctx, s, j, ns)| <= |ns|
    decreases |ns|
  {
    if ns != [] {
      var filtered := EligibleForPending(ctx, s, j, ns, |ns|);
      if |filtered| != |ns| { FilterShortens(ctx, s, j, filtered); }
    }
  }

  /** A donation changes nothing that the support of the others depends on. */
  lemma DonationKeepsSupport(ctx: Ctx, r: Round, d: Donation, p: int, ns: seq<int>)
    requires 0 <= d.donor < |r.sys.jobs| && 0 <= p < |r.sys.jobs| && d.donor != p
    ensures Supports(ctx, ApplyDonation(ctx, r, d, p).sys, p, ns) <==> Supports(ctx, r.sys, p, ns)
  {
    hide FilterForReservation;
    var s, t := r.sys, ApplyDonation(ctx, r, d, p).sys;
    if ns != [] {
      var runtime := PlannedRuntime(s.jobs[p], |ns|);
      assert t.jobs[p] == s.jobs[p];
      forall n ensures Accepts(ctx, t.nodes, n, runtime, false) <==> Accepts(ctx, s.nodes, n, runtime, false) {
      }
    }
  }

  lemma OthersSupportStill(ctx: Ctx, r: Round, ds: seq<Donation>, p: int)
    requires ds != [] && 0 <= ds[0].donor < |r.sys.jobs| && 0 <= p < |r.sys.jobs| && ds[0].donor != p
    ensures |ApplyDonation(ctx, r, ds[0], p).sys.jobs| == |r.sys.jobs|
    ensures AllSupport(ctx, r.sys, ds, p)
       <==> Supports(ctx, r.sys, p, ds[0].nodes) && AllSupport(ctx, ApplyDonation(ctx, r, ds[0], p).sys, ds[1..], p)
  {
    hide Supports;
    var t := ApplyDonation(ctx, r, ds[0], p).sys;
    forall k | 0 <= k < |ds[1..]| ensures Supports(ctx, t, p, ds[1..][k].nodes) <==> Supports(ctx, r.sys, p, ds[k + 1].nodes) {
      DonationKeepsSupport(ctx, r, ds[0], p, ds[k + 1].nodes);
    }
    hide ApplyDonation;
    if Supports(ctx, r.sys, p, ds[0].nodes) && AllSupport(ctx, t, ds[1..], p) {
      forall k | 0 <= k < |ds| ensures Supports(ctx, r.sys, p, ds[k].nodes) {
        if k > 0 { assert ds[1..][k - 1] == ds[k]; }
      }
    }
  }

  /** Turning donations into reservations: all donated nodes are reserved exactly if every one of
      them accepts the pending job. */
  lemma {:induction false} ApplyShrinkingKeeps(strategy: Strategy, ctx: Ctx, s0: Sys, r: Round, ds: seq<Donation>, p: int)
    requires Reserving(strategy, ctx.cfg.loaded, s0, r, p) && DonationsOk(s0, r.sys, ds)
    requires |r.agreements.NodesOf(p)| + TotalDonated(ds) <= strategy.StartSize(r.sys.jobs[p])
    ensures var t := ApplyShrinking(ctx, r, ds, p);
      && Reserving(strategy, ctx.cfg.loaded, s0, t, p)
      && |t.agreements.NodesOf(p)| <= |r.agreements.NodesOf(p)| + TotalDonated(ds)
      && (|t.agreements.NodesOf(p)| == |r.agreements.NodesOf(p)| + TotalDonated(ds) <==> AllSupport(ctx, r.sys, ds, p))
      && (!ctx.cfg.loaded ==> |t.agreements.NodesOf(p)| == |r.agreements.NodesOf(p)| + TotalDonated(ds))
      && OthersKeep(r.agreements, t.agreements, p)
    decreases |ds|
  {
    if ds != [] {
      ShrinkingStep(strategy, ctx, s0, r, ds, p);
      hide Reserving;
      hide DonationsOk;
      hide AllSupport;
      hide Supports;
      hide ApplyDonation;
      hide OthersKeep;
      var t := ApplyDonation(ctx, r, ds[0], p);
      ApplyShrinkingKeeps(strategy, ctx, s0, t, ds[1..], p);
      OthersKeepTransitive(r.agreements, t.agreements, ApplyShrinking(ctx, t, ds[1..], p).agreements, p);
    }
  }

  lemma OthersKeepTransitive(a: Agreements, b: Agreements, c: Agreements, p: int)
    ensures OthersKeep(a, b, p) && OthersKeep(b, c, p) ==> OthersKeep(a, c, p)
    ensures OthersKeep(a, a, p)
  {
  }

  /** One donation is turned into reservations; the others can be still. */
  lemma ShrinkingStep(strategy: Strategy, ctx: Ctx, s0: Sys, r: Round, ds: seq<Donation>, p: int)
    requires Reserving(strategy, ctx.cfg.loaded, s0, r, p) && DonationsOk(s0, r.sys, ds) && ds != []
    requires |r.agreements.NodesOf(p)| + TotalDonated(ds) <= strategy.StartSize(r.sys.jobs[p])
    ensures 0 <= ds[0].donor < |r.sys.jobs|
    ensures var t := ApplyDonation(ctx, r, ds[0], p);
      && Reserving(strategy, ctx.cfg.loaded, s0, t, p) && DonationsOk(s0, t.sys, ds[1..])
      && strategy.StartSize(t.sys.jobs[p]) == strategy.StartSize(r.sys.jobs[p])
      && |t.agreements.NodesOf(p)| <= |r.agreements.NodesOf(p)| + |ds[0].nodes|
      && (|t.agreements.NodesOf(p)| == |r.agreements.NodesOf(p)| + |ds[0].nodes| <==> Supports(ctx, r.sys, p, ds[0].nodes))
      && (!ctx.cfg.loaded ==> |t.agreements.NodesOf(p)| == |r.agreements.NodesOf(p)| + |ds[0].nodes|)
      && OthersKeep(r.agreements, t.agreements, p)
      && (AllSupport(ctx, r.sys, ds, p) <==> Supports(ctx, r.sys, p, ds[0].nodes) && AllSupport(ctx, t.sys, ds[1..], p))
  {
    ApplyDonationKeeps(strategy, ctx, s0, r, ds[0], p);
    OtherDonationsStayOk(ctx, s0, r, ds, p);
    DonorIsNotPending(strategy, ctx.cfg.loaded, s0, r, ds[0], p);
    hide Supports;
    hide AllSupport;
    hide FilterForReservation;
    hide DonationsOk;
    OthersSupportStill(ctx, r, ds, p);
    FilterDropsNothingExactlyIf(ctx, r.sys, p, ds[0].nodes);
    var t := ApplyDonation(ctx, r, ds[0], p);
    assert strategy.StartSize(t.sys.jobs[p]) == strategy.StartSize(r.sys.jobs[p]) by {
      assert JobEvolves(s0, s0.jobs[p], r.sys.jobs[p]) && JobEvolves(s0, s0.jobs[p], t.sys.jobs[p]);
    }
  }

  lemma DonorIsNotPending(strategy: Strategy, loaded: bool, s0: Sys, r: Round, d: Donation, p: int)
    requires Reserving(strategy, loaded, s0, r, p) && DonationOk(s0, r.sys, d)
    ensures d.donor != p
  {
    ActiveIsSized(strategy, loaded, s0, r.sys, d.donor);
  }

  /** The donors of a round: distinct malleable jobs that ran when it began. */
  ghost predicate Donors(s0: Sys, donors: seq<int>) {
    Distinct(donors) && forall j :: j in donors ==> 0 <= j < |s0.jobs| && IsRunningMalleable(s0.jobs[j])
  }

  lemma DonorsMayGive(strategy: Strategy, loaded: bool, s0: Sys, r: Round, donors: seq<int>, aim: Aim)
    requires RoundOk(strategy, loaded, s0, r, -1) && Donors(s0, donors)
    ensures MayGive(s0, r.sys, donors, aim)
  {
  }

  lemma SelectionIsOk(s0: Sys, s: Sys, a: Agreements, donors: seq<int>, required: int, aim: Aim)
    requires MayGive(s0, s, donors, aim) && required > 0
    ensures var ds := SelectShrinkJobs(s, a, donors, required, aim);
      DonationsOk(s0, s, ds) && (ds != [] ==> TotalDonated(ds) == required)
  {
    hide MayGive;
    hide CollectDonations;
    DonationsAreOk(s0, s, a, donors, required, aim);
    SelectionIsExact(s, a, donors, required, aim);
  }

  /** What is selected can be given, and makes up one of the sizes of a start. */
  lemma SelectedAreOk(strategy: Strategy, loaded: bool, s0: Sys, r: Round, donors: seq<int>, v: JobView)
    requires RoundOk(strategy, loaded, s0, r, -1) && Donors(s0, donors) && 0 < v.nodesMin <= v.nodesPref
    ensures var ds := SelectDonations(strategy, r.sys, r.agreements, donors, v);
      DonationsOk(s0, r.sys, ds) && (ds != [] ==> TotalDonated(ds) == v.nodesMin || TotalDonated(ds) == strategy.StartSize(v))
  {
    DonorsMayGive(strategy, loaded, s0, r, donors, ToMin);
    DonorsMayGive(strategy, loaded, s0, r, donors, ToPref);
    hide RoundOk;
    hide MayGive;
    hide SelectShrinkJobs;
    hide DonationsOk;
    SelectionIsOk(s0, r.sys, r.agreements, donors, v.nodesMin, ToMin);
    SelectionIsOk(s0, r.sys, r.agreements, donors, v.nodesMin, ToPref);
    SelectionIsOk(s0, r.sys, r.agreements, donors, v.nodesPref, ToPref);
  }

  /** A pending job's reservations: none, or as many as one of the sizes of a start. */
  lemma ShrinkForOneKeeps(strategy: Strategy, ctx: Ctx, s0: Sys, r: Round, p: int, sorted: seq<int>, malleable: seq<int>)
    requires RoundOk(strategy, ctx.cfg.loaded, s0, r, -1) && (forall n :: n in r.free ==> !r.agreements.HasNode(n)) && p in r.pending
    requires 0 <= p < |r.sys.jobs| && !r.agreements.HasJob(p) && Donors(s0, sorted) && Donors(s0, malleable)
    requires (forall j :: j in sorted ==> 0 <= j < |r.sys.jobs|) && (forall j :: j in malleable ==> 0 <= j < |r.sys.jobs|)
    ensures var t := ShrinkForOne(strategy, ctx, r, p, sorted, malleable);
      && RoundOk(strategy, ctx.cfg.loaded, s0, t, -1) && t.pending == r.pending && t.started == r.started
      && (forall n :: n in t.free ==> !t.agreements.HasNode(n))
      && ReservesFor(ctx, r, t, SelectDonations(strategy, r.sys, r.agreements, DonorOrder(strategy, r.sys, sorted, malleable), r.sys.jobs[p]), p)
  {
    var donors, v := DonorOrder(strategy, r.sys, sorted, malleable), r.sys.jobs[p];
    assert 0 < v.nodesMin <= v.nodesPref by { assert JobOk(v, |r.sys.nodes|); }
    hide RoundOk;
    hide SelectDonations;
    hide ApplyShrinking;
    SelectedAreOk(strategy, ctx.cfg.loaded, s0, r, donors, v);
    var ds := SelectDonations(strategy, r.sys, r.agreements, donors, v);
    ReserveAll(strategy, ctx, s0, r, ds, p);
    ApplyShrinkingKeepsLists(ctx, r, ds, p);
  }

  lemma ReservingBegins(strategy: Strategy, loaded: bool, s0: Sys, r: Round, p: int)
    requires RoundOk(strategy, loaded, s0, r, -1) && (forall n :: n in r.free ==> !r.agreements.HasNode(n)) && p in r.pending
    requires 0 <= p < |r.sys.jobs| && !r.agreements.HasJob(p)
    ensures Reserving(strategy, loaded, s0, r, p) && r.agreements.NodesOf(p) == {}
    ensures r.sys.jobs[p].nodesMin <= strategy.StartSize(r.sys.jobs[p])
  {
  }

  lemma ReservingEnds(strategy: Strategy, loaded: bool, s0: Sys, r: Round, t: Round, p: int)
    requires Reserving(strategy, loaded, s0, r, p) && Reserving(strategy, loaded, s0, t, p)
    ensures t.sys.jobs[p].nodesMin == r.sys.jobs[p].nodesMin && strategy.StartSize(t.sys.jobs[p]) == strategy.StartSize(r.sys.jobs[p])
    ensures RightSize(strategy, loaded, t.sys.jobs[p], |t.agreements.NodesOf(p)|) ==> RoundOk(strategy, loaded, s0, t, -1)
  {
  }

  /** The selected donations become reservations of job `p`, all of them exactly if no donated
      node refuses the job. */
  ghost predicate ReservesFor(ctx: Ctx, r: Round, t: Round, ds: seq<Donation>, p: int)
    requires 0 <= p < |r.sys.jobs|
  {
    && OthersKeep(r.agreements, t.agreements, p)
    && (ds == [] ==> t.agreements == r.agreements)
    && (ds != [] ==> |t.agreements.NodesOf(p)| <= TotalDonated(ds)
                     && (|t.agreements.NodesOf(p)| == TotalDonated(ds) <==> AllSupport(ctx, r.sys, ds, p)))
  }

  lemma ReserveAll(strategy: Strategy, ctx: Ctx, s0: Sys, r: Round, ds: seq<Donation>, p: int)
    requires RoundOk(strategy, ctx.cfg.loaded, s0, r, -1) && (forall n :: n in r.free ==> !r.agreements.HasNode(n)) && p in r.pending
    requires 0 <= p < |r.sys.jobs| && !r.agreements.HasJob(p) && DonationsOk(s0, r.sys, ds)
    requires ds != [] ==> TotalDonated(ds) == r.sys.jobs[p].nodesMin || TotalDonated(ds) == strategy.StartSize(r.sys.jobs[p])
    ensures var t := ApplyShrinking(ctx, r, ds, p);
      && RoundOk(strategy, ctx.cfg.loaded, s0, t, -1)
      && (forall n :: n in t.free ==> !t.agreements.HasNode(n))
      && ReservesFor(ctx, r, t, ds, p)
  {
    if ds == [] {
      assert ApplyShrinking(ctx, r, ds, p) == r;
    } else {
      ReservingBegins(strategy, ctx.cfg.loaded, s0, r, p);
      ApplyShrinkingKeeps(strategy, ctx, s0, r, ds, p);
      hide RoundOk;
      hide ApplyShrinking;
      hide DonationsOk;
      hide AllSupport;
      var t := ApplyShrinking(ctx, r, ds, p);
      ReservingEnds(strategy, ctx.cfg.loaded, s0, r, t, p);
    }
  }

  lemma {:induction false} ShrinkForPendingKeeps(strategy: Strategy, ctx: Ctx, s0: Sys, r: Round, waiting: seq<int>, sorted: seq<int>, malleable: seq<int>)
    requires RoundOk(strategy, ctx.cfg.loaded, s0, r, -1) && (forall n :: n in r.free ==> !r.agreements.HasNode(n))
    requires Distinct(waiting) && forall j :: j in waiting ==> 0 <= j < |r.sys.jobs| && j in r.pending && !r.agreements.HasJob(j)
    requires Donors(s0, sorted) && Donors(s0, malleable)
    requires (forall j :: j in sorted ==> 0 <= j < |r.sys.jobs|) && (forall j :: j in malleable ==> 0 <= j < |r.sys.jobs|)
    ensures var t := ShrinkForPending(strategy, ctx, r, waiting, sorted, malleable);
      RoundOk(strategy, ctx.cfg.loaded, s0, t, -1) && (forall n :: n in t.free ==> !t.agreements.HasNode(n))
    decreases |waiting|
  {
    hide RoundOk;
    hide ShrinkForOne;
    if waiting != [] {
      var j, tail := waiting[0], waiting[1..];
      HeadAndTail(waiting);
      ShrinkForOneKeeps(strategy, ctx, s0, r, j, sorted, malleable);
      var t := ShrinkForOne(strategy, ctx, r, j, sorted, malleable);
      ShrinkForPendingKeeps(strategy, ctx, s0, t, tail, sorted, malleable);
    }
  }

  lemma {:induction false} ApplyShrinkingKeepsLists(ctx: Ctx, r: Round, ds: seq<Donation>, p: int)
    requires 0 <= p < |r.sys.jobs| && forall k :: 0 <= k < |ds| ==> 0 <= ds[k].donor < |r.sys.jobs|
    ensures var t := ApplyShrinking(ctx, r, ds, p); t.pending == r.pending && t.free == r.free && t.started == r.started
    decreases |ds|
  {
    if ds != [] {
      ApplyShrinkingKeepsLists(ctx, ApplyDonation(ctx, r, ds[0], p), ds[1..], p);
    }
  }

  // ---- Phase 4 -----------------------------------------------------------------------------

  lemma {:induction false} ExpansionFits(ctx: Ctx, s: Sys, j: int, free: seq<int>, candidate: int)
    requires 0 <= j < |s.jobs| && Distinct(free) && s.jobs[j].prediction.Prediction?
    ensures var r := ExpansionFor(ctx, s, j, free, candidate);
      Distinct(r) && (forall n :: n in r ==> n in free) && (r != [] ==> |s.jobs[j].assignedNodes| + |r| <= candidate)
    decreases candidate
  {
    var extra := candidate - |s.jobs[j].assignedNodes|;
    if extra > 0 {
      var eligible := EligibleForRunning(ctx, s, j, free, candidate);
      if |eligible| < extra { ExpansionFits(ctx, s, j, free, candidate - 1); } else { DistinctPrefix(eligible, extra); }
    }
  }

  /** The expansion is the largest that is possible: every node accepts the job at its new size,
      and for every larger size up to the target too few nodes do. */
  lemma {:induction false} ExpansionIsLargest(ctx: Ctx, s: Sys, j: int, free: seq<int>, candidate: int)
    requires 0 <= j < |s.jobs| && s.jobs[j].prediction.Prediction?
    ensures var r, current := ExpansionFor(ctx, s, j, free, candidate), |s.jobs[j].assignedNodes|;
      && (forall n :: n in r ==> current + |r| > 0 && Accepts(ctx, s.nodes, n, PlannedRemainingRuntime(ctx, s.jobs[j], current + |r|), true))
      && (forall size :: current + |r| < size <= candidate ==> |EligibleForRunning(ctx, s, j, free, size)| < size - current)
    decreases candidate
  {
    hide Accepts;
    hide PlannedRemainingRuntime;
    var extra := candidate - |s.jobs[j].assignedNodes|;
    if extra > 0 {
      if |EligibleForRunning(ctx, s, j, free, candidate)| < extra {
        ExpansionIsLargest(ctx, s, j, free, candidate - 1);
        assert ExpansionFor(ctx, s, j, free, candidate) == ExpansionFor(ctx, s, j, free, candidate - 1);
        var current := |s.jobs[j].assignedNodes|;
        forall size | current + |ExpansionFor(ctx, s, j, free, candidate)| < size <= candidate
          ensures |EligibleForRunning(ctx, s, j, free, size)| < size - current
        {
          if size < candidate { assert size <= candidate - 1; }
        }
      } else {
        var r := ExpansionFor(ctx, s, j, free, candidate);
        assert |s.jobs[j].assignedNodes| + |r| == candidate;
        forall n | n in r ensures Accepts(ctx, s.nodes, n, PlannedRemainingRuntime(ctx, s.jobs[j], candidate), true) {
          assert n in EligibleForRunning(ctx, s, j, free, candidate);
        }
      }
    }
  }

  /** Capping the target by the free nodes changes nothing. */
  lemma {:induction false} CapIsHarmless(ctx: Ctx, s: Sys, j: int, free: seq<int>, target: int)
    requires 0 <= j < |s.jobs| && s.jobs[j].prediction.Prediction? && target >= |s.jobs[j].assignedNodes| + |free|
    ensures ExpansionFor(ctx, s, j, free, target) == ExpansionFor(ctx, s, j, free, |s.jobs[j].assignedNodes| + |free|)
    decreases target
  {
    if target > |s.jobs[j].assignedNodes| + |free| {
      assert |EligibleForRunning(ctx, s, j, free, target)| <= |free|;
      CapIsHarmless(ctx, s, j, free, target - 1);
    }
  }

  lemma ExpandJobKeeps(strategy: Strategy, ctx: Ctx, s0: Sys, r: Round, j: int, aim: Aim)
    requires RoundOk(strategy, ctx.cfg.loaded, s0, r, -1) && (forall n :: n in r.free ==> !r.agreements.HasNode(n))
    requires 0 <= j < |s0.jobs| && j < |r.sys.jobs| && IsRunningMalleable(s0.jobs[j])
    ensures var t := ExpandJob(strategy, ctx, r, j, aim);
      RoundOk(strategy, ctx.cfg.loaded, s0, t, -1) && (forall n :: n in t.free ==> !t.agreements.HasNode(n)) && t.agreements == r.agreements
  {
    var target := ExpansionTarget(strategy, r, j, aim);
    assert target <= r.sys.jobs[j].nodesMax by { assert JobOk(r.sys.jobs[j], |r.sys.nodes|); }
    ActiveIsSized(strategy, ctx.cfg.loaded, s0, r.sys, j);
    hide ExpansionFor;
    hide Grow;
    hide ExpansionTarget;
    ExpansionFits(ctx, r.sys, j, r.free, target);
    GrowKeeps(strategy, ctx.cfg.loaded, s0, r, j, ExpansionFor(ctx, r.sys, j, r.free, target));
  }

  lemma GrowKeeps(strategy: Strategy, loaded: bool, s0: Sys, r: Round, j: int, added: seq<int>)
    requires RoundOk(strategy, loaded, s0, r, -1) && (forall n :: n in r.free ==> !r.agreements.HasNode(n))
    requires 0 <= j < |s0.jobs| && j < |r.sys.jobs| && IsRunningMalleable(s0.jobs[j])
    requires Distinct(added) && (forall n :: n in added ==> n in r.free)
    requires added != [] ==> |r.sys.jobs[j].assignedNodes| + |added| <= r.sys.jobs[j].nodesMax
    ensures var t := Grow(r, j, added);
      RoundOk(strategy, loaded, s0, t, -1) && (forall n :: n in t.free ==> !r.agreements.HasNode(n))
  {
    if added != [] {
      ExpandStep(strategy, loaded, s0, r, j, added);
      RemoveEachDistinct(r.free, added);
    }
  }

  lemma {:induction false} ExpandJobsKeeps(strategy: Strategy, ctx: Ctx, s0: Sys, r: Round, jobs: seq<int>, aim: Aim)
    requires RoundOk(strategy, ctx.cfg.loaded, s0, r, -1) && (forall n :: n in r.free ==> !r.agreements.HasNode(n))
    requires Donors(s0, jobs) && forall j :: j in jobs ==> 0 <= j < |r.sys.jobs|
    ensures var t := ExpandJobs(strategy, ctx, r, jobs, aim);
      RoundOk(strategy, ctx.cfg.loaded, s0, t, -1) && forall n :: n in t.free ==> !t.agreements.HasNode(n)
    decreases |jobs|
  {
    hide RoundOk;
    hide ExpandJob;
    if jobs != [] && r.free != [] {
      HeadAndTail(jobs);
      ExpandJobKeeps(strategy, ctx, s0, r, jobs[0], aim);
      ExpandJobsKeeps(strategy, ctx, s0, ExpandJob(strategy, ctx, r, jobs[0], aim), jobs[1..], aim);
    }
  }

  lemma ExpandToKeeps(strategy: Strategy, ctx: Ctx, s0: Sys, r: Round, malleable: seq<int>, aim: Aim)
    requires RoundOk(strategy, ctx.cfg.loaded, s0, r, -1) && (forall n :: n in r.free ==> !r.agreements.HasNode(n))
    requires Donors(s0, malleable) && forall j :: j in malleable ==> 0 <= j < |r.sys.jobs|
    ensures var t := ExpandTo(strategy, ctx, r, malleable, aim);
      RoundOk(strategy, ctx.cfg.loaded, s0, t, -1) && forall n :: n in t.free ==> !t.agreements.HasNode(n)
  {
    hide RoundOk;
    hide ExpandJobs;
    ExpandJobsKeeps(strategy, ctx, s0, r, LeastSurplusFirst(r.sys, malleable, strategy.RankedBy()), aim);
  }

  // ---- The whole round -----------------------------------------------------------------------

  lemma RoundBeginsOk(strategy: Strategy, loaded: bool, s: Sys, a: Agreements)
    requires Settled(strategy, loaded, s, a)
    ensures RoundOk(strategy, loaded, s, BeginRound(s, a), -1)
  {
    forall n | n in FreeNodes(s.nodes) ensures Available(s, n) {
      FreeIsUnclaimed(s, n);
    }
    forall j | 0 <= j < |s.jobs| ensures JobEvolves(s, s.jobs[j], s.jobs[j]) {
    }
  }

  lemma ResolvePhaseKeeps(strategy: Strategy, ctx: Ctx, s0: Sys, r: Round)
    requires RoundOk(strategy, ctx.cfg.loaded, s0, r, -1) && r.Indexed()
    ensures var t := WithoutAgreements(ResolvePhase(strategy, ctx, r)); RoundOk(strategy, ctx.cfg.loaded, s0, t, -1) && Unreserved(t)
  {
    hide Resolve;
    var targets := WithAgreement(r.agreements, r.pending);
    FilterDistinct(j => r.agreements.HasJob(j), r.pending);
    ResolveKeeps(strategy, ctx, s0, r, targets);
    var t := Resolve(strategy, ctx, r, targets);
    FilterDistinct(j => !t.agreements.HasJob(j), t.pending);
    FilterDistinct(n => !t.agreements.HasNode(n), t.free);
    NarrowStep(strategy, ctx.cfg.loaded, s0, t, JobsWithoutAgreement(t.agreements, t.pending), NodesWithoutAgreement(t.agreements, t.free));
  }

  ghost predicate RanAtStart(s0: Sys, running: seq<int>) {
    forall j :: j in running ==> 0 <= j < |s0.jobs| && s0.jobs[j].state.Running?
  }

  /** Throughout a round, the remaining runtime of every job that ran when it began can be predicted. */
  lemma RunningHavePredictions(s0: Sys, s: Sys, running: seq<int>)
    requires Inv(s) && Evolves(s0, s) && RanAtStart(s0, running)
    ensures HavePredictions(s, running)
  {
    forall k | k in running ensures 0 <= k < |s.jobs| && s.jobs[k].prediction.Prediction? {
      assert JobEvolves(s0, s0.jobs[k], s.jobs[k]) && JobOk(s.jobs[k], |s.nodes|);
    }
  }

  lemma RoundHasPredictions(strategy: Strategy, loaded: bool, s0: Sys, r: Round, running: seq<int>)
    requires RoundOk(strategy, loaded, s0, r, -1) && RanAtStart(s0, running)
    ensures HavePredictions(r.sys, running)
  {
    RunningHavePredictions(s0, r.sys, running);
  }

  lemma AllocatePhaseKeeps(strategy: Strategy, ctx: Ctx, s0: Sys, r: Round, running: seq<int>)
    requires RoundOk(strategy, ctx.cfg.loaded, s0, r, -1) && Unreserved(r) && r.Indexed()
    requires (forall j :: j in running ==> 0 <= j < |r.sys.jobs|) && RanAtStart(s0, running)
    ensures RoundOk(strategy, ctx.cfg.loaded, s0, AllocatePhase(strategy, ctx, r, running), -1) && Unreserved(AllocatePhase(strategy, ctx, r, running))
  {
    hide RoundOk;
    hide Backfill;
    RoundHasPredictions(strategy, ctx.cfg.loaded, s0, r, running);
    BackfillKeeps(strategy, ctx, s0, r, 0, running);
  }

  lemma ShrinkPhaseKeeps(strategy: Strategy, ctx: Ctx, s0: Sys, r: Round, malleable: seq<int>)
    requires RoundOk(strategy, ctx.cfg.loaded, s0, r, -1) && Unreserved(r) && r.Indexed()
    requires Donors(s0, malleable) && forall j :: j in malleable ==> 0 <= j < |r.sys.jobs|
    ensures var t := ShrinkPhase(strategy, ctx, r, malleable);
      RoundOk(strategy, ctx.cfg.loaded, s0, t, -1) && (forall n :: n in t.free ==> !t.agreements.HasNode(n))
  {
    hide ShrinkForPending;
    ShrinkForPendingKeeps(strategy, ctx, s0, r, r.pending, MostSurplusFirst(r.sys, malleable, strategy.RankedBy()), malleable);
  }

  lemma ExpandPhaseKeeps(strategy: Strategy, ctx: Ctx, s0: Sys, r: Round, malleable: seq<int>)
    requires RoundOk(strategy, ctx.cfg.loaded, s0, r, -1) && (forall n :: n in r.free ==> !r.agreements.HasNode(n))
    requires Donors(s0, malleable) && forall j :: j in malleable ==> 0 <= j < |r.sys.jobs|
    ensures RoundOk(strategy, ctx.cfg.loaded, s0, ExpandPhase(strategy, ctx, r, malleable), -1)
  {
    hide RoundOk;
    hide ExpandTo;
    var t := if strategy.Prefers() then ExpandTo(strategy, ctx, r, malleable, ToPref) else r;
    ExpandToKeeps(strategy, ctx, s0, r, malleable, ToPref);
    ExpandToKeeps(strategy, ctx, s0, t, malleable, ToMax);
  }

  lemma LaterPhasesKeep(strategy: Strategy, ctx: Ctx, s0: Sys, r: Round, running: seq<int>, malleable: seq<int>)
    requires RoundOk(strategy, ctx.cfg.loaded, s0, r, -1) && Unreserved(r) && r.Indexed()
    requires (forall j :: j in running ==> 0 <= j < |r.sys.jobs|) && (forall j :: j in malleable ==> 0 <= j < |r.sys.jobs|)
    requires RanAtStart(s0, running) && Donors(s0, malleable)
    ensures RoundOk(strategy, ctx.cfg.loaded, s0, ExpandPhase(strategy, ctx, ShrinkPhase(strategy, ctx, AllocatePhase(strategy, ctx, r, running), malleable), malleable), -1)
  {
    hide RoundOk;
    hide AllocatePhase;
    hide ShrinkPhase;
    hide ExpandPhase;
    AllocatePhaseKeeps(strategy, ctx, s0, r, running);
    ShrinkPhaseKeeps(strategy, ctx, s0, AllocatePhase(strategy, ctx, r, running), malleable);
    ExpandPhaseKeeps(strategy, ctx, s0, ShrinkPhase(strategy, ctx, AllocatePhase(strategy, ctx, r, running), malleable), malleable);
  }

  /** The main result: from any settled state, a round of any of the four strategies keeps the
      cluster invariant (assigned lists duplicate-free and pairwise disjoint), the handler's own
      invariant, reserved nodes outside every assigned list, only pending jobs holding
      reservations, and every job within its limits. */
  lemma RoundIsSafe(strategy: Strategy, ctx: Ctx, s: Sys, a: Agreements)
    requires Settled(strategy, ctx.cfg.loaded, s, a)
    ensures RoundOk(strategy, ctx.cfg.loaded, s, ScheduleRound(strategy, ctx, s, a), -1)
  {
    hide RoundOk;
    hide Settled;
    hide AllocatePhase;
    hide ShrinkPhase;
    hide ExpandPhase;
    hide ResolvePhase;
    hide WithoutAgreements;
    RoundBeginsOk(strategy, ctx.cfg.loaded, s, a);
    ResolvePhaseKeeps(strategy, ctx, s, BeginRound(s, a));
    LaterPhasesKeep(strategy, ctx, s, WithoutAgreements(ResolvePhase(strategy, ctx, BeginRound(s, a))),
                    SoonestEndFirst(ctx, s), RunningMalleable(s.jobs));
  }

  ghost predicate WentToStarted(t: Round, n: int) {
    exists j :: j in t.started && 0 <= j < |t.sys.jobs| && n in t.sys.jobs[j].assignedNodes
  }

  ghost predicate WentToRunning(s0: Sys, t: Round, n: int) {
    exists j :: 0 <= j < |s0.jobs| && j < |t.sys.jobs| && IsRunningMalleable(s0.jobs[j])
      && n in t.sys.jobs[j].assignedNodes && n !in s0.jobs[j].assignedNodes
  }

  /** Every node that was free when the round began went to exactly one of: a started job, an
      expanded job, or nobody, and then it is still free. */
  lemma EveryFreeNodeIsAccountedFor(strategy: Strategy, ctx: Ctx, s: Sys, a: Agreements, n: int)
    requires Settled(strategy, ctx.cfg.loaded, s, a) && InitiallyFree(s, n)
    ensures var t := ScheduleRound(strategy, ctx, s, a);
      && (WentToStarted(t, n) || WentToRunning(s, t, n) || Available(t.sys, n))
      && !(WentToStarted(t, n) && WentToRunning(s, t, n))
      && !(WentToStarted(t, n) && Available(t.sys, n)) && !(WentToRunning(s, t, n) && Available(t.sys, n))
  {
    hide ScheduleRound;
    RoundIsSafe(strategy, ctx, s, a);
    FreeNodeWentSomewhere(strategy, ctx.cfg.loaded, s, ScheduleRound(strategy, ctx, s, a), n);
    FreeNodeWentOnce(s, ScheduleRound(strategy, ctx, s, a), n);
  }

  lemma FreeNodeWentSomewhere(strategy: Strategy, loaded: bool, s: Sys, t: Round, n: int)
    requires Inv(s) && NoStarts(s) && RoundOk(strategy, loaded, s, t, -1) && InitiallyFree(s, n)
    ensures WentToStarted(t, n) || WentToRunning(s, t, n) || Available(t.sys, n)
  {
  }

  lemma FreeNodeWentOnce(s: Sys, t: Round, n: int)
    requires Exclusive(t.sys.jobs) && Evolves(s, t.sys) && ListsOk(s, t)
    ensures !(WentToStarted(t, n) && WentToRunning(s, t, n))
    ensures !(WentToStarted(t, n) && Available(t.sys, n)) && !(WentToRunning(s, t, n) && Available(t.sys, n))
  {
    if WentToStarted(t, n) {
      var j :| j in t.started && 0 <= j < |t.sys.jobs| && n in t.sys.jobs[j].assignedNodes;
      assert t.sys.jobs[j].Holds(n);
    }
    if WentToRunning(s, t, n) {
      var k :| 0 <= k < |s.jobs| && IsRunningMalleable(s.jobs[k]) && n in t.sys.jobs[k].assignedNodes && n !in s.jobs[k].assignedNodes;
      assert JobEvolves(s, s.jobs[k], t.sys.jobs[k]);
      assert t.sys.jobs[k].Holds(n) && t.sys.jobs[k].Active();
    }
  }

  /** Who gives and who receives: a malleable job that lost nodes keeps at least its minimum, one
      that won nodes stays at or below its maximum, nobody else's allocation changes, and without
      a shutdown policy every started job gets exactly one of the sizes of its strategy: the
      minimum, or for the preferring strategy the minimum or the preferred size. */
  lemma RoundRespectsLimits(strategy: Strategy, ctx: Ctx, s: Sys, a: Agreements, j: int)
    requires Settled(strategy, ctx.cfg.loaded, s, a) && 0 <= j < |s.jobs|
    ensures var t := ScheduleRound(strategy, ctx, s, a); var before, after := s.jobs[j], t.sys.jobs[j];
      && (|after.assignedNodes| < |before.assignedNodes| ==> IsRunningMalleable(before) && after.nodesMin <= |after.assignedNodes|)
      && (|after.assignedNodes| > |before.assignedNodes| ==> |after.assignedNodes| <= after.nodesMax)
      && (after.assignedNodes != before.assignedNodes ==> before.state.Pending? || IsRunningMalleable(before))
      && (j in t.started ==> before.state.Pending? && 0 < |after.assignedNodes| <= strategy.StartSize(after))
      && (j in t.started && !ctx.cfg.loaded ==> |after.assignedNodes| == after.nodesMin || |after.assignedNodes| == strategy.StartSize(after))
  {
    hide ScheduleRound;
    RoundIsSafe(strategy, ctx, s, a);
    var t := ScheduleRound(strategy, ctx, s, a);
    assert JobEvolves(s, s.jobs[j], t.sys.jobs[j]);
    assert JobOk(s.jobs[j], |s.nodes|) && JobOk(t.sys.jobs[j], |s.nodes|);
    assert JobSized(strategy, ctx.cfg.loaded, t.sys.jobs[j]);
  }

  /** A round never ends the simulation: no runtime is asked for on no node, and no remaining
      runtime of a job without a prediction. */
  lemma PlanningNeverFails(strategy: Strategy, ctx: Ctx, s: Sys, a: Agreements, j: int)
    requires Settled(strategy, ctx.cfg.loaded, s, a) && 0 <= j < |s.jobs|
    ensures !ScheduleRound(strategy, ctx, s, a).sys.jobs[j].died
  {
    hide ScheduleRound;
    RoundIsSafe(strategy, ctx, s, a);
    assert JobOk(ScheduleRound(strategy, ctx, s, a).sys.jobs[j], |s.nodes|);
  }

  /** That is because reservations are never empty: one that is ends the simulation. */
  lemma EmptyReservationsFail(strategy: Strategy, ctx: Ctx, r: Round, j: int)
    requires 0 <= j < |r.sys.jobs| && r.agreements.NodesOf(j) == {}
    ensures ResolveOne(strategy, ctx, r, j).sys.jobs[j].died
  {
    FilterNone(n => n in r.agreements.NodesOf(j), r.free);
  }
}
