/** What shrinking for a pending job must do: which jobs are asked for nodes, in which order, for
    how many, and where the nodes go. Who holds most beyond the ranking size is asked first, and
    nobody is asked before all who come first gave everything they may give. */
module DonorProgress {
  import opened Sequences
  import opened RuntimePrediction
  import opened ClusterState
  import opened ClusterInvariant
  import opened ShutdownPolicy
  import opened AgreementMaps
  import opened SchedulingRound
  import opened RoundInvariant
  import opened RoundProperties
  import opened Scheduler
  import opened Runs
  import opened ReservationHistory
  import opened ReservedStarts
  import opened ResolvingProgress
  import opened BackfillProgress

  // ---- The order -------------------------------------------------------------------------------

  /** What a job holds beyond the size by which the strategy ranks. */
  ghost function Excess(strategy: Strategy, s: Sys, j: int): int {
    if 0 <= j < |s.jobs| then |s.jobs[j].assignedNodes| - (if strategy.PrefStealAgreement? then s.jobs[j].nodesPref else s.jobs[j].nodesMin) else 0
  }

  /** More excess first; with equal excess, the order of the queue. */
  ghost predicate AskedBefore(strategy: Strategy, s: Sys, a: int, b: int) {
    Excess(strategy, s, a) > Excess(strategy, s, b) || (Excess(strategy, s, a) == Excess(strategy, s, b) && a < b)
  }

  /** In the order of the donors, whoever is to be asked before comes before. */
  lemma DonorsAreOrdered(strategy: Strategy, s: Sys, malleable: seq<int>, i: nat, k: nat)
    requires AscendingOrder(malleable) && forall j :: j in malleable ==> 0 <= j < |s.jobs|
    requires var order := MostSurplusFirst(s, malleable, strategy.RankedBy()); i < |order| && k < |order| && AskedBefore(strategy, s, order[i], order[k])
    ensures i < k
  {
    var order := MostSurplusFirst(s, malleable, strategy.RankedBy());
    var key := j => -Beyond(s, j, strategy.RankedBy());
    SortsStably(malleable, j => -Beyond(s, j, strategy.RankedBy()));
    assert order[i] in malleable && order[k] in malleable by { assert order[i] in order && order[k] in order; }
    assert Beyond(s, order[i], strategy.RankedBy()) == Excess(strategy, s, order[i]) as real;
    assert Beyond(s, order[k], strategy.RankedBy()) == Excess(strategy, s, order[k]) as real;
  }

  lemma MalleableAscend(jobs: seq<JobView>)
    ensures AscendingOrder(RunningMalleable(jobs))
  {
    FilterAscends(j => 0 <= j < |jobs| && IsRunningMalleable(jobs[j]), Range(|jobs|));
  }

  // ---- What can be given -----------------------------------------------------------------------

  /** A job can give exactly the unreserved nodes that it lists at or behind the size it goes down to. */
  lemma SurplusIsExact(s: Sys, a: Agreements, j: int, aim: Aim, n: int)
    requires 0 <= j < |s.jobs| && aim.Of(s.jobs[j]) >= 0
    ensures var v := s.jobs[j];
      n in Surplus(s, a, j, aim) <==> n !in a.nodeToJobId && exists k :: aim.Of(v) <= k < |v.assignedNodes| && v.assignedNodes[k] == n
  {
    var v := s.jobs[j];
    if aim.Of(v) < |v.assignedNodes| {
      var tail := v.assignedNodes[aim.Of(v)..];
      if n in tail {
        var k := IndexIn(tail, n);
        assert v.assignedNodes[aim.Of(v) + k] == n;
      }
      if k :| aim.Of(v) <= k < |v.assignedNodes| && v.assignedNodes[k] == n { assert tail[k - aim.Of(v)] == n; }
    }
  }

  lemma SurplusIsInOrder(s: Sys, a: Agreements, j: int, aim: Aim)
    requires 0 <= j < |s.jobs|
    ensures ListedInOrder(Surplus(s, a, j, aim), s.jobs[j].assignedNodes)
  {
    var v, f := s.jobs[j], Surplus(s, a, j, aim);
    if 0 <= aim.Of(v) < |v.assignedNodes| {
      var head, tail := v.assignedNodes[..aim.Of(v)], v.assignedNodes[aim.Of(v)..];
      FilterKeepsOrder(n => !a.HasNode(n), tail);
      assert ListedInOrder(f, tail);
      assert v.assignedNodes == head + tail + [];
      hide ComesBefore;
      hide Surplus;
      forall i, k | 0 <= i < k < |f| ensures ComesBefore(v.assignedNodes, f[i], f[k]) {
        WithinLonger(head, tail, [], f[i], f[k]);
      }
    }
  }

  // ---- Who gives how much ----------------------------------------------------------------------

  /** What donor `j` is asked for. */
  ghost function GivenBy(ds: seq<Donation>, j: int): seq<int> {
    if ds == [] then [] else if ds[0].donor == j then ds[0].nodes else GivenBy(ds[1..], j)
  }

  lemma GivenByPrepended(d: int, ns: seq<int>, rest: seq<Donation>, j: int)
    ensures GivenBy(Prepend(d, ns, rest), j) == if ns != [] && j == d then ns else GivenBy(rest, j)
  {
    if ns != [] { assert ([Donation(d, ns)] + rest)[1..] == rest; }
  }

  lemma {:induction false} NothingFromOthers(ds: seq<Donation>, donors: seq<int>, j: int)
    requires DonorsIn(ds, donors) && j !in donors
    ensures GivenBy(ds, j) == []
  {
    if ds != [] {
      assert DonorsIn(ds[1..], donors);
      NothingFromOthers(ds[1..], donors, j);
    }
  }

  lemma TakesFirstNodes(s: Sys, a: Agreements, j: int, required: int, aim: Aim)
    requires required > 0
    ensures var ns, all := AllocateResourcesFromJob(s, a, j, required, aim), Surplus(s, a, j, aim);
      ns <= all && |ns| <= required && (|ns| < required ==> ns == all)
  {
  }

  /** The first donor's part of a collection, and the others'. */
  lemma CollectionSplits(s: Sys, a: Agreements, donors: seq<int>, required: int, aim: Aim)
    requires Distinct(donors) && donors != [] && required > 0
    ensures var ns, ds := AllocateResourcesFromJob(s, a, donors[0], required, aim), CollectDonations(s, a, donors, required, aim);
      && GivenBy(ds, donors[0]) == ns
      && (forall j :: j != donors[0] ==> GivenBy(ds, j) == GivenBy(CollectDonations(s, a, donors[1..], required - |ns|, aim), j))
  {
    hide AllocateResourcesFromJob;
    var ns := AllocateResourcesFromJob(s, a, donors[0], required, aim);
    var rest := CollectDonations(s, a, donors[1..], required - |ns|, aim);
    HeadAndTail(donors);
    DonorsAreListed(s, a, donors[1..], required - |ns|, aim);
    NothingFromOthers(rest, donors[1..], donors[0]);
    forall j ensures GivenBy(Prepend(donors[0], ns, rest), j) == if ns != [] && j == donors[0] then ns else GivenBy(rest, j) {
      GivenByPrepended(donors[0], ns, rest, j);
    }
  }

  /** Every donor gives the first nodes it can give, and one gives only after all before it gave
      everything. */
  lemma {:induction false} EarlierGiveEverything(s: Sys, a: Agreements, donors: seq<int>, required: int, aim: Aim, i: nat, k: nat)
    requires Distinct(donors) && i < |donors| && k < |donors|
    ensures var ds := CollectDonations(s, a, donors, required, aim);
      && GivenBy(ds, donors[k]) <= Surplus(s, a, donors[k], aim)
      && (i < k && GivenBy(ds, donors[k]) != [] ==> GivenBy(ds, donors[i]) == Surplus(s, a, donors[i], aim))
    decreases |donors|
  {
    hide Surplus;
    hide AllocateResourcesFromJob;
    if required > 0 {
      var ns := AllocateResourcesFromJob(s, a, donors[0], required, aim);
      var tail := donors[1..];
      HeadAndTail(donors);
      TakesFirstNodes(s, a, donors[0], required, aim);
      CollectionSplits(s, a, donors, required, aim);
      hide CollectDonations;
      if k > 0 {
        assert tail[k - 1] == donors[k] && donors[k] in tail;
        if i > 0 { assert tail[i - 1] == donors[i] && donors[i] in tail; }
        EarlierGiveEverything(s, a, tail, required - |ns|, aim, if i > 0 then i - 1 else k - 1, k - 1);
        if i == 0 && required <= |ns| { NothingIsCollected(s, a, tail, required - |ns|, aim); }
      }
    }
  }

  lemma NothingIsCollected(s: Sys, a: Agreements, donors: seq<int>, required: int, aim: Aim)
    requires required <= 0
    ensures CollectDonations(s, a, donors, required, aim) == []
  {
  }

  lemma {:induction false} SurplusAfterInsertion(s: Sys, a: Agreements, jobs: seq<int>, x: int, key: int -> real, aim: Aim)
    ensures TotalSurplus(s, a, InsertByKey(jobs, x, key), aim) == |Surplus(s, a, x, aim)| + TotalSurplus(s, a, jobs, aim)
  {
    hide Surplus;
    var r := InsertByKey(jobs, x, key);
    if jobs == [] || key(jobs[0]) >= key(x) {
      assert r[1..] == jobs;
    } else {
      SurplusAfterInsertion(s, a, jobs[1..], x, key, aim);
      assert r[1..] == InsertByKey(jobs[1..], x, key);
    }
  }

  /** What the donors can give together does not depend on their order. */
  lemma {:induction false} SurplusOfSorted(s: Sys, a: Agreements, jobs: seq<int>, key: int -> real, aim: Aim)
    ensures TotalSurplus(s, a, StableSort(jobs, key), aim) == TotalSurplus(s, a, jobs, aim)
  {
    hide Surplus;
    if jobs != [] {
      SurplusOfSorted(s, a, jobs[1..], key, aim);
      SurplusAfterInsertion(s, a, StableSort(jobs[1..], key), jobs[0], key, aim);
    }
  }

  /** For how many nodes the jobs are asked, and the size they may go down to for it. The preferring
      strategy asks for the preferred size, else for the minimum, while that spares the donors'
      preferred sizes; else all ask for the minimum, or for nothing if even that is too much. */
  ghost function Wanted(strategy: Strategy, s: Sys, a: Agreements, malleable: seq<int>, v: JobView): (int, Aim) {
    var gentle, all := TotalSurplus(s, a, malleable, ToPref), TotalSurplus(s, a, malleable, ToMin);
    if strategy.PrefStealAgreement? && v.nodesPref <= gentle then (v.nodesPref, ToPref)
    else if strategy.PrefStealAgreement? && v.nodesMin <= gentle then (v.nodesMin, ToPref)
    else if v.nodesMin <= all then (v.nodesMin, ToMin)
    else (0, ToMin)
  }

  /** Two strategies measure anew for every pending job, the others once when the phase begins. */
  ghost function MeasuredAt(strategy: Strategy, begin: Sys, s: Sys): Sys {
    if strategy.MinCommonPool? || strategy.PrefStealAgreement? then s else begin
  }

  /** No donor is listed twice, and only these are. */
  ghost predicate DistinctDonors(ds: seq<Donation>, donors: seq<int>) {
    (forall k :: 0 <= k < |ds| ==> ds[k].donor in donors) && (forall i, k :: 0 <= i < k < |ds| ==> ds[i].donor != ds[k].donor)
  }

  /** Each donor is asked for the first nodes it can give, and none before everyone to be asked before
      it gave everything. */
  ghost predicate AskedInOrder(strategy: Strategy, measured: Sys, s: Sys, a: Agreements, malleable: seq<int>, aim: Aim, ds: seq<Donation>) {
    && (forall j :: j in malleable ==> GivenBy(ds, j) <= Surplus(s, a, j, aim))
    && (forall x, y :: x in malleable && y in malleable && AskedBefore(strategy, measured, x, y) && GivenBy(ds, y) != []
          ==> GivenBy(ds, x) == Surplus(s, a, x, aim))
  }

  ghost predicate IsSelection(strategy: Strategy, begin: Sys, s: Sys, a: Agreements, malleable: seq<int>, v: JobView, ds: seq<Donation>) {
    var (count, aim) := Wanted(strategy, s, a, malleable, v);
    && TotalDonated(ds) == count && DistinctDonors(ds, malleable)
    && AskedInOrder(strategy, MeasuredAt(strategy, begin, s), s, a, malleable, aim, ds)
  }

  lemma SelectionCollectsWanted(strategy: Strategy, s: Sys, a: Agreements, malleable: seq<int>, ranked: Sys, v: JobView)
    requires 0 < v.nodesMin <= v.nodesPref
    ensures var (count, aim) := Wanted(strategy, s, a, malleable, v);
      var donors := MostSurplusFirst(ranked, malleable, strategy.RankedBy());
      var ds := SelectDonations(strategy, s, a, donors, v);
      TotalDonated(ds) == count && ds == if count == 0 then [] else CollectDonations(s, a, donors, count, aim)
  {
    hide CollectDonations;
    hide TotalSurplus;
    var donors := MostSurplusFirst(ranked, malleable, strategy.RankedBy());
    SurplusOfSorted(s, a, malleable, j => -Beyond(ranked, j, strategy.RankedBy()), ToPref);
    SurplusOfSorted(s, a, malleable, j => -Beyond(ranked, j, strategy.RankedBy()), ToMin);
    SelectionIsExact(s, a, donors, v.nodesMin, ToMin);
    PreferenceIsGentle(s, a, donors, v);
  }

  lemma PrependKeepsDistinct(d: int, ns: seq<int>, rest: seq<Donation>, donors: seq<int>)
    requires donors != [] && d == donors[0] && Distinct(donors) && DistinctDonors(rest, donors[1..])
    ensures DistinctDonors(Prepend(d, ns, rest), donors)
  {
    HeadAndTail(donors);
    forall k | 0 <= k < |rest| ensures rest[k].donor in donors && rest[k].donor != d {
      assert rest[k].donor in donors[1..];
    }
  }

  lemma {:induction false} CollectedByDistinctDonors(s: Sys, a: Agreements, donors: seq<int>, required: int, aim: Aim)
    requires Distinct(donors)
    ensures DistinctDonors(CollectDonations(s, a, donors, required, aim), donors)
    decreases |donors|
  {
    hide AllocateResourcesFromJob;
    if donors != [] && required > 0 {
      var ns := AllocateResourcesFromJob(s, a, donors[0], required, aim);
      HeadAndTail(donors);
      hide DistinctDonors;
      CollectedByDistinctDonors(s, a, donors[1..], required - |ns|, aim);
      PrependKeepsDistinct(donors[0], ns, CollectDonations(s, a, donors[1..], required - |ns|, aim), donors);
    } else {
      assert CollectDonations(s, a, donors, required, aim) == [];
    }
  }

  lemma CollectionIsInOrder(strategy: Strategy, measured: Sys, s: Sys, a: Agreements, malleable: seq<int>, required: int, aim: Aim)
    requires |measured.jobs| == |s.jobs| && AscendingOrder(malleable) && forall j :: j in malleable ==> 0 <= j < |s.jobs|
    ensures var ds := CollectDonations(s, a, MostSurplusFirst(measured, malleable, strategy.RankedBy()), required, aim);
      DistinctDonors(ds, malleable) && AskedInOrder(strategy, measured, s, a, malleable, aim, ds)
  {
    assert Distinct(malleable);
    var donors := MostSurplusFirst(measured, malleable, strategy.RankedBy());
    var ds := CollectDonations(s, a, donors, required, aim);
    CollectedByDistinctDonors(s, a, donors, required, aim);
    assert forall j :: j in malleable <==> j in donors;
    hide CollectDonations;
    hide Surplus;
    hide AskedBefore;
    hide MostSurplusFirst;
    forall j | j in malleable ensures GivenBy(ds, j) <= Surplus(s, a, j, aim) {
      var k := IndexIn(donors, j);
      EarlierGiveEverything(s, a, donors, required, aim, k, k);
    }
    forall x, y | x in malleable && y in malleable && AskedBefore(strategy, measured, x, y) && GivenBy(ds, y) != []
      ensures GivenBy(ds, x) == Surplus(s, a, x, aim)
    {
      var i := IndexIn(donors, x);
      var k := IndexIn(donors, y);
      DonorsAreOrdered(strategy, measured, malleable, i, k);
      EarlierGiveEverything(s, a, donors, required, aim, i, k);
    }
  }

  lemma NobodyIsAsked(strategy: Strategy, measured: Sys, s: Sys, a: Agreements, malleable: seq<int>, aim: Aim)
    ensures DistinctDonors([], malleable) && AskedInOrder(strategy, measured, s, a, malleable, aim, [])
  {
  }

  /** The selection for a pending job asks the right jobs, in the right order, for the right number. */
  lemma SelectionIsInOrder(strategy: Strategy, begin: Sys, s: Sys, a: Agreements, malleable: seq<int>, v: JobView)
    requires 0 < v.nodesMin <= v.nodesPref && |begin.jobs| == |s.jobs| && AscendingOrder(malleable) && forall j :: j in malleable ==> 0 <= j < |s.jobs|
    ensures var sorted := MostSurplusFirst(begin, malleable, strategy.RankedBy());
      IsSelection(strategy, begin, s, a, malleable, v, SelectDonations(strategy, s, a, DonorOrder(strategy, s, sorted, malleable), v))
  {
    hide CollectDonations;
    hide SelectDonations;
    hide MostSurplusFirst;
    hide Wanted;
    hide AskedInOrder;
    hide DistinctDonors;
    var measured := MeasuredAt(strategy, begin, s);
    var (count, aim) := Wanted(strategy, s, a, malleable, v);
    SelectionCollectsWanted(strategy, s, a, malleable, measured, v);
    CollectionIsInOrder(strategy, measured, s, a, malleable, count, aim);
    NobodyIsAsked(strategy, measured, s, a, malleable, aim);
  }

  // ---- Where the nodes go ----------------------------------------------------------------------

  /** Some donation's accepted part contains the node. */
  ghost predicate Donated(ctx: Ctx, s: Sys, p: int, ds: seq<Donation>, n: int)
    requires 0 <= p < |s.jobs|
  {
    exists k :: 0 <= k < |ds| && n in FilterForReservation(ctx, s, p, ds[k].nodes)
  }

  /** Every donor loses exactly the accepted part of what it is asked for, and exactly these nodes
      become reserved for job `p`; no other reservation changes. */
  ghost predicate Gives(ctx: Ctx, r: Round, t: Round, p: int, ds: seq<Donation>)
    requires 0 <= p < |r.sys.jobs|
  {
    && |t.sys.jobs| == |r.sys.jobs| && t.pending == r.pending && t.free == r.free && t.started == r.started
    && (forall j :: 0 <= j < |r.sys.jobs| ==>
          t.sys.jobs[j].assignedNodes == RemoveEach(r.sys.jobs[j].assignedNodes, FilterForReservation(ctx, r.sys, p, GivenBy(ds, j))))
    && (forall n :: n in t.agreements.NodesOf(p) <==> n in r.agreements.NodesOf(p) || Donated(ctx, r.sys, p, ds, n))
    && OthersKeep(r.agreements, t.agreements, p)
  }

  /** What one donation does. */
  ghost predicate DonationDone(ctx: Ctx, r: Round, t: Round, p: int, d: Donation)
    requires 0 <= p < |r.sys.jobs| && 0 <= d.donor < |r.sys.jobs|
  {
    var ns := FilterForReservation(ctx, r.sys, p, d.nodes);
    && |t.sys.jobs| == |r.sys.jobs| && t.pending == r.pending && t.free == r.free && t.started == r.started
    && t.sys.jobs[d.donor].assignedNodes == RemoveEach(r.sys.jobs[d.donor].assignedNodes, ns)
    && (forall j :: 0 <= j < |r.sys.jobs| && j != d.donor ==> t.sys.jobs[j] == r.sys.jobs[j])
    && (forall n :: n in t.agreements.NodesOf(p) <==> n in r.agreements.NodesOf(p) || n in ns)
    && OthersKeep(r.agreements, t.agreements, p)
  }

  lemma DonationGives(ctx: Ctx, r: Round, d: Donation, p: int)
    requires 0 <= p < |r.sys.jobs| && 0 <= d.donor < |r.sys.jobs|
    requires var ns := FilterForReservation(ctx, r.sys, p, d.nodes);
      r.sys.jobs[d.donor].nodesMin <= |r.sys.jobs[d.donor].assignedNodes| - |ns| && forall n :: n in ns ==> n !in r.agreements.nodeToJobId
    ensures DonationDone(ctx, r, ApplyDonation(ctx, r, d, p), p, d)
  {
    var ns := FilterForReservation(ctx, r.sys, p, d.nodes);
    hide FilterForReservation;
    hide AtNodes;
    hide Agreements.Add;
    AddEffect(r.agreements, p, ns, |ns|);
    assert ns[..|ns|] == ns;
  }

  lemma DonationIsPossible(strategy: Strategy, ctx: Ctx, s0: Sys, r: Round, d: Donation, p: int)
    requires Reserving(strategy, ctx.cfg.loaded, s0, r, p) && DonationOk(s0, r.sys, d)
    ensures 0 <= p < |r.sys.jobs| && 0 <= d.donor < |r.sys.jobs|
    ensures var ns := FilterForReservation(ctx, r.sys, p, d.nodes);
      r.sys.jobs[d.donor].nodesMin <= |r.sys.jobs[d.donor].assignedNodes| - |ns| && forall n :: n in ns ==> n !in r.agreements.nodeToJobId
  {
    FilterIsGreatest(ctx, r.sys, p, d.nodes);
    forall n | n in FilterForReservation(ctx, r.sys, p, d.nodes) ensures n !in r.agreements.nodeToJobId {
      DonatedIsUnreserved(s0, r.sys, r.agreements, d, n);
    }
  }

  lemma {:induction false} SameAcceptanceSameFilter(ctx: Ctx, s: Sys, t: Sys, p: int, ns: seq<int>)
    requires 0 <= p < |s.jobs| && p < |t.jobs| && t.jobs[p].profile == s.jobs[p].profile
    requires forall n, runtime: real :: Accepts(ctx, t.nodes, n, runtime, false) == Accepts(ctx, s.nodes, n, runtime, false)
    ensures FilterForReservation(ctx, t, p, ns) == FilterForReservation(ctx, s, p, ns)
    decreases |ns|
  {
    hide Accepts;
    if ns != [] {
      var runtime := PlannedRuntime(s.jobs[p], |ns|);
      SameFilter(n => Accepts(ctx, t.nodes, n, runtime, false), n => Accepts(ctx, s.nodes, n, runtime, false), ns);
      var filtered := EligibleForPending(ctx, s, p, ns, |ns|);
      assert EligibleForPending(ctx, t, p, ns, |ns|) == filtered;
      if |filtered| != |ns| { SameAcceptanceSameFilter(ctx, s, t, p, filtered); }
    }
  }

  /** A donation changes nothing that the filtering of the others depends on. */
  lemma DonationKeepsFilter(ctx: Ctx, r: Round, d: Donation, p: int, ns: seq<int>)
    requires 0 <= d.donor < |r.sys.jobs| && 0 <= p < |r.sys.jobs| && d.donor != p
    ensures FilterForReservation(ctx, ApplyDonation(ctx, r, d, p).sys, p, ns) == FilterForReservation(ctx, r.sys, p, ns)
  {
    hide FilterForReservation;
    var t := ApplyDonation(ctx, r, d, p).sys;
    forall n, runtime: real ensures Accepts(ctx, t.nodes, n, runtime, false) == Accepts(ctx, r.sys.nodes, n, runtime, false) {
    }
    SameAcceptanceSameFilter(ctx, r.sys, t, p, ns);
  }

  lemma NobodyGives(ctx: Ctx, r: Round, p: int)
    requires 0 <= p < |r.sys.jobs|
    ensures Gives(ctx, r, r, p, [])
  {
    assert FilterForReservation(ctx, r.sys, p, []) == [];
    forall n ensures !Donated(ctx, r.sys, p, [], n) {
    }
  }

  /** One donation first, then the others. */
  lemma GivesOneMore(ctx: Ctx, r: Round, t: Round, u: Round, p: int, ds: seq<Donation>)
    requires ds != [] && 0 <= p < |r.sys.jobs| && |t.sys.jobs| == |r.sys.jobs| && 0 <= ds[0].donor < |r.sys.jobs|
    requires forall k :: 0 < k < |ds| ==> ds[k].donor != ds[0].donor
    requires DonationDone(ctx, r, t, p, ds[0]) && Gives(ctx, t, u, p, ds[1..])
    requires forall ns: seq<int> :: FilterForReservation(ctx, t.sys, p, ns) == FilterForReservation(ctx, r.sys, p, ns)
    ensures Gives(ctx, r, u, p, ds)
  {
    assert FilterForReservation(ctx, r.sys, p, []) == [];
    OthersKeepTransitive(r.agreements, t.agreements, u.agreements, p);
    hide FilterForReservation;
    hide OthersKeep;
    forall j | 0 <= j < |r.sys.jobs|
      ensures u.sys.jobs[j].assignedNodes == RemoveEach(r.sys.jobs[j].assignedNodes, FilterForReservation(ctx, r.sys, p, GivenBy(ds, j)))
    {
      if j == ds[0].donor {
        NothingFromOthersLeft(ds[1..], j);
        assert RemoveEach(t.sys.jobs[j].assignedNodes, []) == t.sys.jobs[j].assignedNodes;
      } else {
        assert GivenBy(ds, j) == GivenBy(ds[1..], j);
      }
    }
    forall n ensures n in u.agreements.NodesOf(p) <==> n in r.agreements.NodesOf(p) || Donated(ctx, r.sys, p, ds, n) {
      DonatedSplits(ctx, r.sys, t.sys, p, ds, n);
    }
  }

  lemma {:induction false} NothingFromOthersLeft(ds: seq<Donation>, j: int)
    requires forall k :: 0 <= k < |ds| ==> ds[k].donor != j
    ensures GivenBy(ds, j) == []
  {
    if ds != [] { NothingFromOthersLeft(ds[1..], j); }
  }

  lemma DonatedSplits(ctx: Ctx, s: Sys, t: Sys, p: int, ds: seq<Donation>, n: int)
    requires ds != [] && 0 <= p < |s.jobs| && p < |t.jobs|
    requires forall ns: seq<int> :: FilterForReservation(ctx, t, p, ns) == FilterForReservation(ctx, s, p, ns)
    ensures Donated(ctx, s, p, ds, n) <==> n in FilterForReservation(ctx, s, p, ds[0].nodes) || Donated(ctx, t, p, ds[1..], n)
  {
    hide FilterForReservation;
    if k :| 0 <= k < |ds| && n in FilterForReservation(ctx, s, p, ds[k].nodes) {
      if k > 0 { assert n in FilterForReservation(ctx, t, p, ds[1..][k - 1].nodes); }
    }
    if k :| 0 <= k < |ds[1..]| && n in FilterForReservation(ctx, t, p, ds[1..][k].nodes) {
      assert n in FilterForReservation(ctx, s, p, ds[k + 1].nodes);
    }
  }

  lemma {:induction false} ShrinkingGives(strategy: Strategy, ctx: Ctx, s0: Sys, r: Round, ds: seq<Donation>, p: int)
    requires Reserving(strategy, ctx.cfg.loaded, s0, r, p) && DonationsOk(s0, r.sys, ds)
    requires |r.agreements.NodesOf(p)| + TotalDonated(ds) <= strategy.StartSize(r.sys.jobs[p])
    ensures 0 <= p < |r.sys.jobs| && forall k :: 0 <= k < |ds| ==> 0 <= ds[k].donor < |r.sys.jobs|
    ensures Gives(ctx, r, ApplyShrinking(ctx, r, ds, p), p, ds)
    decreases |ds|
  {
    if ds == [] {
      NobodyGives(ctx, r, p);
    } else {
      ShrinkingStep(strategy, ctx, s0, r, ds, p);
      DonationIsPossible(strategy, ctx, s0, r, ds[0], p);
      DonationGives(ctx, r, ds[0], p);
      DonorIsNotPending(strategy, ctx.cfg.loaded, s0, r, ds[0], p);
      var t := ApplyDonation(ctx, r, ds[0], p);
      assert forall k :: 0 <= k < |ds| ==> 0 <= ds[k].donor < |r.sys.jobs| && (k > 0 ==> ds[k].donor != ds[0].donor);
      hide Reserving;
      hide DonationsOk;
      hide DonationOk;
      hide AllSupport;
      hide Supports;
      hide OthersKeep;
      hide DonationDone;
      forall ns: seq<int> ensures FilterForReservation(ctx, t.sys, p, ns) == FilterForReservation(ctx, r.sys, p, ns) {
        DonationKeepsFilter(ctx, r, ds[0], p, ns);
      }
      hide Gives;
      hide ApplyDonation;
      hide FilterForReservation;
      ShrinkingGives(strategy, ctx, s0, t, ds[1..], p);
      GivesOneMore(ctx, r, t, ApplyShrinking(ctx, t, ds[1..], p), p, ds);
    }
  }

  // ---- The turns of the phase ------------------------------------------------------------------

  /** One pending job's turn: the right donors are asked, and what they give is reserved for it, all
      of it exactly if every node asked for accepts the job. */
  ghost predicate DonationTurn(strategy: Strategy, ctx: Ctx, begin: Sys, malleable: seq<int>, r: Round, t: Round, p: int) {
    0 <= p < |r.sys.jobs| && exists ds :: DonatesFor(strategy, ctx, begin, malleable, r, t, p, ds)
  }

  ghost predicate DonatesFor(strategy: Strategy, ctx: Ctx, begin: Sys, malleable: seq<int>, r: Round, t: Round, p: int, ds: seq<Donation>)
    requires 0 <= p < |r.sys.jobs|
  {
    && IsSelection(strategy, begin, r.sys, r.agreements, malleable, r.sys.jobs[p], ds) && Gives(ctx, r, t, p, ds)
    && (|t.agreements.NodesOf(p)| == TotalDonated(ds) <==> AllSupport(ctx, r.sys, ds, p))
  }

  ghost predicate DonationTurns(strategy: Strategy, ctx: Ctx, begin: Sys, malleable: seq<int>, r: Round, waiting: seq<int>, t: Round)
    decreases |waiting|
  {
    if waiting == [] then t == r
    else exists u: Round :: DonationTurn(strategy, ctx, begin, malleable, r, u, waiting[0]) && DonationTurns(strategy, ctx, begin, malleable, u, waiting[1..], t)
  }

  /** Donations that can be given, for one of the sizes of a start, are reserved. */
  lemma DonationsAreReserved(strategy: Strategy, ctx: Ctx, s0: Sys, r: Round, ds: seq<Donation>, p: int)
    requires RoundOk(strategy, ctx.cfg.loaded, s0, r, -1) && (forall n :: n in r.free ==> !r.agreements.HasNode(n)) && p in r.pending
    requires 0 <= p < |r.sys.jobs| && !r.agreements.HasJob(p) && DonationsOk(s0, r.sys, ds)
    requires ds != [] ==> TotalDonated(ds) == r.sys.jobs[p].nodesMin || TotalDonated(ds) == strategy.StartSize(r.sys.jobs[p])
    ensures forall k :: 0 <= k < |ds| ==> 0 <= ds[k].donor < |r.sys.jobs|
    ensures var t := ApplyShrinking(ctx, r, ds, p);
      Gives(ctx, r, t, p, ds) && (|t.agreements.NodesOf(p)| == TotalDonated(ds) <==> AllSupport(ctx, r.sys, ds, p))
  {
    ReservingBegins(strategy, ctx.cfg.loaded, s0, r, p);
    assert forall k :: 0 <= k < |ds| ==> 0 <= ds[k].donor < |r.sys.jobs|;
    hide RoundOk;
    hide Reserving;
    hide DonationsOk;
    hide ApplyShrinking;
    hide Gives;
    if ds == [] { NobodyRefusesNothing(ctx, r.sys, p); assert ApplyShrinking(ctx, r, ds, p) == r by { NothingToReserve(ctx, r, p); } }
    ShrinkingGives(strategy, ctx, s0, r, ds, p);
    ReserveAll(strategy, ctx, s0, r, ds, p);
  }

  lemma NothingToReserve(ctx: Ctx, r: Round, p: int)
    requires 0 <= p < |r.sys.jobs|
    ensures ApplyShrinking(ctx, r, [], p) == r
  {
  }

  lemma OneTurn(strategy: Strategy, ctx: Ctx, s0: Sys, begin: Sys, malleable: seq<int>, r: Round, p: int)
    requires RoundOk(strategy, ctx.cfg.loaded, s0, r, -1) && (forall n :: n in r.free ==> !r.agreements.HasNode(n)) && p in r.pending
    requires 0 <= p < |r.sys.jobs| && !r.agreements.HasJob(p) && Donors(s0, malleable) && AscendingOrder(malleable)
    requires |begin.jobs| == |r.sys.jobs| && forall j :: j in malleable ==> 0 <= j < |r.sys.jobs|
    ensures var sorted := MostSurplusFirst(begin, malleable, strategy.RankedBy());
      DonationTurn(strategy, ctx, begin, malleable, r, ShrinkForOne(strategy, ctx, r, p, sorted, malleable), p)
  {
    var sorted, v := MostSurplusFirst(begin, malleable, strategy.RankedBy()), r.sys.jobs[p];
    assert 0 < v.nodesMin <= v.nodesPref by { assert JobOk(v, |r.sys.nodes|); }
    var donors := DonorOrder(strategy, r.sys, sorted, malleable);
    DonorsInOrder(strategy, s0, begin, r.sys, malleable);
    hide RoundOk;
    hide Donors;
    hide DonationsOk;
    hide SelectDonations;
    hide ApplyShrinking;
    hide DonorOrder;
    hide IsSelection;
    hide AllSupport;
    hide Gives;
    SelectionIsInOrder(strategy, begin, r.sys, r.agreements, malleable, v);
    SelectedAreOk(strategy, ctx.cfg.loaded, s0, r, donors, v);
    var ds := SelectDonations(strategy, r.sys, r.agreements, donors, v);
    DonationsAreReserved(strategy, ctx, s0, r, ds, p);
    assert DonatesFor(strategy, ctx, begin, malleable, r, ApplyShrinking(ctx, r, ds, p), p, ds);
  }

  lemma NobodyRefusesNothing(ctx: Ctx, s: Sys, p: int)
    requires 0 <= p < |s.jobs|
    ensures AllSupport(ctx, s, [], p)
  {
  }

  lemma DonorsInOrder(strategy: Strategy, s0: Sys, begin: Sys, s: Sys, malleable: seq<int>)
    requires Donors(s0, malleable)
    ensures Donors(s0, MostSurplusFirst(begin, malleable, strategy.RankedBy()))
    ensures Donors(s0, DonorOrder(strategy, s, MostSurplusFirst(begin, malleable, strategy.RankedBy()), malleable))
  {
  }

  lemma {:induction false} ShrinkingIsTurns(strategy: Strategy, ctx: Ctx, s0: Sys, begin: Sys, malleable: seq<int>, r: Round, waiting: seq<int>)
    requires RoundOk(strategy, ctx.cfg.loaded, s0, r, -1) && (forall n :: n in r.free ==> !r.agreements.HasNode(n))
    requires Distinct(waiting) && forall j :: j in waiting ==> 0 <= j < |r.sys.jobs| && j in r.pending && !r.agreements.HasJob(j)
    requires Donors(s0, malleable) && AscendingOrder(malleable) && |begin.jobs| == |r.sys.jobs| && forall j :: j in malleable ==> 0 <= j < |r.sys.jobs|
    ensures var sorted := MostSurplusFirst(begin, malleable, strategy.RankedBy());
      DonationTurns(strategy, ctx, begin, malleable, r, waiting, ShrinkForPending(strategy, ctx, r, waiting, sorted, malleable))
    decreases |waiting|
  {
    hide RoundOk;
    hide ShrinkForOne;
    hide DonationTurn;
    hide Donors;
    if waiting != [] {
      var j, tail, sorted := waiting[0], waiting[1..], MostSurplusFirst(begin, malleable, strategy.RankedBy());
      HeadAndTail(waiting);
      DonorsInOrder(strategy, s0, begin, begin, malleable);
      OneTurn(strategy, ctx, s0, begin, malleable, r, j);
      ShrinkForOneKeeps(strategy, ctx, s0, r, j, sorted, malleable);
      var t := ShrinkForOne(strategy, ctx, r, j, sorted, malleable);
      ShrinkingIsTurns(strategy, ctx, s0, begin, malleable, t, tail);
    }
  }

  lemma NobodyIsAskedFor(strategy: Strategy, ctx: Ctx, begin: Sys, r: Round, p: int)
    requires 0 <= p < |r.sys.jobs| && HasSizes(r.sys.jobs[p]) && !r.agreements.HasJob(p)
    ensures DonationTurn(strategy, ctx, begin, [], r, r, p)
  {
    NobodyGives(ctx, r, p);
    NobodyRefusesNothing(ctx, r.sys, p);
    NobodyIsAsked(strategy, MeasuredAt(strategy, begin, r.sys), r.sys, r.agreements, [], ToMin);
    hide Gives;
    assert DonatesFor(strategy, ctx, begin, [], r, r, p, []);
  }

  lemma {:induction false} NobodyToAsk(strategy: Strategy, ctx: Ctx, begin: Sys, r: Round, waiting: seq<int>)
    requires Plannable(r) && forall j :: j in waiting ==> 0 <= j < |r.sys.jobs| && j in r.pending && !r.agreements.HasJob(j)
    ensures DonationTurns(strategy, ctx, begin, [], r, waiting, r)
    decreases |waiting|
  {
    if waiting != [] {
      assert waiting[0] in waiting && forall j :: j in waiting[1..] ==> j in waiting;
      NobodyIsAskedFor(strategy, ctx, begin, r, waiting[0]);
      hide DonationTurn;
      NobodyToAsk(strategy, ctx, begin, r, waiting[1..]);
    }
  }

  /** Every waiting job has its turn, in the order of the queue. */
  lemma PhaseAsksInOrder(strategy: Strategy, ctx: Ctx, s0: Sys, r: Round, malleable: seq<int>)
    requires RoundOk(strategy, ctx.cfg.loaded, s0, r, -1) && Unreserved(r) && r.Indexed()
    requires Donors(s0, malleable) && AscendingOrder(malleable) && forall j :: j in malleable ==> 0 <= j < |r.sys.jobs|
    ensures DonationTurns(strategy, ctx, r.sys, malleable, r, r.pending, ShrinkPhase(strategy, ctx, r, malleable))
  {
    assert Distinct(r.pending);
    RoundIsPlannable(strategy, ctx.cfg.loaded, s0, r);
    hide RoundOk;
    hide Donors;
    hide Plannable;
    hide DonationTurn;
    hide MostSurplusFirst;
    hide ShrinkForPending;
    if r.pending != [] {
      if malleable == [] {
        NobodyToAsk(strategy, ctx, r.sys, r, r.pending);
      } else {
        ShrinkingIsTurns(strategy, ctx, s0, r.sys, malleable, r, r.pending);
      }
    }
  }

  // ---- The whole round -------------------------------------------------------------------------

  /** The round when the donors have given. */
  ghost function AfterShrinking(strategy: Strategy, ctx: Ctx, s: Sys, a: Agreements): (r: Round)
    ensures |r.sys.jobs| == |s.jobs|
  {
    ShrinkPhase(strategy, ctx, Backfilled(strategy, ctx, s, a), RunningMalleable(s.jobs))
  }

  /** In a round every job that waits after backfilling has its turn, in the order of the queue, and
      the reservations that the turns lead to are those of the round. */
  lemma RoundAsksInOrder(strategy: Strategy, ctx: Ctx, s: Sys, a: Agreements)
    requires Settled(strategy, ctx.cfg.loaded, s, a)
    ensures var r, t := Backfilled(strategy, ctx, s, a), AfterShrinking(strategy, ctx, s, a);
      && DonationTurns(strategy, ctx, r.sys, RunningMalleable(s.jobs), r, r.pending, t)
      && ScheduleRound(strategy, ctx, s, a).agreements == t.agreements && ScheduleRound(strategy, ctx, s, a).started == t.started
  {
    hide RoundOk;
    hide Settled;
    hide Unreserved;
    hide BackfillsTo;
    hide Backfilled;
    hide ScheduleRound;
    hide ShrinkPhase;
    BackfilledStage(strategy, ctx, s, a);
    LastStages(strategy, ctx, s, a);
    MalleableAscend(s.jobs);
    var r, malleable := Backfilled(strategy, ctx, s, a), RunningMalleable(s.jobs);
    PhaseAsksInOrder(strategy, ctx, s, r, malleable);
    ShrinkingStartsNone(strategy, ctx, r, malleable);
  }

  lemma ShrinkingStartsNone(strategy: Strategy, ctx: Ctx, r: Round, malleable: seq<int>)
    requires r.Indexed() && forall j :: j in malleable ==> 0 <= j < |r.sys.jobs|
    ensures ShrinkPhase(strategy, ctx, r, malleable).started == r.started
  {
    hide ShrinkForPending;
    ReservingIsListed(strategy, ctx, r, r.pending, MostSurplusFirst(r.sys, malleable, strategy.RankedBy()), malleable);
  }

  // ---- Without a policy ------------------------------------------------------------------------

  lemma {:induction false} GivenIsListed(ds: seq<Donation>, j: int) returns (k: nat)
    requires GivenBy(ds, j) != []
    ensures k < |ds| && ds[k].donor == j && ds[k].nodes == GivenBy(ds, j)
  {
    k := 0;
    if ds[0].donor != j {
      var m := GivenIsListed(ds[1..], j);
      k := m + 1;
    }
  }

  lemma {:induction false} ListedIsGiven(ds: seq<Donation>, k: nat)
    requires k < |ds| && forall i, m :: 0 <= i < m < |ds| ==> ds[i].donor != ds[m].donor
    ensures GivenBy(ds, ds[k].donor) == ds[k].nodes
  {
    if k > 0 {
      assert ds[1..][k - 1] == ds[k];
      ListedIsGiven(ds[1..], k - 1);
    }
  }

  /** What a job can give are nodes of the cluster, listed once. */
  lemma SurplusIsReal(strategy: Strategy, loaded: bool, s0: Sys, r: Round, j: int, aim: Aim)
    requires RoundOk(strategy, loaded, s0, r, -1) && 0 <= j < |r.sys.jobs|
    ensures Distinct(r.sys.jobs[j].assignedNodes) && forall n :: n in Surplus(r.sys, r.agreements, j, aim) ==> 0 <= n < |r.sys.nodes| && n in r.sys.jobs[j].assignedNodes
  {
    assert JobOk(r.sys.jobs[j], |r.sys.nodes|);
    forall n | n in Surplus(r.sys, r.agreements, j, aim) ensures n in r.sys.jobs[j].assignedNodes {
      assert n in r.sys.jobs[j].assignedNodes[aim.Of(r.sys.jobs[j])..];
    }
  }

  lemma UnaskedKeepsAll(ctx: Ctx, r: Round, t: Round, p: int, ds: seq<Donation>, y: int)
    requires 0 <= p < |r.sys.jobs| && Gives(ctx, r, t, p, ds) && 0 <= y < |r.sys.jobs| && GivenBy(ds, y) == []
    ensures t.sys.jobs[y].assignedNodes == r.sys.jobs[y].assignedNodes
  {
    assert FilterForReservation(ctx, r.sys, p, []) == [];
  }

  lemma GivenNodeGoes(ctx: Ctx, r: Round, t: Round, p: int, ds: seq<Donation>, x: int, n: int)
    requires 0 <= p < |r.sys.jobs| && Gives(ctx, r, t, p, ds) && 0 <= x < |r.sys.jobs| && Distinct(r.sys.jobs[x].assignedNodes)
    requires n in GivenBy(ds, x) && FilterForReservation(ctx, r.sys, p, GivenBy(ds, x)) == GivenBy(ds, x)
    ensures n !in t.sys.jobs[x].assignedNodes && n in t.agreements.NodesOf(p)
  {
    hide FilterForReservation;
    hide OthersKeep;
    RemoveEachDistinct(r.sys.jobs[x].assignedNodes, GivenBy(ds, x));
    var k := GivenIsListed(ds, x);
    assert n in FilterForReservation(ctx, r.sys, p, ds[k].nodes);
  }

  /** Without a policy: if a job gives anything, every job with more excess, or with as much and
      earlier in the queue, gives all it can, and the pending job gets it. */
  lemma MoreExcessGivesFirst(strategy: Strategy, ctx: Ctx, s0: Sys, begin: Sys, malleable: seq<int>, r: Round, t: Round, p: int, x: int, y: int, n: int)
    requires RoundOk(strategy, false, s0, r, -1) && !ctx.cfg.loaded && DonationTurn(strategy, ctx, begin, malleable, r, t, p) && |t.sys.jobs| == |r.sys.jobs|
    requires x in malleable && y in malleable && 0 <= x < |r.sys.jobs| && 0 <= y < |r.sys.jobs|
    requires AskedBefore(strategy, MeasuredAt(strategy, begin, r.sys), x, y) && t.sys.jobs[y].assignedNodes != r.sys.jobs[y].assignedNodes
    requires n in Surplus(r.sys, r.agreements, x, Wanted(strategy, r.sys, r.agreements, malleable, r.sys.jobs[p]).1)
    ensures n in r.sys.jobs[x].assignedNodes && n !in t.sys.jobs[x].assignedNodes && n in t.agreements.NodesOf(p)
  {
    var all := Surplus(r.sys, r.agreements, x, Wanted(strategy, r.sys, r.agreements, malleable, r.sys.jobs[p]).1);
    SurplusIsReal(strategy, false, s0, r, x, Wanted(strategy, r.sys, r.agreements, malleable, r.sys.jobs[p]).1);
    hide RoundOk;
    hide Surplus;
    hide Wanted;
    hide Gives;
    hide AskedBefore;
    hide AllSupport;
    hide DistinctDonors;
    var ds: seq<Donation> :| DonatesFor(strategy, ctx, begin, malleable, r, t, p, ds);
    if GivenBy(ds, y) == [] { UnaskedKeepsAll(ctx, r, t, p, ds, y); }
    assert GivenBy(ds, x) == all;
    NoPolicyKeepsAll(ctx, r.sys, p, all);
    GivenNodeGoes(ctx, r, t, p, ds, x, n);
  }

  lemma SupportedWithoutPolicy(ctx: Ctx, s: Sys, p: int, ns: seq<int>)
    requires !ctx.cfg.loaded && 0 <= p < |s.jobs| && forall n :: n in ns ==> 0 <= n < |s.nodes|
    ensures Supports(ctx, s, p, ns)
  {
  }

  lemma NobodyRefusesWithoutPolicy(strategy: Strategy, ctx: Ctx, s0: Sys, measured: Sys, malleable: seq<int>, aim: Aim, r: Round, p: int, ds: seq<Donation>)
    requires RoundOk(strategy, false, s0, r, -1) && !ctx.cfg.loaded && 0 <= p < |r.sys.jobs|
    requires DistinctDonors(ds, malleable) && AskedInOrder(strategy, measured, r.sys, r.agreements, malleable, aim, ds)
    requires forall j :: j in malleable ==> 0 <= j < |r.sys.jobs|
    ensures AllSupport(ctx, r.sys, ds, p)
  {
    forall k | 0 <= k < |ds| ensures Supports(ctx, r.sys, p, ds[k].nodes) {
      var j := ds[k].donor;
      ListedIsGiven(ds, k);
      assert j in malleable && ds[k].nodes <= Surplus(r.sys, r.agreements, j, aim);
      SurplusIsReal(strategy, false, s0, r, j, aim);
      hide RoundOk;
      hide AskedInOrder;
      hide Surplus;
      hide Supports;
      assert forall n :: n in ds[k].nodes ==> n in Surplus(r.sys, r.agreements, j, aim);
      SupportedWithoutPolicy(ctx, r.sys, p, ds[k].nodes);
    }
  }

  lemma TurnKeepsOthers(strategy: Strategy, ctx: Ctx, begin: Sys, malleable: seq<int>, r: Round, t: Round, w: int, p: int)
    requires DonationTurn(strategy, ctx, begin, malleable, r, t, w) && p != w
    ensures t.agreements.NodesOf(p) == r.agreements.NodesOf(p)
  {
    hide IsSelection;
    hide AllSupport;
    var ds: seq<Donation> :| DonatesFor(strategy, ctx, begin, malleable, r, t, w, ds);
    assert OthersKeep(r.agreements, t.agreements, w);
  }

  lemma {:induction false} TurnsKeepOthers(strategy: Strategy, ctx: Ctx, begin: Sys, malleable: seq<int>, r: Round, waiting: seq<int>, t: Round, p: int)
    requires DonationTurns(strategy, ctx, begin, malleable, r, waiting, t) && p !in waiting
    ensures t.agreements.NodesOf(p) == r.agreements.NodesOf(p)
    decreases |waiting|
  {
    hide DonationTurn;
    if waiting != [] {
      var u: Round :| DonationTurn(strategy, ctx, begin, malleable, r, u, waiting[0]) && DonationTurns(strategy, ctx, begin, malleable, u, waiting[1..], t);
      assert forall j :: j in waiting[1..] ==> j in waiting;
      TurnKeepsOthers(strategy, ctx, begin, malleable, r, u, waiting[0], p);
      TurnsKeepOthers(strategy, ctx, begin, malleable, u, waiting[1..], t, p);
    }
  }

  /** Without a policy, after the round the first job that waits holds a reservation of exactly the
      number of nodes that the malleable jobs can give it: its preferred number or its minimum as
      the strategy has it, or none if they cannot give its minimum. */
  lemma FirstWaitingIsServed(strategy: Strategy, ctx: Ctx, s: Sys, a: Agreements)
    requires Settled(strategy, false, s, a) && !ctx.cfg.loaded && Backfilled(strategy, ctx, s, a).pending != []
    ensures var r := Backfilled(strategy, ctx, s, a); var p := r.pending[0];
      && 0 <= p < |r.sys.jobs|
      && |ScheduleRound(strategy, ctx, s, a).agreements.NodesOf(p)| == Wanted(strategy, r.sys, r.agreements, RunningMalleable(s.jobs), r.sys.jobs[p]).0
  {
    hide Settled;
    hide BackfillsTo;
    hide Unreserved;
    hide Backfilled;
    hide ScheduleRound;
    hide ShrinkPhase;
    BackfilledStage(strategy, ctx, s, a);
    RoundAsksInOrder(strategy, ctx, s, a);
    var r, malleable, t := Backfilled(strategy, ctx, s, a), RunningMalleable(s.jobs), AfterShrinking(strategy, ctx, s, a);
    FirstWaitingIsServedByTurns(strategy, ctx, s, malleable, r, t);
  }

  lemma FirstWaitingIsServedByTurns(strategy: Strategy, ctx: Ctx, s0: Sys, malleable: seq<int>, r: Round, t: Round)
    requires RoundOk(strategy, false, s0, r, -1) && !ctx.cfg.loaded && r.pending != []
    requires DonationTurns(strategy, ctx, r.sys, malleable, r, r.pending, t) && forall j :: j in malleable ==> 0 <= j < |r.sys.jobs|
    ensures var p := r.pending[0]; 0 <= p < |r.sys.jobs| && |t.agreements.NodesOf(p)| == Wanted(strategy, r.sys, r.agreements, malleable, r.sys.jobs[p]).0
  {
    var p := r.pending[0];
    HeadAndTail(r.pending);
    hide Gives;
    hide AllSupport;
    hide Wanted;
    var u: Round :| DonationTurn(strategy, ctx, r.sys, malleable, r, u, p) && DonationTurns(strategy, ctx, r.sys, malleable, u, r.pending[1..], t);
    var ds: seq<Donation> :| DonatesFor(strategy, ctx, r.sys, malleable, r, u, p, ds);
    NobodyRefusesWithoutPolicy(strategy, ctx, s0, MeasuredAt(strategy, r.sys, r.sys), malleable, Wanted(strategy, r.sys, r.agreements, malleable, r.sys.jobs[p]).1, r, p, ds);
    TurnsKeepOthers(strategy, ctx, r.sys, malleable, u, r.pending[1..], t, p);
  }
}
