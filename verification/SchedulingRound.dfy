/** One scheduling round as values: resolve agreements, allocate, shrink for the jobs still
    waiting, expand with what is left. Four strategies share the round: they differ in how
    agreements are resolved, in when the donors are sorted, and in the sizes they aim at. */
module SchedulingRound {
  import opened Sequences
  import opened RuntimePrediction
  import opened ClusterState
  import opened ShutdownPolicy
  import opened AgreementMaps

  datatype Strategy = MinAgreement | MinStealAgreement | MinCommonPool | PrefStealAgreement
  {
    /** Does the strategy try the preferred size first? */
    predicate Prefers() {
      PrefStealAgreement?
    }

    /** The size by which running jobs are ranked. */
    function RankedBy(): Aim {
      if Prefers() then ToPref else ToMin
    }

    /** The largest size with which a pending job is started. */
    function StartSize(v: JobView): int {
      RankedBy().Of(v)
    }
  }

  datatype Aim = ToMin | ToPref | ToMax
  {
    function Of(v: JobView): int {
      match this
      case ToMin => v.nodesMin
      case ToPref => v.nodesPref
      case ToMax => v.nodesMax
    }
  }

  /** What does not change during a round. */
  datatype Context = Context(cfg: PolicyConfig, policy: PolicyState, now: real)
  {
    ghost predicate Valid() {
      now >= 0.0
    }
  }

  type Ctx = c: Context | c.Valid() witness Context(PolicyConfig(false, [], Simple, 0.0, 0, 0, 0, 0, false, 0, false, 0, 0, false, 0, ByMin, false), NO_POLICY_STATE, 0.0)

  /** The round's mutable lists beside the cluster and the agreements. */
  datatype Round = Round(sys: Sys, agreements: Agreements, pending: seq<int>, free: seq<int>, started: seq<int>)
  {
    ghost predicate Indexed() {
      && (forall j :: j in pending ==> 0 <= j < |sys.jobs|)
    }

    function Die(j: int): Round
      requires 0 <= j < |sys.jobs|
    {
      this.(sys := sys.Die(j))
    }
  }

  // ---- Queue and node filters --------------------------------------------------------------

  function FreeNodes(nodes: seq<NodeView>): (r: seq<int>)
    ensures Distinct(r) && forall i :: i in r <==> 0 <= i < |nodes| && nodes[i].state.NodeFree?
  {
    var p := i => 0 <= i < |nodes| && nodes[i].state.NodeFree?;
    FilterDistinct(p, Range(|nodes|));
    Filter(p, Range(|nodes|))
  }

  function PendingJobs(jobs: seq<JobView>): (r: seq<int>)
    ensures Distinct(r) && forall j :: j in r <==> 0 <= j < |jobs| && jobs[j].state.Pending?
  {
    var p := j => 0 <= j < |jobs| && jobs[j].state.Pending?;
    FilterDistinct(p, Range(|jobs|));
    Filter(p, Range(|jobs|))
  }

  function RunningJobs(jobs: seq<JobView>): (r: seq<int>)
    ensures Distinct(r) && forall j :: j in r <==> 0 <= j < |jobs| && jobs[j].state.Running?
  {
    var p := j => 0 <= j < |jobs| && jobs[j].state.Running?;
    FilterDistinct(p, Range(|jobs|));
    Filter(p, Range(|jobs|))
  }

  function WithAgreement(a: Agreements, jobs: seq<int>): seq<int> {
    Filter(j => a.HasJob(j), jobs)
  }

  function JobsWithoutAgreement(a: Agreements, jobs: seq<int>): seq<int> {
    Filter(j => !a.HasJob(j), jobs)
  }

  function NodesWithAgreement(a: Agreements, ns: seq<int>): (r: seq<int>)
    ensures Distinct(ns) ==> Distinct(r)
  {
    FilterDistinct(n => a.HasNode(n), ns);
    Filter(n => a.HasNode(n), ns)
  }

  function NodesWithoutAgreement(a: Agreements, ns: seq<int>): seq<int> {
    Filter(n => !a.HasNode(n), ns)
  }

  function ReservedFor(a: Agreements, j: int, ns: seq<int>): (r: seq<int>)
    ensures Distinct(ns) ==> Distinct(r)
  {
    FilterDistinct(n => n in a.NodesOf(j), ns);
    Filter(n => n in a.NodesOf(j), ns)
  }

  predicate Accepts(ctx: Ctx, nodes: seq<NodeView>, n: int, runtime: real, ignoreTargetPool: bool) {
    0 <= n < |nodes| && CanNodeAcceptJob(ctx.cfg, ctx.policy, nodes[n].state, n, runtime, ctx.now, ignoreTargetPool)
  }

  function Accepting(ctx: Ctx, nodes: seq<NodeView>, ns: seq<int>, runtime: real, ignoreTargetPool: bool): (r: seq<int>)
    ensures Distinct(ns) ==> Distinct(r)
  {
    FilterDistinct(n => Accepts(ctx, nodes, n, runtime, ignoreTargetPool), ns);
    Filter(n => Accepts(ctx, nodes, n, runtime, ignoreTargetPool), ns)
  }

  /** Planning a job on no node at all ends the simulation, as does asking for the remaining
      runtime of a job whose prediction was never initialised: callers that cannot rule this out
      have a branch in which the job dies. */
  function PlannedRuntime(v: JobView, plannedNodes: int): real
    requires plannedNodes > 0
  {
    v.profile.PredictedRuntimeForNodes(plannedNodes)
  }

  function PlannedRemainingRuntime(ctx: Ctx, v: JobView, plannedNodes: int): real
    requires plannedNodes > 0 && v.prediction.Prediction?
  {
    RemainingRuntimeForNodes(v.profile, v.prediction, plannedNodes, ctx.now)
  }

  function CurrentRemainingRuntime(ctx: Ctx, v: JobView): real
    requires v.prediction.Prediction?
  {
    PlannedRemainingRuntime(ctx, v, v.prediction.nodes)
  }

  function EligibleForPending(ctx: Ctx, s: Sys, j: int, ns: seq<int>, plannedNodes: int): seq<int>
    requires 0 <= j < |s.jobs| && plannedNodes > 0
  {
    Accepting(ctx, s.nodes, ns, PlannedRuntime(s.jobs[j], plannedNodes), false)
  }

  function EligibleForRunning(ctx: Ctx, s: Sys, j: int, ns: seq<int>, plannedNodes: int): seq<int>
    requires 0 <= j < |s.jobs| && plannedNodes > 0 && s.jobs[j].prediction.Prediction?
  {
    Accepting(ctx, s.nodes, ns, PlannedRemainingRuntime(ctx, s.jobs[j], plannedNodes), true)
  }

  // ---- Phase 1: agreements -----------------------------------------------------------------

  /** Start a job on nodes that an agreement gives it. */
  function ApplyAgreement(r: Round, j: int, ns: seq<int>): Round
    requires 0 <= j < |r.sys.jobs|
  {
    Round(r.sys.Start(j, ns), r.agreements, RemoveFirst(r.pending, j), RemoveEach(r.free, ns), r.started + [j])
  }

  function ResolveDirectOne(ctx: Ctx, r: Round, j: int): Round
    requires 0 <= j < |r.sys.jobs|
  {
    var reserved := r.agreements.NodesOf(j);
    var ns := ReservedFor(r.agreements, j, r.free);
    if |ns| != |reserved| then r
    else if |reserved| == 0 then r.Die(j)
    else if |EligibleForPending(ctx, r.sys, j, ns, |reserved|)| != |reserved| then r.(agreements := r.agreements.Remove(j))
    else ApplyAgreement(r, j, ns).(agreements := r.agreements.Remove(j))
  }

  /** Start a job on its reservation once the free reserved nodes were swapped in. */
  function AssignStolen(ctx: Ctx, r: Round, j: int, freeReserved: seq<int>, needed: nat): Round
    requires 0 <= j < |r.sys.jobs|
  {
    var ns := ReservedFor(r.agreements, j, freeReserved);
    if |ns| < needed then r
    else if needed == 0 then r.Die(j)
    else if |EligibleForPending(ctx, r.sys, j, ns, needed)| != needed then r.(agreements := r.agreements.Remove(j))
    else ApplyAgreement(r, j, ns).(agreements := r.agreements.Remove(j))
  }

  function ResolveStealOne(ctx: Ctx, r: Round, j: int): Round
    requires 0 <= j < |r.sys.jobs|
  {
    var freeReserved := NodesWithAgreement(r.agreements, r.free);
    var needed := |r.agreements.NodesOf(j)|;
    if needed > |freeReserved| then r
    else
      AssignStolen(ctx, r.(agreements := r.agreements.Steal(j, freeReserved)), j, freeReserved, needed)
  }

  function ResolvePoolOne(ctx: Ctx, r: Round, j: int): Round
    requires 0 <= j < |r.sys.jobs|
  {
    var needed := |r.agreements.NodesOf(j)|;
    if needed > |r.free| then r
    else if needed == 0 then r.Die(j)
    else
      var ns := r.agreements.SelectFromPool(j, EligibleForPending(ctx, r.sys, j, r.free, needed));
      if |ns| < needed then r
      else ApplyAgreement(r, j, ns).(agreements := r.agreements.FinalizePool(j, ns))
  }

  /** The loop over the jobs with agreements stops early when nothing (reserved) is free. */
  predicate StopsResolving(strategy: Strategy, r: Round) {
    match strategy
    case MinAgreement => false
    case MinStealAgreement => r.free == [] || NodesWithAgreement(r.agreements, r.free) == []
    case MinCommonPool => r.free == []
    case PrefStealAgreement => r.free == [] || NodesWithAgreement(r.agreements, r.free) == []
  }

  function ResolveOne(strategy: Strategy, ctx: Ctx, r: Round, j: int): (t: Round)
    requires 0 <= j < |r.sys.jobs|
    ensures |t.sys.jobs| == |r.sys.jobs| && |t.sys.nodes| == |r.sys.nodes|
    ensures forall k :: k in t.pending ==> k in r.pending
  {
    match strategy
    case MinAgreement => ResolveDirectOne(ctx, r, j)
    case MinStealAgreement => ResolveStealOne(ctx, r, j)
    case MinCommonPool => ResolvePoolOne(ctx, r, j)
    case PrefStealAgreement => ResolveStealOne(ctx, r, j)
  }

  function Resolve(strategy: Strategy, ctx: Ctx, r: Round, targets: seq<int>): (t: Round)
    requires forall j :: j in targets ==> 0 <= j < |r.sys.jobs|
    ensures |t.sys.jobs| == |r.sys.jobs| && |t.sys.nodes| == |r.sys.nodes|
    ensures forall k :: k in t.pending ==> k in r.pending
    decreases |targets|
  {
    if targets == [] || StopsResolving(strategy, r) then r
    else
      assert targets[0] in targets && forall j :: j in targets[1..] ==> j in targets;
      Resolve(strategy, ctx, ResolveOne(strategy, ctx, r, targets[0]), targets[1..])
  }

  // ---- Phase 2: allocation with backfilling ------------------------------------------------

  /** The remaining runtimes of the listed jobs can be predicted. */
  predicate HavePredictions(s: Sys, running: seq<int>) {
    forall k :: k in running ==> 0 <= k < |s.jobs| && s.jobs[k].prediction.Prediction?
  }

  /** Walk over the running jobs, soonest end first, until enough nodes are gathered. */
  function HeadStart(ctx: Ctx, s: Sys, running: seq<int>, needed: int, start: real): (int, real)
    requires HavePredictions(s, running)
    decreases |running|
  {
    if running == [] || needed <= 0 then (needed, start)
    else
      assert running[0] in running && forall j :: j in running[1..] ==> j in running;
      var v := s.jobs[running[0]];
      HeadStart(ctx, s, running[1..], needed - |v.assignedNodes|, ctx.now + CurrentRemainingRuntime(ctx, v))
  }

  predicate DelaysHead(ctx: Ctx, s: Sys, j: int, head: int, freeForHead: int, running: seq<int>)
    requires 0 <= j < |s.jobs| && 0 <= head < |s.jobs| && s.jobs[head].nodesMin > 0 && HavePredictions(s, running)
  {
    && j != head
    && var (needed, start) := HeadStart(ctx, s, running, s.jobs[j].nodesMin - freeForHead, ctx.now);
       needed <= 0 && start < PlannedRuntime(s.jobs[head], s.jobs[head].nodesMin)
  }

  predicate SamePredictions(s: Sys, t: Sys) {
    |t.jobs| == |s.jobs| && forall k :: 0 <= k < |s.jobs| ==> t.jobs[k].prediction == s.jobs[k].prediction
  }

  /** The job at index `i` starts and is erased from the queue. */
  function BackfillStart(r: Round, i: nat, ns: seq<int>): (t: Round)
    requires r.Indexed() && i < |r.pending|
    ensures t.Indexed() && |t.sys.jobs| == |r.sys.jobs| && |t.sys.nodes| == |r.sys.nodes| && |t.pending| <= |r.pending|
    ensures SamePredictions(r.sys, t.sys)
  {
    assert r.pending[i] in r.pending;
    var pending := r.pending[..i] + r.pending[i + 1..];
    assert forall k :: k in pending ==> k in r.pending;
    Round(r.sys.Start(r.pending[i], ns), r.agreements, pending, RemoveEach(r.free, ns), r.started + [r.pending[i]])
  }

  /** One turn of the backfilling loop: start the job at index `i` unless it would delay the head. */
  function BackfillAtMinimum(ctx: Ctx, r: Round, i: nat, running: seq<int>): (t: Round)
    requires r.Indexed() && i < |r.pending| && HavePredictions(r.sys, running)
    ensures t.Indexed() && |t.sys.jobs| == |r.sys.jobs| && |t.sys.nodes| == |r.sys.nodes| && |t.pending| <= |r.pending|
    ensures SamePredictions(r.sys, t.sys)
  {
    var j, head := r.pending[i], r.pending[0];
    assert j in r.pending && head in r.pending;
    var needed, headNodes := r.sys.jobs[j].nodesMin, r.sys.jobs[head].nodesMin;
    if needed <= 0 then r.Die(j)
    else
      var eligible := EligibleForPending(ctx, r.sys, j, r.free, needed);
      if |eligible| < needed then r
      else if headNodes <= 0 then r.Die(head)
      else if DelaysHead(ctx, r.sys, j, head, |EligibleForPending(ctx, r.sys, head, r.free, headNodes)|, running) then r
      else BackfillStart(r, i, eligible[..needed])
  }

  /** Both sizes can be planned for. */
  predicate HasSizes(v: JobView) {
    v.nodesMin > 0 && v.nodesPref > 0
  }

  /** The preferred size if enough nodes accept the job on it, else the minimum, else zero; and
      the nodes that accept it. */
  function PreferredStart(ctx: Ctx, s: Sys, j: int, free: seq<int>): (int, seq<int>)
    requires 0 <= j < |s.jobs| && HasSizes(s.jobs[j])
  {
    var v := s.jobs[j];
    var eligible := EligibleForPending(ctx, s, j, free, v.nodesPref);
    if v.nodesPref <= |eligible| then (v.nodesPref, eligible)
    else
      var enough := EligibleForPending(ctx, s, j, free, v.nodesMin);
      (if v.nodesMin <= |enough| then v.nodesMin else 0, enough)
  }

  /** How many nodes the head could have now, and its runtime on what it would take; none if it
      could not start. */
  function HeadPlan(ctx: Ctx, s: Sys, head: int, free: seq<int>): (int, real)
    requires 0 <= head < |s.jobs| && HasSizes(s.jobs[head])
  {
    var v := s.jobs[head];
    var (size, eligible) := PreferredStart(ctx, s, head, free);
    (|eligible|, if size > 0 then PlannedRuntime(v, size) else 0.0)
  }

  predicate PreferredDelaysHead(ctx: Ctx, s: Sys, j: int, size: int, head: int, plan: (int, real), running: seq<int>)
    requires 0 <= j < |s.jobs| && 0 <= head < |s.jobs| && HavePredictions(s, running)
  {
    && j != head && plan.1 > 0.0
    && var (needed, start) := HeadStart(ctx, s, running, size - plan.0, ctx.now);
       needed <= 0 && start < plan.1
  }

  function BackfillPreferred(ctx: Ctx, r: Round, i: nat, running: seq<int>): (t: Round)
    requires r.Indexed() && i < |r.pending| && HavePredictions(r.sys, running)
    ensures t.Indexed() && |t.sys.jobs| == |r.sys.jobs| && |t.sys.nodes| == |r.sys.nodes| && |t.pending| <= |r.pending|
    ensures SamePredictions(r.sys, t.sys)
  {
    var j, head := r.pending[i], r.pending[0];
    assert j in r.pending && head in r.pending;
    if !HasSizes(r.sys.jobs[j]) then r.Die(j)
    else
      var (size, eligible) := PreferredStart(ctx, r.sys, j, r.free);
      if !(0 < size <= |eligible|) then r
      else if !HasSizes(r.sys.jobs[head]) then r.Die(head)
      else if PreferredDelaysHead(ctx, r.sys, j, size, head, HeadPlan(ctx, r.sys, head, r.free), running) then r
      else BackfillStart(r, i, eligible[..size])
  }

  function BackfillOne(strategy: Strategy, ctx: Ctx, r: Round, i: nat, running: seq<int>): (t: Round)
    requires r.Indexed() && i < |r.pending| && HavePredictions(r.sys, running)
    ensures t.Indexed() && |t.sys.jobs| == |r.sys.jobs| && |t.sys.nodes| == |r.sys.nodes| && |t.pending| <= |r.pending|
    ensures SamePredictions(r.sys, t.sys)
  {
    if strategy.Prefers() then BackfillPreferred(ctx, r, i, running) else BackfillAtMinimum(ctx, r, i, running)
  }

  /** The index moves on after a job was erased, too, so the job behind it is skipped. */
  function Backfill(strategy: Strategy, ctx: Ctx, r: Round, i: nat, running: seq<int>): (t: Round)
    requires r.Indexed() && HavePredictions(r.sys, running)
    ensures t.Indexed() && |t.sys.jobs| == |r.sys.jobs| && |t.sys.nodes| == |r.sys.nodes|
    decreases |r.pending| - i
  {
    if i >= |r.pending| || r.free == [] then r
    else Backfill(strategy, ctx, BackfillOne(strategy, ctx, r, i, running), i + 1, running)
  }

  function BySoonestEnd(ctx: Ctx, s: Sys, jobs: seq<int>): (r: seq<int>)
    ensures forall j :: j in r <==> j in jobs
  {
    var key := j => if 0 <= j < |s.jobs| && s.jobs[j].prediction.Prediction? then CurrentRemainingRuntime(ctx, s.jobs[j]) else 0.0;
    StableSortMembers(jobs, key);
    StableSort(jobs, key)
  }

  function SoonestEndFirst(ctx: Ctx, s: Sys): (r: seq<int>)
    ensures forall j :: j in r ==> 0 <= j < |s.jobs| && s.jobs[j].state.Running?
  {
    BySoonestEnd(ctx, s, RunningJobs(s.jobs))
  }

  // ---- Phase 3: shrinking ------------------------------------------------------------------

  datatype Donation = Donation(donor: int, nodes: seq<int>)

  /** The unreserved nodes a job holds beyond the given size, in list order. */
  function Surplus(s: Sys, a: Agreements, j: int, aim: Aim): seq<int> {
    if 0 <= j < |s.jobs| && 0 <= aim.Of(s.jobs[j]) < |s.jobs[j].assignedNodes| then
      NodesWithoutAgreement(a, s.jobs[j].assignedNodes[aim.Of(s.jobs[j])..])
    else []
  }

  function AllocateResourcesFromJob(s: Sys, a: Agreements, j: int, required: int, aim: Aim): (r: seq<int>)
    ensures r != [] ==> 0 <= j < |s.jobs|
  {
    var surplus := Surplus(s, a, j, aim);
    if required <= 0 then [] else surplus[..if required < |surplus| then required else |surplus|]
  }

  /** Only a donor that offers something is listed. */
  function Prepend(donor: int, ns: seq<int>, rest: seq<Donation>): seq<Donation> {
    if ns == [] then rest else [Donation(donor, ns)] + rest
  }

  function CollectDonations(s: Sys, a: Agreements, donors: seq<int>, required: int, aim: Aim): (r: seq<Donation>)
    ensures forall k :: 0 <= k < |r| ==> 0 <= r[k].donor < |s.jobs|
    decreases |donors|
  {
    if donors == [] || required <= 0 then []
    else
      var ns := AllocateResourcesFromJob(s, a, donors[0], required, aim);
      Prepend(donors[0], ns, CollectDonations(s, a, donors[1..], required - |ns|, aim))
  }

  function TotalDonated(ds: seq<Donation>): nat {
    if ds == [] then 0 else |ds[0].nodes| + TotalDonated(ds[1..])
  }

  function SelectShrinkJobs(s: Sys, a: Agreements, donors: seq<int>, required: int, aim: Aim): (r: seq<Donation>)
    ensures forall k :: 0 <= k < |r| ==> 0 <= r[k].donor < |s.jobs|
  {
    var ds := CollectDonations(s, a, donors, required, aim);
    if TotalDonated(ds) >= required then ds else []
  }

  /** For its preferred size donors only go down to theirs; for its minimum they first do, too,
      and then go down to their minimum. */
  function SelectForPreference(s: Sys, a: Agreements, donors: seq<int>, v: JobView): (r: seq<Donation>)
    ensures forall k :: 0 <= k < |r| ==> 0 <= r[k].donor < |s.jobs|
  {
    var preferred := SelectShrinkJobs(s, a, donors, v.nodesPref, ToPref);
    if preferred != [] then preferred
    else
      var gentle := SelectShrinkJobs(s, a, donors, v.nodesMin, ToPref);
      if gentle != [] then gentle else SelectShrinkJobs(s, a, donors, v.nodesMin, ToMin)
  }

  function SelectDonations(strategy: Strategy, s: Sys, a: Agreements, donors: seq<int>, v: JobView): (r: seq<Donation>)
    ensures forall k :: 0 <= k < |r| ==> 0 <= r[k].donor < |s.jobs|
  {
    if strategy.Prefers() then SelectForPreference(s, a, donors, v) else SelectShrinkJobs(s, a, donors, v.nodesMin, ToMin)
  }

  /** Drop nodes until every remaining one accepts the job on as many nodes as remain. */
  function FilterForReservation(ctx: Ctx, s: Sys, j: int, ns: seq<int>): seq<int>
    requires 0 <= j < |s.jobs|
    decreases |ns|
  {
    if ns == [] then ns
    else
      var filtered := EligibleForPending(ctx, s, j, ns, |ns|);
      if |filtered| == |ns| then ns else FilterForReservation(ctx, s, j, filtered)
  }

  function ApplyDonation(ctx: Ctx, r: Round, d: Donation, pendingJob: int): Round
    requires 0 <= d.donor < |r.sys.jobs| && 0 <= pendingJob < |r.sys.jobs|
  {
    var ns := FilterForReservation(ctx, r.sys, pendingJob, d.nodes);
    if ns == [] then r
    else r.(agreements := r.agreements.Add(pendingJob, ns, |ns|), sys := r.sys.ShrinkBy(d.donor, ns))
  }

  function ApplyShrinking(ctx: Ctx, r: Round, ds: seq<Donation>, pendingJob: int): (t: Round)
    requires 0 <= pendingJob < |r.sys.jobs| && forall k :: 0 <= k < |ds| ==> 0 <= ds[k].donor < |r.sys.jobs|
    ensures |t.sys.jobs| == |r.sys.jobs| && |t.sys.nodes| == |r.sys.nodes|
    decreases |ds|
  {
    if ds == [] then r
    else
      ApplyShrinking(ctx, ApplyDonation(ctx, r, ds[0], pendingJob), ds[1..], pendingJob)
  }

  function Beyond(s: Sys, j: int, aim: Aim): real {
    if 0 <= j < |s.jobs| then (|s.jobs[j].assignedNodes| - aim.Of(s.jobs[j])) as real else 0.0
  }

  function MostSurplusFirst(s: Sys, jobs: seq<int>, aim: Aim): (r: seq<int>)
    ensures (forall j :: j in r <==> j in jobs) && (Distinct(jobs) ==> Distinct(r))
  {
    StableSortMembers(jobs, j => -Beyond(s, j, aim));
    StableSort(jobs, j => -Beyond(s, j, aim))
  }

  function LeastSurplusFirst(s: Sys, jobs: seq<int>, aim: Aim): (r: seq<int>)
    ensures (forall j :: j in r <==> j in jobs) && (Distinct(jobs) ==> Distinct(r))
  {
    StableSortMembers(jobs, j => Beyond(s, j, aim));
    StableSort(jobs, j => Beyond(s, j, aim))
  }

  /** Two strategies sort the donors anew for every pending job. */
  function DonorOrder(strategy: Strategy, s: Sys, sorted: seq<int>, malleable: seq<int>): seq<int> {
    if strategy.MinCommonPool? || strategy.Prefers() then MostSurplusFirst(s, malleable, strategy.RankedBy()) else sorted
  }

  function ShrinkForOne(strategy: Strategy, ctx: Ctx, r: Round, pendingJob: int, sorted: seq<int>, malleable: seq<int>): (t: Round)
    requires 0 <= pendingJob < |r.sys.jobs|
    requires (forall j :: j in sorted ==> 0 <= j < |r.sys.jobs|) && (forall j :: j in malleable ==> 0 <= j < |r.sys.jobs|)
    ensures |t.sys.jobs| == |r.sys.jobs| && |t.sys.nodes| == |r.sys.nodes|
  {
    var donors := DonorOrder(strategy, r.sys, sorted, malleable);
    ApplyShrinking(ctx, r, SelectDonations(strategy, r.sys, r.agreements, donors, r.sys.jobs[pendingJob]), pendingJob)
  }

  function ShrinkForPending(strategy: Strategy, ctx: Ctx, r: Round, waiting: seq<int>, sorted: seq<int>, malleable: seq<int>): (t: Round)
    requires forall j :: j in waiting ==> 0 <= j < |r.sys.jobs|
    requires (forall j :: j in sorted ==> 0 <= j < |r.sys.jobs|) && (forall j :: j in malleable ==> 0 <= j < |r.sys.jobs|)
    ensures |t.sys.jobs| == |r.sys.jobs| && |t.sys.nodes| == |r.sys.nodes|
    decreases |waiting|
  {
    if waiting == [] then r
    else
      assert waiting[0] in waiting && forall j :: j in waiting[1..] ==> j in waiting;
      ShrinkForPending(strategy, ctx, ShrinkForOne(strategy, ctx, r, waiting[0], sorted, malleable), waiting[1..], sorted, malleable)
  }

  // ---- Phase 4: expansion ------------------------------------------------------------------

  /** The largest expansion, counting the target down, for which enough nodes accept the job. */
  function ExpansionFor(ctx: Ctx, s: Sys, j: int, free: seq<int>, candidate: int): seq<int>
    requires 0 <= j < |s.jobs| && s.jobs[j].prediction.Prediction?
    decreases candidate
  {
    var extra := candidate - |s.jobs[j].assignedNodes|;
    if extra <= 0 then []
    else
      var eligible := EligibleForRunning(ctx, s, j, free, candidate);
      if |eligible| < extra then ExpansionFor(ctx, s, j, free, candidate - 1) else eligible[..extra]
  }

  function Grow(r: Round, j: int, added: seq<int>): (t: Round)
    requires 0 <= j < |r.sys.jobs|
    ensures |t.sys.jobs| == |r.sys.jobs| && |t.sys.nodes| == |r.sys.nodes| && t.agreements == r.agreements
  {
    if added == [] then r else r.(sys := r.sys.ExpandBy(j, added), free := RemoveEach(r.free, added))
  }

  /** The minimum strategies cap the target by the free nodes. */
  function ExpansionTarget(strategy: Strategy, r: Round, j: int, aim: Aim): int
    requires 0 <= j < |r.sys.jobs|
  {
    var v := r.sys.jobs[j];
    if !strategy.Prefers() && |v.assignedNodes| + |r.free| < aim.Of(v) then |v.assignedNodes| + |r.free| else aim.Of(v)
  }

  function ExpandJob(strategy: Strategy, ctx: Ctx, r: Round, j: int, aim: Aim): (t: Round)
    requires 0 <= j < |r.sys.jobs|
    ensures |t.sys.jobs| == |r.sys.jobs| && |t.sys.nodes| == |r.sys.nodes|
  {
    var target := ExpansionTarget(strategy, r, j, aim);
    if r.free == [] || target <= |r.sys.jobs[j].assignedNodes| then r
    else if r.sys.jobs[j].prediction.NoPrediction? then r.Die(j)
    else Grow(r, j, ExpansionFor(ctx, r.sys, j, r.free, target))
  }

  function ExpandJobs(strategy: Strategy, ctx: Ctx, r: Round, jobs: seq<int>, aim: Aim): (t: Round)
    requires forall j :: j in jobs ==> 0 <= j < |r.sys.jobs|
    ensures |t.sys.jobs| == |r.sys.jobs| && |t.sys.nodes| == |r.sys.nodes|
    decreases |jobs|
  {
    if jobs == [] || r.free == [] then r
    else
      assert jobs[0] in jobs && forall j :: j in jobs[1..] ==> j in jobs;
      ExpandJobs(strategy, ctx, ExpandJob(strategy, ctx, r, jobs[0], aim), jobs[1..], aim)
  }

  /** All jobs grow towards the aim, those with the least surplus first. */
  function ExpandTo(strategy: Strategy, ctx: Ctx, r: Round, malleable: seq<int>, aim: Aim): (t: Round)
    requires forall j :: j in malleable ==> 0 <= j < |r.sys.jobs|
    ensures |t.sys.jobs| == |r.sys.jobs| && |t.sys.nodes| == |r.sys.nodes|
  {
    if r.free == [] then r else ExpandJobs(strategy, ctx, r, LeastSurplusFirst(r.sys, malleable, strategy.RankedBy()), aim)
  }

  // ---- The round ---------------------------------------------------------------------------

  function BeginRound(s: Sys, a: Agreements): (r: Round)
    ensures r.Indexed()
  {
    Round(s, a, PendingJobs(s.jobs), FreeNodes(s.nodes), [])
  }

  function ResolvePhase(strategy: Strategy, ctx: Ctx, r: Round): (t: Round)
    requires r.Indexed()
    ensures t.Indexed() && |t.sys.jobs| == |r.sys.jobs| && |t.sys.nodes| == |r.sys.nodes|
  {
    Resolve(strategy, ctx, r, WithAgreement(r.agreements, r.pending))
  }

  /** From here on the lists hold only jobs and nodes without an agreement. */
  function WithoutAgreements(r: Round): (t: Round)
    ensures t.sys == r.sys && (r.Indexed() ==> t.Indexed())
  {
    r.(pending := JobsWithoutAgreement(r.agreements, r.pending), free := NodesWithoutAgreement(r.agreements, r.free))
  }

  /** Sorting and walking ask for the remaining runtimes of running jobs. */
  function AllocatePhase(strategy: Strategy, ctx: Ctx, r: Round, running: seq<int>): (t: Round)
    requires r.Indexed() && forall j :: j in running ==> 0 <= j < |r.sys.jobs|
    ensures t.Indexed() && |t.sys.jobs| == |r.sys.jobs| && |t.sys.nodes| == |r.sys.nodes|
  {
    var unpredicted := Filter(k => 0 <= k < |r.sys.jobs| && r.sys.jobs[k].prediction.NoPrediction?, running);
    if r.pending == [] || r.free == [] then r
    else if unpredicted != [] then
      assert unpredicted[0] in unpredicted;
      r.Die(unpredicted[0])
    else Backfill(strategy, ctx, r, 0, running)
  }

  function ShrinkPhase(strategy: Strategy, ctx: Ctx, r: Round, malleable: seq<int>): (t: Round)
    requires r.Indexed() && forall j :: j in malleable ==> 0 <= j < |r.sys.jobs|
    ensures |t.sys.jobs| == |r.sys.jobs| && |t.sys.nodes| == |r.sys.nodes|
  {
    if r.pending == [] || malleable == [] then r
    else ShrinkForPending(strategy, ctx, r, r.pending, MostSurplusFirst(r.sys, malleable, strategy.RankedBy()), malleable)
  }

  /** The preferring strategy first brings jobs to their preferred size, then beyond. */
  function ExpandPhase(strategy: Strategy, ctx: Ctx, r: Round, malleable: seq<int>): (t: Round)
    requires forall j :: j in malleable ==> 0 <= j < |r.sys.jobs|
    ensures |t.sys.jobs| == |r.sys.jobs| && |t.sys.nodes| == |r.sys.nodes|
  {
    if r.free == [] || malleable == [] then r
    else
      var t := if strategy.Prefers() then ExpandTo(strategy, ctx, r, malleable, ToPref) else r;
      ExpandTo(strategy, ctx, t, malleable, ToMax)
  }

  /** The whole round. The lists of running jobs are those of its beginning. */
  function ScheduleRound(strategy: Strategy, ctx: Ctx, s: Sys, a: Agreements): (t: Round)
    ensures |t.sys.jobs| == |s.jobs| && |t.sys.nodes| == |s.nodes|
  {
    var malleable := RunningMalleable(s.jobs);
    var resolved := WithoutAgreements(ResolvePhase(strategy, ctx, BeginRound(s, a)));
    var backfilled := AllocatePhase(strategy, ctx, resolved, SoonestEndFirst(ctx, s));
    ExpandPhase(strategy, ctx, ShrinkPhase(strategy, ctx, backfilled, malleable), malleable)
  }
}
