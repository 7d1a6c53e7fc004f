/** What expansion must do. At its turn a job grows as far as enough free nodes accept it; jobs with
    less beyond the ranking size have their turn first; the preferring strategy first brings all
    jobs towards their preferred size and then beyond. */
module ExpansionProgress {
  import opened Sequences
  import opened RuntimePrediction
  import opened ClusterState
  import opened ClusterInvariant
  import opened ShutdownPolicy
  import opened AgreementMaps
  import opened SchedulingRound
  import opened RoundInvariant
  import opened RoundProperties
  import opened Scheduler
  import opened Runs
  import opened ReservationHistory
  import opened ReservedStarts
  import opened ResolvingProgress
  import opened BackfillProgress
  import opened DonorProgress

  // ---- One turn --------------------------------------------------------------------------------

  /** The free nodes that accept the job's remaining runtime on `size` nodes, in list order; the
      target pool is ignored. */
  ghost function Welcoming(ctx: Ctx, s: Sys, j: int, free: seq<int>, size: int): seq<int>
    requires 0 <= j < |s.jobs| && size > 0 && s.jobs[j].prediction.Prediction?
  {
    Filter(n => Accepts(ctx, s.nodes, n, RemainingRuntimeForNodes(s.jobs[j].profile, s.jobs[j].prediction, size, ctx.now), true), free)
  }

  ghost predicate CanGrowTo(ctx: Ctx, s: Sys, j: int, free: seq<int>, size: int)
    requires 0 <= j < |s.jobs| && s.jobs[j].prediction.Prediction?
  {
    var current := |s.jobs[j].assignedNodes|;
    current < size && |Welcoming(ctx, s, j, free, size)| >= size - current
  }

  /** The job grows to the largest size up to the limit that it can grow to, by the first nodes that
      accept it there; nothing else changes. */
  ghost predicate GrowsMost(ctx: Ctx, r: Round, t: Round, j: int, limit: int)
    requires 0 <= j < |r.sys.jobs| && r.sys.jobs[j].prediction.Prediction?
  {
    || (t == r && forall size :: size <= limit ==> !CanGrowTo(ctx, r.sys, j, r.free, size))
    || exists size :: GrowsTo(ctx, r, t, j, limit, size)
  }

  ghost predicate GrowsTo(ctx: Ctx, r: Round, t: Round, j: int, limit: int, size: int)
    requires 0 <= j < |r.sys.jobs| && r.sys.jobs[j].prediction.Prediction?
  {
    && size <= limit && CanGrowTo(ctx, r.sys, j, r.free, size)
    && (forall larger :: size < larger <= limit ==> !CanGrowTo(ctx, r.sys, j, r.free, larger))
    && GrowsBy(r, t, j, Added(ctx, r.sys, j, r.free, size))
  }

  /** The first nodes that accept the job on the size it grows to, as many as it needs. */
  ghost function Added(ctx: Ctx, s: Sys, j: int, free: seq<int>, size: int): seq<int>
    requires 0 <= j < |s.jobs| && s.jobs[j].prediction.Prediction? && CanGrowTo(ctx, s, j, free, size)
  {
    Welcoming(ctx, s, j, free, size)[..size - |s.jobs[j].assignedNodes|]
  }

  ghost predicate GrowsBy(r: Round, t: Round, j: int, added: seq<int>)
    requires 0 <= j < |r.sys.jobs|
  {
    t == Round(r.sys.ExpandBy(j, added), r.agreements, r.pending, RemoveEach(r.free, added), r.started)
  }

  lemma EligibleAreWelcoming(ctx: Ctx, s: Sys, j: int, free: seq<int>, size: int)
    requires 0 <= j < |s.jobs| && size > 0 && s.jobs[j].prediction.Prediction?
    ensures EligibleForRunning(ctx, s, j, free, size) == Welcoming(ctx, s, j, free, size)
  {
    var runtime := PlannedRemainingRuntime(ctx, s.jobs[j], size);
    SameFilter(n => Accepts(ctx, s.nodes, n, runtime, true),
               n => Accepts(ctx, s.nodes, n, RemainingRuntimeForNodes(s.jobs[j].profile, s.jobs[j].prediction, size, ctx.now), true), free);
  }

  /** The size that counting down from a candidate stops at, or none. */
  lemma {:induction false} CountsDownToLargest(ctx: Ctx, s: Sys, j: int, free: seq<int>, candidate: int) returns (size: int)
    requires 0 <= j < |s.jobs| && s.jobs[j].prediction.Prediction?
    ensures var current := |s.jobs[j].assignedNodes|;
      && size <= candidate && (forall larger :: size < larger <= candidate ==> !CanGrowTo(ctx, s, j, free, larger))
      && (if size > current then CanGrowTo(ctx, s, j, free, size) && ExpansionFor(ctx, s, j, free, candidate) == Welcoming(ctx, s, j, free, size)[..size - current]
          else ExpansionFor(ctx, s, j, free, candidate) == [])
    decreases candidate
  {
    hide Welcoming;
    hide EligibleForRunning;
    size := candidate;
    if candidate > |s.jobs[j].assignedNodes| {
      EligibleAreWelcoming(ctx, s, j, free, candidate);
      if !CanGrowTo(ctx, s, j, free, candidate) { size := CountsDownToLargest(ctx, s, j, free, candidate - 1); }
    }
  }

  lemma CannotOutgrowFree(ctx: Ctx, s: Sys, j: int, free: seq<int>, size: int)
    requires 0 <= j < |s.jobs| && s.jobs[j].prediction.Prediction? && size > |s.jobs[j].assignedNodes| + |free|
    ensures !CanGrowTo(ctx, s, j, free, size)
  {
  }

  /** How far a job may grow: to its preferred size, or to its maximum. */
  ghost function Limit(v: JobView, preferred: bool): int {
    if preferred then v.nodesPref else v.nodesMax
  }

  lemma NothingBeyondFree(ctx: Ctx, s: Sys, j: int, free: seq<int>, limit: int)
    requires 0 <= j < |s.jobs| && s.jobs[j].prediction.Prediction?
    ensures forall size :: |s.jobs[j].assignedNodes| + |free| < size <= limit ==> !CanGrowTo(ctx, s, j, free, size)
    ensures forall size :: size <= |s.jobs[j].assignedNodes| ==> !CanGrowTo(ctx, s, j, free, size)
  {
    forall size | |s.jobs[j].assignedNodes| + |free| < size <= limit ensures !CanGrowTo(ctx, s, j, free, size) {
      CannotOutgrowFree(ctx, s, j, free, size);
    }
  }

  /** At its turn a job grows as far as it can. */
  lemma ExpandTurnExactly(strategy: Strategy, ctx: Ctx, r: Round, j: int, preferred: bool)
    requires 0 <= j < |r.sys.jobs| && r.sys.jobs[j].prediction.Prediction?
    ensures GrowsMost(ctx, r, ExpandJob(strategy, ctx, r, j, if preferred then ToPref else ToMax), j, Limit(r.sys.jobs[j], preferred))
  {
    var aim := if preferred then ToPref else ToMax;
    var t, v, limit, target := ExpandJob(strategy, ctx, r, j, aim), r.sys.jobs[j], Limit(r.sys.jobs[j], preferred), ExpansionTarget(strategy, r, j, aim);
    NothingBeyondFree(ctx, r.sys, j, r.free, limit);
    if r.free != [] && target > |v.assignedNodes| {
      var size := CountsDownToLargest(ctx, r.sys, j, r.free, target);
      hide ExpansionFor;
      GrowthIsMost(ctx, r, ExpansionFor(ctx, r.sys, j, r.free, target), j, limit, target, size);
    }
  }

  lemma GrowthIsMost(ctx: Ctx, r: Round, added: seq<int>, j: int, limit: int, target: int, size: int)
    requires 0 <= j < |r.sys.jobs| && r.sys.jobs[j].prediction.Prediction?
    requires size <= target <= limit && forall larger :: size < larger <= limit ==> !CanGrowTo(ctx, r.sys, j, r.free, larger)
    requires var current := |r.sys.jobs[j].assignedNodes|;
      if size > current then CanGrowTo(ctx, r.sys, j, r.free, size) && added == Welcoming(ctx, r.sys, j, r.free, size)[..size - current] else added == []
    ensures GrowsMost(ctx, r, Grow(r, j, added), j, limit)
  {
    hide Welcoming;
    if size > |r.sys.jobs[j].assignedNodes| {
      assert GrowsTo(ctx, r, Grow(r, j, added), j, limit, size);
    }
  }

  // ---- One sweep over the jobs -----------------------------------------------------------------

  /** The jobs are active and can be predicted, and the free nodes are distinct ones of the cluster. */
  ghost predicate Ready(r: Round, jobs: seq<int>) {
    && (forall j :: j in jobs ==> 0 <= j < |r.sys.jobs| && r.sys.jobs[j].prediction.Prediction? && r.sys.jobs[j].Active())
    && Distinct(r.free) && forall n :: n in r.free ==> 0 <= n < |r.sys.nodes|
  }

  /** All listed jobs have their turn, one after the other. */
  ghost predicate GrowTurns(ctx: Ctx, r: Round, jobs: seq<int>, preferred: bool, t: Round)
    requires Ready(r, jobs)
    decreases |jobs|
  {
    if jobs == [] then t == r
    else
      assert jobs[0] in jobs;
      exists u: Round :: Ready(u, jobs[1..]) && GrowsMost(ctx, r, u, jobs[0], Limit(r.sys.jobs[jobs[0]], preferred)) && GrowTurns(ctx, u, jobs[1..], preferred, t)
  }

  lemma GrownTo(ctx: Ctx, r: Round, t: Round, j: int, limit: int) returns (size: int)
    requires 0 <= j < |r.sys.jobs| && r.sys.jobs[j].prediction.Prediction? && GrowsMost(ctx, r, t, j, limit) && t != r
    ensures GrowsTo(ctx, r, t, j, limit, size)
  {
    hide GrowsTo;
    size :| GrowsTo(ctx, r, t, j, limit, size);
  }

  /** The nodes by which a job grows are free ones. */
  lemma GrowthIsFree(ctx: Ctx, r: Round, t: Round, j: int, limit: int) returns (size: int, added: seq<int>)
    requires 0 <= j < |r.sys.jobs| && r.sys.jobs[j].prediction.Prediction? && Distinct(r.free) && GrowsMost(ctx, r, t, j, limit) && t != r
    ensures GrowsTo(ctx, r, t, j, limit, size) && GrowsBy(r, t, j, added) && |added| == size - |r.sys.jobs[j].assignedNodes|
    ensures added != [] && Distinct(added) && (forall n :: n in added ==> n in r.free)
  {
    hide GrowsMost;
    hide GrowsBy;
    size := GrownTo(ctx, r, t, j, limit);
    FirstWelcoming(ctx, r.sys, j, r.free, size);
    hide CanGrowTo;
    hide Added;
    added := Added(ctx, r.sys, j, r.free, size);
  }

  lemma FirstWelcoming(ctx: Ctx, s: Sys, j: int, free: seq<int>, size: int)
    requires 0 <= j < |s.jobs| && s.jobs[j].prediction.Prediction? && Distinct(free) && CanGrowTo(ctx, s, j, free, size)
    ensures var added := Added(ctx, s, j, free, size);
      added != [] && Distinct(added) && |added| == size - |s.jobs[j].assignedNodes| && forall n :: n in added ==> n in free
  {
    FilterDistinct(n => Accepts(ctx, s.nodes, n, RemainingRuntimeForNodes(s.jobs[j].profile, s.jobs[j].prediction, size, ctx.now), true), free);
    DistinctPrefix(Welcoming(ctx, s, j, free, size), size - |s.jobs[j].assignedNodes|);
  }

  lemma GrowsByEffect(r: Round, t: Round, j: int, added: seq<int>)
    requires 0 <= j < |r.sys.jobs| && Distinct(r.free) && GrowsBy(r, t, j, added)
    ensures Distinct(t.free) && (forall n :: n in t.free <==> n in r.free && n !in added)
    ensures Distinct(added) && (forall n :: n in added ==> n in r.free) ==> |t.free| == |r.free| - |added|
    ensures |t.sys.jobs| == |r.sys.jobs| && |t.sys.nodes| == |r.sys.nodes|
    ensures |t.sys.jobs[j].assignedNodes| == |r.sys.jobs[j].assignedNodes| + |added|
    ensures var v, w := r.sys.jobs[j], t.sys.jobs[j];
      w.prediction == v.prediction && (v.Active() ==> w.Active()) && w.nodesMin == v.nodesMin && w.nodesPref == v.nodesPref && w.nodesMax == v.nodesMax
    ensures forall k :: 0 <= k < |r.sys.jobs| && k != j ==> t.sys.jobs[k] == r.sys.jobs[k]
  {
    RemoveEachDistinct(r.free, added);
    hide RemoveEach;
    hide Distinct;
  }

  lemma GrownIsReady(ctx: Ctx, r: Round, t: Round, jobs: seq<int>, j: int, limit: int)
    requires Ready(r, jobs) && 0 <= j < |r.sys.jobs| && r.sys.jobs[j].prediction.Prediction? && GrowsMost(ctx, r, t, j, limit)
    ensures Ready(t, jobs)
  {
    hide GrowsMost;
    hide GrowsBy;
    hide GrowsTo;
    if t != r {
      var size, added := GrowthIsFree(ctx, r, t, j, limit);
      GrowsByEffect(r, t, j, added);
    }
  }

  /** Nothing grows once nothing is free. */
  lemma NobodyGrowsOnNothing(ctx: Ctx, r: Round, j: int, limit: int)
    requires 0 <= j < |r.sys.jobs| && r.sys.jobs[j].prediction.Prediction? && r.free == []
    ensures GrowsMost(ctx, r, r, j, limit)
    ensures forall t: Round :: GrowsMost(ctx, r, t, j, limit) ==> t == r
  {
    forall size ensures !CanGrowTo(ctx, r.sys, j, r.free, size) {
      if size > |r.sys.jobs[j].assignedNodes| { CannotOutgrowFree(ctx, r.sys, j, r.free, size); }
    }
  }

  lemma {:induction false} SweepEndsOnNothing(ctx: Ctx, r: Round, jobs: seq<int>, preferred: bool)
    requires Ready(r, jobs) && r.free == []
    ensures GrowTurns(ctx, r, jobs, preferred, r)
    decreases |jobs|
  {
    if jobs != [] {
      assert jobs[0] in jobs && forall j :: j in jobs[1..] ==> j in jobs;
      NobodyGrowsOnNothing(ctx, r, jobs[0], Limit(r.sys.jobs[jobs[0]], preferred));
      hide GrowsMost;
      SweepEndsOnNothing(ctx, r, jobs[1..], preferred);
    }
  }

  lemma {:induction false} ExpandingIsTurns(strategy: Strategy, ctx: Ctx, r: Round, jobs: seq<int>, preferred: bool)
    requires Ready(r, jobs)
    ensures GrowTurns(ctx, r, jobs, preferred, ExpandJobs(strategy, ctx, r, jobs, if preferred then ToPref else ToMax))
    decreases |jobs|
  {
    hide GrowsMost;
    hide ExpandJob;
    var aim := if preferred then ToPref else ToMax;
    if jobs != [] {
      if r.free == [] {
        SweepEndsOnNothing(ctx, r, jobs, preferred);
      } else {
        var j, tail := jobs[0], jobs[1..];
        assert j in jobs && forall k :: k in tail ==> k in jobs;
        ExpandTurnExactly(strategy, ctx, r, j, preferred);
        var t := ExpandJob(strategy, ctx, r, j, aim);
        GrownIsReady(ctx, r, t, jobs, j, Limit(r.sys.jobs[j], preferred));
        assert Ready(t, tail);
        ExpandingIsTurns(strategy, ctx, t, tail, preferred);
      }
    }
  }

  /** Less excess first; with equal excess, the order of the queue. */
  ghost predicate GrowsBefore(strategy: Strategy, s: Sys, a: int, b: int) {
    Excess(strategy, s, a) < Excess(strategy, s, b) || (Excess(strategy, s, a) == Excess(strategy, s, b) && a < b)
  }

  /** Every malleable job is listed once, behind those that grow before it. */
  ghost predicate InGrowingOrder(strategy: Strategy, s: Sys, malleable: seq<int>, order: seq<int>) {
    && Distinct(order) && (forall j :: j in order <==> j in malleable)
    && forall i, k :: 0 <= i < |order| && 0 <= k < |order| && GrowsBefore(strategy, s, order[i], order[k]) ==> i < k
  }

  /** All malleable jobs have one turn each, in the order of their excess when the sweep begins. */
  ghost predicate Sweep(strategy: Strategy, ctx: Ctx, malleable: seq<int>, preferred: bool, r: Round, t: Round) {
    exists order: seq<int> :: InGrowingOrder(strategy, r.sys, malleable, order) && Ready(r, order) && GrowTurns(ctx, r, order, preferred, t)
  }

  lemma LeastSurplusIsOrdered(strategy: Strategy, s: Sys, malleable: seq<int>, i: nat, k: nat)
    requires AscendingOrder(malleable) && forall j :: j in malleable ==> 0 <= j < |s.jobs|
    requires var order := LeastSurplusFirst(s, malleable, strategy.RankedBy()); i < |order| && k < |order| && GrowsBefore(strategy, s, order[i], order[k])
    ensures i < k
  {
    var order := LeastSurplusFirst(s, malleable, strategy.RankedBy());
    SortsStably(malleable, j => Beyond(s, j, strategy.RankedBy()));
    assert order[i] in malleable && order[k] in malleable by { assert order[i] in order && order[k] in order; }
    assert Beyond(s, order[i], strategy.RankedBy()) == Excess(strategy, s, order[i]) as real;
    assert Beyond(s, order[k], strategy.RankedBy()) == Excess(strategy, s, order[k]) as real;
  }

  lemma LeastSurplusGrowsFirst(strategy: Strategy, s: Sys, malleable: seq<int>)
    requires AscendingOrder(malleable) && forall j :: j in malleable ==> 0 <= j < |s.jobs|
    ensures InGrowingOrder(strategy, s, malleable, LeastSurplusFirst(s, malleable, strategy.RankedBy()))
  {
    var order := LeastSurplusFirst(s, malleable, strategy.RankedBy());
    assert Distinct(malleable);
    hide GrowsBefore;
    forall i, k | 0 <= i < |order| && 0 <= k < |order| && GrowsBefore(strategy, s, order[i], order[k]) ensures i < k {
      LeastSurplusIsOrdered(strategy, s, malleable, i, k);
    }
  }

  lemma ExpandToIsSweep(strategy: Strategy, ctx: Ctx, r: Round, malleable: seq<int>, preferred: bool)
    requires Ready(r, malleable) && AscendingOrder(malleable)
    ensures Sweep(strategy, ctx, malleable, preferred, r, ExpandTo(strategy, ctx, r, malleable, if preferred then ToPref else ToMax))
  {
    var order := LeastSurplusFirst(r.sys, malleable, strategy.RankedBy());
    LeastSurplusGrowsFirst(strategy, r.sys, malleable);
    assert Ready(r, order);
    hide InGrowingOrder;
    hide LeastSurplusFirst;
    hide Ready;
    hide GrowTurns;
    hide ExpandJobs;
    if r.free == [] { SweepEndsOnNothing(ctx, r, order, preferred); } else { ExpandingIsTurns(strategy, ctx, r, order, preferred); }
  }

  // ---- The phase -------------------------------------------------------------------------------

  /** One sweep towards the maximum; with the preferring strategy one towards the preferred size
      before. */
  ghost predicate Expands(strategy: Strategy, ctx: Ctx, malleable: seq<int>, r: Round, t: Round) {
    if strategy.PrefStealAgreement? then
      exists u: Round :: Sweep(strategy, ctx, malleable, true, r, u) && Sweep(strategy, ctx, malleable, false, u, t)
    else Sweep(strategy, ctx, malleable, false, r, t)
  }

  lemma {:induction false} TurnsKeepReady(ctx: Ctx, r: Round, jobs: seq<int>, preferred: bool, t: Round, all: seq<int>)
    requires Ready(r, all) && Ready(r, jobs) && GrowTurns(ctx, r, jobs, preferred, t)
    ensures Ready(t, all)
    decreases |jobs|
  {
    hide GrowsMost;
    if jobs != [] {
      var j := jobs[0];
      assert j in jobs;
      var u: Round :| Ready(u, jobs[1..]) && GrowsMost(ctx, r, u, j, Limit(r.sys.jobs[j], preferred)) && GrowTurns(ctx, u, jobs[1..], preferred, t);
      GrownIsReady(ctx, r, u, all, j, Limit(r.sys.jobs[j], preferred));
      TurnsKeepReady(ctx, u, jobs[1..], preferred, t, all);
    }
  }

  lemma SweepKeepsReady(strategy: Strategy, ctx: Ctx, malleable: seq<int>, preferred: bool, r: Round, t: Round)
    requires Ready(r, malleable) && Sweep(strategy, ctx, malleable, preferred, r, t)
    ensures Ready(t, malleable)
  {
    hide GrowTurns;
    var order: seq<int> :| InGrowingOrder(strategy, r.sys, malleable, order) && Ready(r, order) && GrowTurns(ctx, r, order, preferred, t);
    TurnsKeepReady(ctx, r, order, preferred, t, malleable);
  }

  lemma ExpansionExpands(strategy: Strategy, ctx: Ctx, r: Round, malleable: seq<int>)
    requires Ready(r, malleable) && AscendingOrder(malleable)
    ensures Expands(strategy, ctx, malleable, r, ExpandPhase(strategy, ctx, r, malleable))
  {
    if r.free == [] || malleable == [] {
      IdleSweep(strategy, ctx, malleable, true, r);
      IdleSweep(strategy, ctx, malleable, false, r);
    } else {
      hide Ready;
      hide ExpandTo;
      hide Sweep;
      var t := if strategy.Prefers() then ExpandTo(strategy, ctx, r, malleable, ToPref) else r;
      if strategy.Prefers() {
        ExpandToIsSweep(strategy, ctx, r, malleable, true);
        SweepKeepsReady(strategy, ctx, malleable, true, r, t);
      }
      ExpandToIsSweep(strategy, ctx, t, malleable, false);
    }
  }

  lemma IdleSweep(strategy: Strategy, ctx: Ctx, malleable: seq<int>, preferred: bool, r: Round)
    requires Ready(r, malleable) && AscendingOrder(malleable) && (r.free == [] || malleable == [])
    ensures Sweep(strategy, ctx, malleable, preferred, r, r)
  {
    var order := LeastSurplusFirst(r.sys, malleable, strategy.RankedBy());
    LeastSurplusGrowsFirst(strategy, r.sys, malleable);
    if r.free == [] {
      SweepEndsOnNothing(ctx, r, order, preferred);
    } else {
      StableSortMembers(malleable, j => Beyond(r.sys, j, strategy.RankedBy()));
    }
    assert Ready(r, order);
  }

  // ---- Without a policy ------------------------------------------------------------------------

  /** Jobs only grow, those that do to the limit at most, and free nodes only become fewer. */
  ghost predicate OnlyGrows(r: Round, t: Round, preferred: bool) {
    && |t.sys.jobs| == |r.sys.jobs| && (r.free == [] ==> t == r)
    && forall k :: 0 <= k < |r.sys.jobs| ==>
         var v, w := r.sys.jobs[k], t.sys.jobs[k];
         && w.nodesMin == v.nodesMin && w.nodesPref == v.nodesPref && w.nodesMax == v.nodesMax
         && |w.assignedNodes| >= |v.assignedNodes| && (|w.assignedNodes| > |v.assignedNodes| ==> |w.assignedNodes| <= Limit(v, preferred))
  }

  lemma OnlyGrowsTransitive(r: Round, t: Round, u: Round, preferred: bool)
    requires OnlyGrows(r, t, preferred) && OnlyGrows(t, u, preferred)
    ensures OnlyGrows(r, u, preferred)
  {
  }

  lemma EverybodyWelcomes(ctx: Ctx, s: Sys, j: int, free: seq<int>, size: int)
    requires !ctx.cfg.loaded && 0 <= j < |s.jobs| && s.jobs[j].prediction.Prediction? && forall n :: n in free ==> 0 <= n < |s.nodes|
    ensures CanGrowTo(ctx, s, j, free, size) <==> |s.jobs[j].assignedNodes| < size <= |s.jobs[j].assignedNodes| + |free|
  {
    if size > 0 {
      FilterAll(n => Accepts(ctx, s.nodes, n, RemainingRuntimeForNodes(s.jobs[j].profile, s.jobs[j].prediction, size, ctx.now), true), free);
    }
  }

  lemma GrownOnlyGrows(r: Round, t: Round, j: int, added: seq<int>, preferred: bool)
    requires 0 <= j < |r.sys.jobs| && Distinct(r.free) && GrowsBy(r, t, j, added) && added != [] && (forall n :: n in added ==> n in r.free)
    requires |r.sys.jobs[j].assignedNodes| + |added| <= Limit(r.sys.jobs[j], preferred)
    ensures OnlyGrows(r, t, preferred)
  {
    GrowsByEffect(r, t, j, added);
    hide GrowsBy;
    assert r.free != [] by { assert added[0] in r.free; }
  }

  /** Without a policy a job that grows reaches the limit or takes all free nodes. */
  lemma GrownReachesLimit(ctx: Ctx, r: Round, t: Round, j: int, limit: int, size: int, added: seq<int>)
    requires !ctx.cfg.loaded && 0 <= j < |r.sys.jobs| && r.sys.jobs[j].prediction.Prediction? && GrowsTo(ctx, r, t, j, limit, size)
    requires Distinct(r.free) && (forall n :: n in r.free ==> 0 <= n < |r.sys.nodes|)
    requires GrowsBy(r, t, j, added) && |added| == size - |r.sys.jobs[j].assignedNodes| && Distinct(added) && forall n :: n in added ==> n in r.free
    ensures |t.sys.jobs| == |r.sys.jobs| && (t.free == [] || |t.sys.jobs[j].assignedNodes| == limit)
  {
    GrowsByEffect(r, t, j, added);
    hide GrowsBy;
    if size < limit {
      EverybodyWelcomes(ctx, r.sys, j, r.free, size + 1);
      EverybodyWelcomes(ctx, r.sys, j, r.free, size);
    }
  }

  lemma UngrownIsAtLimit(ctx: Ctx, r: Round, j: int, limit: int)
    requires !ctx.cfg.loaded && 0 <= j < |r.sys.jobs| && r.sys.jobs[j].prediction.Prediction? && GrowsMost(ctx, r, r, j, limit)
    requires Distinct(r.free) && (forall n :: n in r.free ==> 0 <= n < |r.sys.nodes|)
    ensures r.free == [] || |r.sys.jobs[j].assignedNodes| >= limit
  {
    if r.free != [] && |r.sys.jobs[j].assignedNodes| < limit {
      EverybodyWelcomes(ctx, r.sys, j, r.free, |r.sys.jobs[j].assignedNodes| + 1);
      hide CanGrowTo;
      hide GrowsBy;
      if size :| GrowsTo(ctx, r, r, j, limit, size) { GrownIsLarger(ctx, r, j, limit, size); }
    }
  }

  lemma GrownIsLarger(ctx: Ctx, r: Round, j: int, limit: int, size: int)
    requires 0 <= j < |r.sys.jobs| && r.sys.jobs[j].prediction.Prediction? && Distinct(r.free)
    ensures !GrowsTo(ctx, r, r, j, limit, size)
  {
    if GrowsTo(ctx, r, r, j, limit, size) {
      FirstWelcoming(ctx, r.sys, j, r.free, size);
      GrowsByEffect(r, r, j, Added(ctx, r.sys, j, r.free, size));
    }
  }

  /** At its turn a job reaches the limit, unless it takes the last free node. */
  lemma TurnReachesLimit(ctx: Ctx, r: Round, t: Round, j: int, preferred: bool)
    requires !ctx.cfg.loaded && Ready(r, []) && 0 <= j < |r.sys.jobs| && r.sys.jobs[j].prediction.Prediction?
    requires GrowsMost(ctx, r, t, j, Limit(r.sys.jobs[j], preferred))
    ensures OnlyGrows(r, t, preferred) && (forall k :: 0 <= k < |r.sys.jobs| && k != j ==> t.sys.jobs[k] == r.sys.jobs[k])
    ensures t.free == [] || |t.sys.jobs[j].assignedNodes| >= Limit(r.sys.jobs[j], preferred)
  {
    var limit := Limit(r.sys.jobs[j], preferred);
    hide GrowsMost;
    if t == r {
      UngrownIsAtLimit(ctx, r, j, limit);
    } else {
      var size, added := GrowthIsFree(ctx, r, t, j, limit);
      GrownReachesLimit(ctx, r, t, j, limit, size, added);
      assert size <= limit;
      hide GrowsTo;
      hide GrowsBy;
      GrownOnlyGrows(r, t, j, added, preferred);
      GrowsByEffect(r, t, j, added);
    }
  }

  /** The first turn of a sweep and the others. */
  lemma FirstTurn(ctx: Ctx, r: Round, jobs: seq<int>, preferred: bool, t: Round) returns (u: Round)
    requires !ctx.cfg.loaded && Ready(r, jobs) && jobs != [] && GrowTurns(ctx, r, jobs, preferred, t)
    ensures 0 <= jobs[0] < |r.sys.jobs| && Ready(u, jobs[1..]) && GrowTurns(ctx, u, jobs[1..], preferred, t)
    ensures OnlyGrows(r, u, preferred) && (forall k :: 0 <= k < |r.sys.jobs| && k != jobs[0] ==> u.sys.jobs[k] == r.sys.jobs[k])
    ensures u.free == [] || |u.sys.jobs[jobs[0]].assignedNodes| >= Limit(r.sys.jobs[jobs[0]], preferred)
  {
    assert jobs[0] in jobs;
    hide GrowsMost;
    u :| Ready(u, jobs[1..]) && GrowsMost(ctx, r, u, jobs[0], Limit(r.sys.jobs[jobs[0]], preferred)) && GrowTurns(ctx, u, jobs[1..], preferred, t);
    TurnReachesLimit(ctx, r, u, jobs[0], preferred);
  }

  lemma GrowsAt(r: Round, t: Round, preferred: bool, k: int)
    requires OnlyGrows(r, t, preferred) && 0 <= k < |r.sys.jobs|
    ensures |t.sys.jobs| == |r.sys.jobs| && |t.sys.jobs[k].assignedNodes| >= |r.sys.jobs[k].assignedNodes|
    ensures Limit(t.sys.jobs[k], preferred) == Limit(r.sys.jobs[k], preferred) && (r.free == [] ==> t == r)
  {
  }

  lemma {:induction false} TurnsReachLimit(ctx: Ctx, r: Round, jobs: seq<int>, preferred: bool, t: Round)
    requires !ctx.cfg.loaded && Ready(r, jobs) && Distinct(jobs) && GrowTurns(ctx, r, jobs, preferred, t)
    ensures OnlyGrows(r, t, preferred) && |t.sys.jobs| == |r.sys.jobs| && forall k :: 0 <= k < |r.sys.jobs| && k !in jobs ==> t.sys.jobs[k] == r.sys.jobs[k]
    ensures t.free == [] || forall j :: j in jobs ==> 0 <= j < |t.sys.jobs| && |t.sys.jobs[j].assignedNodes| >= Limit(t.sys.jobs[j], preferred)
    decreases |jobs|
  {
    if jobs != [] {
      var j, tail := jobs[0], jobs[1..];
      HeadAndTail(jobs);
      assert forall k :: k in jobs <==> k == j || k in tail;
      var u := FirstTurn(ctx, r, jobs, preferred, t);
      hide GrowTurns;
      hide Ready;
      hide Distinct;
      TurnsReachLimit(ctx, u, tail, preferred, t);
      OnlyGrowsTransitive(r, u, t, preferred);
      GrowsAt(r, u, preferred, j);
      GrowsAt(u, t, preferred, j);
      hide OnlyGrows;
    }
  }

  /** The first job reaches the limit if another grows. */
  lemma FirstReachesLimit(ctx: Ctx, r: Round, jobs: seq<int>, preferred: bool, t: Round, k: nat)
    requires !ctx.cfg.loaded && Ready(r, jobs) && Distinct(jobs) && GrowTurns(ctx, r, jobs, preferred, t) && 0 < k < |jobs|
    requires |t.sys.jobs| == |r.sys.jobs| && 0 <= jobs[k] < |r.sys.jobs| && t.sys.jobs[jobs[k]].assignedNodes != r.sys.jobs[jobs[k]].assignedNodes
    ensures 0 <= jobs[0] < |r.sys.jobs| && |t.sys.jobs[jobs[0]].assignedNodes| >= Limit(t.sys.jobs[jobs[0]], preferred)
  {
    var j, tail := jobs[0], jobs[1..];
    HeadAndTail(jobs);
    assert tail[k - 1] == jobs[k] && jobs[k] in tail;
    var u := FirstTurn(ctx, r, jobs, preferred, t);
    hide GrowTurns;
    hide Ready;
    hide Distinct;
    TurnsReachLimit(ctx, u, tail, preferred, t);
    GrowsAt(r, u, preferred, j);
    GrowsAt(u, t, preferred, j);
    hide OnlyGrows;
    assert u.free != [];
  }

  /** One grows only after all before it reached the limit. */
  lemma {:induction false} EarlierReachLimit(ctx: Ctx, r: Round, jobs: seq<int>, preferred: bool, t: Round, i: nat, k: nat)
    requires !ctx.cfg.loaded && Ready(r, jobs) && Distinct(jobs) && GrowTurns(ctx, r, jobs, preferred, t) && i < k < |jobs|
    requires |t.sys.jobs| == |r.sys.jobs| && 0 <= jobs[k] < |r.sys.jobs| && t.sys.jobs[jobs[k]].assignedNodes != r.sys.jobs[jobs[k]].assignedNodes
    ensures 0 <= jobs[i] < |r.sys.jobs| && |t.sys.jobs[jobs[i]].assignedNodes| >= Limit(t.sys.jobs[jobs[i]], preferred)
    decreases |jobs|
  {
    if i == 0 {
      FirstReachesLimit(ctx, r, jobs, preferred, t, k);
    } else {
      var tail := jobs[1..];
      HeadAndTail(jobs);
      assert tail[k - 1] == jobs[k] && jobs[k] in tail;
      var u := FirstTurn(ctx, r, jobs, preferred, t);
      hide GrowTurns;
      hide Ready;
      hide Distinct;
      GrowsAt(r, u, preferred, jobs[0]);
      hide OnlyGrows;
      EarlierReachLimit(ctx, u, tail, preferred, t, i - 1, k - 1);
    }
  }

  /** In a sweep a job grows only if every job that grows before it has reached the limit. */
  lemma SweepServesInOrder(strategy: Strategy, ctx: Ctx, malleable: seq<int>, preferred: bool, r: Round, t: Round, x: int, y: int)
    requires !ctx.cfg.loaded && Ready(r, malleable) && Sweep(strategy, ctx, malleable, preferred, r, t) && |t.sys.jobs| == |r.sys.jobs|
    requires x in malleable && y in malleable && 0 <= x < |r.sys.jobs| && 0 <= y < |r.sys.jobs| && GrowsBefore(strategy, r.sys, x, y)
    requires t.sys.jobs[y].assignedNodes != r.sys.jobs[y].assignedNodes
    ensures |t.sys.jobs[x].assignedNodes| >= Limit(t.sys.jobs[x], preferred)
  {
    hide GrowsBefore;
    hide GrowTurns;
    var order: seq<int> :| InGrowingOrder(strategy, r.sys, malleable, order) && Ready(r, order) && GrowTurns(ctx, r, order, preferred, t);
    var i := IndexIn(order, x);
    var k := IndexIn(order, y);
    EarlierReachLimit(ctx, r, order, preferred, t, i, k);
  }

  lemma SweepReachesLimit(strategy: Strategy, ctx: Ctx, malleable: seq<int>, preferred: bool, r: Round, t: Round)
    requires !ctx.cfg.loaded && Sweep(strategy, ctx, malleable, preferred, r, t)
    ensures OnlyGrows(r, t, preferred) && forall k :: 0 <= k < |r.sys.jobs| && k !in malleable ==> t.sys.jobs[k] == r.sys.jobs[k]
    ensures t.free == [] || forall j :: j in malleable ==> 0 <= j < |t.sys.jobs| && |t.sys.jobs[j].assignedNodes| >= Limit(t.sys.jobs[j], preferred)
  {
    hide GrowTurns;
    var order: seq<int> :| InGrowingOrder(strategy, r.sys, malleable, order) && Ready(r, order) && GrowTurns(ctx, r, order, preferred, t);
    TurnsReachLimit(ctx, r, order, preferred, t);
  }

  /** After the expansion either no node is left, or all malleable jobs have reached their maximum. */
  lemma ExpansionReachesMaximum(strategy: Strategy, ctx: Ctx, malleable: seq<int>, r: Round, t: Round)
    requires !ctx.cfg.loaded && Expands(strategy, ctx, malleable, r, t)
    ensures t.free == [] || forall j :: j in malleable ==> 0 <= j < |t.sys.jobs| && |t.sys.jobs[j].assignedNodes| >= t.sys.jobs[j].nodesMax
  {
    hide Sweep;
    if strategy.PrefStealAgreement? {
      var u: Round :| Sweep(strategy, ctx, malleable, true, r, u) && Sweep(strategy, ctx, malleable, false, u, t);
      SweepReachesLimit(strategy, ctx, malleable, false, u, t);
    } else {
      SweepReachesLimit(strategy, ctx, malleable, false, r, t);
    }
  }

  /** With the preferring strategy a job grows beyond its preferred size only if every malleable job
      reaches its own. */
  lemma BeyondPreferredOnlyIfAllReachIt(ctx: Ctx, malleable: seq<int>, r: Round, t: Round, x: int, y: int)
    requires !ctx.cfg.loaded && Expands(PrefStealAgreement, ctx, malleable, r, t) && |t.sys.jobs| == |r.sys.jobs|
    requires x in malleable && 0 <= x < |r.sys.jobs| && 0 <= y < |r.sys.jobs|
    requires |t.sys.jobs[y].assignedNodes| > |r.sys.jobs[y].assignedNodes| && |t.sys.jobs[y].assignedNodes| > t.sys.jobs[y].nodesPref
    ensures |t.sys.jobs[x].assignedNodes| >= t.sys.jobs[x].nodesPref
  {
    hide Sweep;
    var u: Round :| Sweep(PrefStealAgreement, ctx, malleable, true, r, u) && Sweep(PrefStealAgreement, ctx, malleable, false, u, t);
    SweepReachesLimit(PrefStealAgreement, ctx, malleable, true, r, u);
    SweepReachesLimit(PrefStealAgreement, ctx, malleable, false, u, t);
  }

  // ---- No free node is forgotten ---------------------------------------------------------------

  /** The free list holds every available node, or every unreserved one. */
  ghost predicate AllListed(r: Round) {
    forall n :: Available(r.sys, n) ==> n in r.free
  }

  ghost predicate UnreservedListed(r: Round) {
    forall n :: Available(r.sys, n) && n !in r.agreements.nodeToJobId ==> n in r.free
  }

  lemma StartedNodesAreTaken(s: Sys, j: int, ns: seq<int>, n: int)
    requires 0 <= j < |s.jobs| && s.jobs[j].state.Pending? && Available(s.Start(j, ns), n)
    ensures Available(s, n) && n !in ns
  {
    var t := s.Start(j, ns);
    assert !t.jobs[j].Holds(n);
    forall k | 0 <= k < |s.jobs| ensures !s.jobs[k].Holds(n) {
      assert !t.jobs[k].Holds(n);
    }
  }

  /** A turn of resolving starts the job on some nodes or leaves the cluster and the list alone. */
  lemma TurnTakesWhatItAssigns(strategy: Strategy, ctx: Ctx, r: Round, j: int) returns (ns: seq<int>)
    requires 0 <= j < |r.sys.jobs|
    ensures var t := ResolveOne(strategy, ctx, r, j);
      || (t.sys == r.sys.Start(j, ns) && t.free == RemoveEach(r.free, ns))
      || (t.free == r.free && (t.sys == r.sys || t.sys == r.sys.Die(j)))
  {
    hide EligibleForPending;
    hide RemoveEach;
    hide ReservedFor;
    hide Agreements.Steal;
    hide Agreements.SelectFromPool;
    hide Agreements.Remove;
    hide Agreements.FinalizePool;
    var a, freeReserved := r.agreements, NodesWithAgreement(r.agreements, r.free);
    match strategy
    case MinAgreement => ns := ReservedFor(a, j, r.free);
    case MinStealAgreement => ns := ReservedFor(a.Steal(j, freeReserved), j, freeReserved);
    case PrefStealAgreement => ns := ReservedFor(a.Steal(j, freeReserved), j, freeReserved);
    case MinCommonPool =>
      ns := [];
      if |a.NodesOf(j)| > 0 { ns := a.SelectFromPool(j, EligibleForPending(ctx, r.sys, j, r.free, |a.NodesOf(j)|)); }
  }

  lemma DeathFreesNothing(s: Sys, j: int, n: int)
    requires 0 <= j < |s.jobs| && Available(s.Die(j), n)
    ensures Available(s, n)
  {
    forall k | 0 <= k < |s.jobs| ensures !s.jobs[k].Holds(n) {
      assert !s.Die(j).jobs[k].Holds(n);
    }
  }

  lemma ResolveOneListsAll(strategy: Strategy, ctx: Ctx, r: Round, j: int)
    requires 0 <= j < |r.sys.jobs| && r.sys.jobs[j].state.Pending? && AllListed(r)
    ensures AllListed(ResolveOne(strategy, ctx, r, j))
  {
    var ns := TurnTakesWhatItAssigns(strategy, ctx, r, j);
    hide ResolveOne;
    hide Available;
    var t := ResolveOne(strategy, ctx, r, j);
    RemoveEachSpares(r.free, ns);
    forall n | Available(t.sys, n) ensures n in t.free {
      if t.sys == r.sys.Start(j, ns) && t.free == RemoveEach(r.free, ns) { StartedNodesAreTaken(r.sys, j, ns, n); }
      else if t.sys != r.sys { DeathFreesNothing(r.sys, j, n); }
    }
  }

  lemma {:induction false} ResolvingListsAll(strategy: Strategy, ctx: Ctx, s0: Sys, r: Round, targets: seq<int>)
    requires RoundOk(strategy, ctx.cfg.loaded, s0, r, -1) && AllListed(r)
    requires Distinct(targets) && forall j :: j in targets ==> 0 <= j < |r.sys.jobs| && j in r.pending && r.agreements.HasJob(j)
    ensures AllListed(Resolve(strategy, ctx, r, targets))
    decreases |targets|
  {
    if targets != [] && !StopsResolving(strategy, r) {
      var j := targets[0];
      HeadAndTail(targets);
      assert r.sys.jobs[j].state.Pending?;
      hide RoundOk;
      hide ResolveOne;
      hide ResolvesOne;
      hide AllListed;
      ResolveOneKeeps(strategy, ctx, s0, r, j);
      ResolveOneKeepsOthersPending(strategy, ctx, r, j);
      ResolveOneListsAll(strategy, ctx, r, j);
      ResolvingListsAll(strategy, ctx, s0, ResolveOne(strategy, ctx, r, j), targets[1..]);
    }
  }

  lemma BackfillingForgetsNone(strategy: Strategy, ctx: Ctx, r: Round, t: Round, i: nat)
    requires Plannable(r) && i < |r.pending| && StartsNow(strategy, ctx, r, t, i) && UnreservedListed(r)
    ensures UnreservedListed(t)
  {
    hide Willing;
    hide SizeNow;
    hide Available;
    assert r.pending[i] in r.pending;
    var j := r.pending[i];
    var size := SizeNow(strategy, ctx, r.sys, j, r.free);
    assert size > 0;
    var ns := t.sys.jobs[j].assignedNodes;
    RemoveEachSpares(r.free, ns);
    assert t.sys == r.sys.Start(j, ns) by { assert r.sys.jobs[j].assignedNodes + ns == ns; }
    forall n | Available(t.sys, n) && n !in t.agreements.nodeToJobId ensures n in t.free {
      StartedNodesAreTaken(r.sys, j, ns, n);
    }
  }

  lemma {:induction false} WalkForgetsNone(strategy: Strategy, ctx: Ctx, r: Round, i: nat, running: seq<int>, t: Round)
    requires Plannable(r) && HavePredictions(r.sys, running) && WalksTo(strategy, ctx, r, i, running, t) && UnreservedListed(r)
    ensures UnreservedListed(t)
    decreases |r.pending| - i
  {
    hide Startable;
    hide StartsNow;
    hide Plannable;
    hide UnreservedListed;
    if i < |r.pending| {
      if Startable(strategy, ctx, r, i, running) {
        var u: Round :| StartsNow(strategy, ctx, r, u, i) && Plannable(u) && |u.pending| < |r.pending| && HavePredictions(u.sys, running)
          && WalksTo(strategy, ctx, u, i + 1, running, t);
        BackfillingForgetsNone(strategy, ctx, r, u, i);
        WalkForgetsNone(strategy, ctx, u, i + 1, running, t);
      } else {
        WalkForgetsNone(strategy, ctx, r, i + 1, running, t);
      }
    }
  }

  lemma {:induction false} AddedAreReserved(a: Agreements, j: int, ns: seq<int>, k: nat)
    requires k <= |ns|
    ensures forall m :: m in a.Add(j, ns, k).nodeToJobId <==> m in a.nodeToJobId || m in ns[..k]
  {
    if k > 0 {
      AddedAreReserved(a, j, ns, k - 1);
      assert ns[..k] == ns[..k - 1] + [ns[k - 1]];
    }
  }

  /** A donated node is reserved; the others are as before. */
  lemma DonationForgetsNone(ctx: Ctx, r: Round, d: Donation, p: int)
    requires 0 <= d.donor < |r.sys.jobs| && 0 <= p < |r.sys.jobs| && UnreservedListed(r)
    ensures UnreservedListed(ApplyDonation(ctx, r, d, p))
  {
    var t, ns := ApplyDonation(ctx, r, d, p), FilterForReservation(ctx, r.sys, p, d.nodes);
    hide FilterForReservation;
    hide Agreements.Add;
    if ns != [] {
      AddedAreReserved(r.agreements, p, ns, |ns|);
      assert ns[..|ns|] == ns;
      forall n | Available(t.sys, n) && n !in t.agreements.nodeToJobId ensures n in t.free {
        ShrunkFreesOnlyDonated(r.sys, d.donor, ns, n);
      }
    }
  }

  lemma ShrunkFreesOnlyDonated(s: Sys, j: int, ns: seq<int>, n: int)
    requires 0 <= j < |s.jobs| && n !in ns && Available(s.ShrinkBy(j, ns), n)
    ensures Available(s, n)
  {
    var t := s.ShrinkBy(j, ns);
    RemoveEachSpares(s.jobs[j].assignedNodes, ns);
    forall k | 0 <= k < |s.jobs| ensures !s.jobs[k].Holds(n) {
      assert !t.jobs[k].Holds(n);
    }
  }

  lemma {:induction false} ReservingForgetsNone(ctx: Ctx, r: Round, ds: seq<Donation>, p: int)
    requires 0 <= p < |r.sys.jobs| && (forall k :: 0 <= k < |ds| ==> 0 <= ds[k].donor < |r.sys.jobs|) && UnreservedListed(r)
    ensures UnreservedListed(ApplyShrinking(ctx, r, ds, p))
    decreases |ds|
  {
    hide UnreservedListed;
    hide FilterForReservation;
    if ds != [] {
      DonationForgetsNone(ctx, r, ds[0], p);
      ReservingForgetsNone(ctx, ApplyDonation(ctx, r, ds[0], p), ds[1..], p);
    }
  }

  lemma {:induction false} ShrinkingForgetsNone(strategy: Strategy, ctx: Ctx, r: Round, waiting: seq<int>, sorted: seq<int>, malleable: seq<int>)
    requires (forall j :: j in waiting ==> 0 <= j < |r.sys.jobs|) && UnreservedListed(r)
    requires (forall j :: j in sorted ==> 0 <= j < |r.sys.jobs|) && (forall j :: j in malleable ==> 0 <= j < |r.sys.jobs|)
    ensures UnreservedListed(ShrinkForPending(strategy, ctx, r, waiting, sorted, malleable))
    decreases |waiting|
  {
    hide UnreservedListed;
    hide ApplyShrinking;
    hide SelectDonations;
    if waiting != [] {
      var p, donors := waiting[0], DonorOrder(strategy, r.sys, sorted, malleable);
      assert p in waiting && forall j :: j in waiting[1..] ==> j in waiting;
      ReservingForgetsNone(ctx, r, SelectDonations(strategy, r.sys, r.agreements, donors, r.sys.jobs[p]), p);
      ShrinkingForgetsNone(strategy, ctx, ShrinkForOne(strategy, ctx, r, p, sorted, malleable), waiting[1..], sorted, malleable);
    }
  }

  lemma GrowthForgetsNone(r: Round, t: Round, j: int, added: seq<int>)
    requires 0 <= j < |r.sys.jobs| && r.sys.jobs[j].Active() && GrowsBy(r, t, j, added) && UnreservedListed(r)
    ensures UnreservedListed(t)
  {
    RemoveEachSpares(r.free, added);
    forall n | Available(t.sys, n) && n !in t.agreements.nodeToJobId ensures n in t.free {
      GrownNodesAreTaken(r.sys, j, added, n);
    }
  }

  lemma GrownNodesAreTaken(s: Sys, j: int, added: seq<int>, n: int)
    requires 0 <= j < |s.jobs| && s.jobs[j].Active() && Available(s.ExpandBy(j, added), n)
    ensures Available(s, n) && n !in added
  {
    var t := s.ExpandBy(j, added);
    assert !t.jobs[j].Holds(n);
    forall k | 0 <= k < |s.jobs| ensures !s.jobs[k].Holds(n) {
      assert !t.jobs[k].Holds(n);
    }
  }

  lemma {:induction false} TurnsForgetNone(ctx: Ctx, r: Round, jobs: seq<int>, preferred: bool, t: Round)
    requires Ready(r, jobs) && GrowTurns(ctx, r, jobs, preferred, t) && UnreservedListed(r)
    ensures UnreservedListed(t)
    decreases |jobs|
  {
    hide GrowsMost;
    hide UnreservedListed;
    if jobs != [] {
      var j := jobs[0];
      assert j in jobs;
      var u: Round :| Ready(u, jobs[1..]) && GrowsMost(ctx, r, u, j, Limit(r.sys.jobs[j], preferred)) && GrowTurns(ctx, u, jobs[1..], preferred, t);
      if u != r {
        var size, added := GrowthIsFree(ctx, r, u, j, Limit(r.sys.jobs[j], preferred));
        hide GrowsTo;
        hide GrowsBy;
        GrowthForgetsNone(r, u, j, added);
      }
      TurnsForgetNone(ctx, u, jobs[1..], preferred, t);
    }
  }

  lemma ExpansionForgetsNone(strategy: Strategy, ctx: Ctx, malleable: seq<int>, r: Round, t: Round)
    requires Expands(strategy, ctx, malleable, r, t) && UnreservedListed(r)
    ensures UnreservedListed(t)
  {
    hide Sweep;
    if strategy.PrefStealAgreement? {
      var u: Round :| Sweep(strategy, ctx, malleable, true, r, u) && Sweep(strategy, ctx, malleable, false, u, t);
      SweepForgetsNone(strategy, ctx, malleable, true, r, u);
      SweepForgetsNone(strategy, ctx, malleable, false, u, t);
    } else {
      SweepForgetsNone(strategy, ctx, malleable, false, r, t);
    }
  }

  lemma SweepForgetsNone(strategy: Strategy, ctx: Ctx, malleable: seq<int>, preferred: bool, r: Round, t: Round)
    requires Sweep(strategy, ctx, malleable, preferred, r, t) && UnreservedListed(r)
    ensures UnreservedListed(t)
  {
    hide GrowTurns;
    hide UnreservedListed;
    var order: seq<int> :| InGrowingOrder(strategy, r.sys, malleable, order) && Ready(r, order) && GrowTurns(ctx, r, order, preferred, t);
    TurnsForgetNone(ctx, r, order, preferred, t);
  }

  // ---- The whole round -------------------------------------------------------------------------

  lemma ReadyToExpand(strategy: Strategy, loaded: bool, s0: Sys, r: Round, malleable: seq<int>)
    requires RoundOk(strategy, loaded, s0, r, -1) && Donors(s0, malleable)
    ensures Ready(r, malleable)
  {
    forall j | j in malleable ensures 0 <= j < |r.sys.jobs| && r.sys.jobs[j].prediction.Prediction? && r.sys.jobs[j].Active() {
      ActiveIsSized(strategy, loaded, s0, r.sys, j);
    }
  }

  /** In a round the malleable jobs that ran at its beginning are expanded in the described way. */
  lemma RoundExpands(strategy: Strategy, ctx: Ctx, s: Sys, a: Agreements)
    requires Settled(strategy, ctx.cfg.loaded, s, a)
    ensures Ready(AfterShrinking(strategy, ctx, s, a), RunningMalleable(s.jobs))
    ensures Expands(strategy, ctx, RunningMalleable(s.jobs), AfterShrinking(strategy, ctx, s, a), ScheduleRound(strategy, ctx, s, a))
  {
    hide RoundOk;
    hide Settled;
    hide Unreserved;
    hide BackfillsTo;
    hide Backfilled;
    hide ShrinkPhase;
    hide ExpandPhase;
    hide Ready;
    hide Expands;
    var r, malleable := Backfilled(strategy, ctx, s, a), RunningMalleable(s.jobs);
    BackfilledStage(strategy, ctx, s, a);
    BackfilledIsPhase(strategy, ctx, s, a);
    MalleableAscend(s.jobs);
    ShrinkPhaseKeeps(strategy, ctx, s, r, malleable);
    ReadyToExpand(strategy, ctx.cfg.loaded, s, AfterShrinking(strategy, ctx, s, a), malleable);
    ExpansionExpands(strategy, ctx, AfterShrinking(strategy, ctx, s, a), malleable);
  }

  lemma ResolvedForgetsNone(strategy: Strategy, ctx: Ctx, s: Sys, a: Agreements)
    requires Settled(strategy, ctx.cfg.loaded, s, a)
    ensures UnreservedListed(BeforeBackfilling(strategy, ctx, s, a))
  {
    var r := BeginRound(s, a);
    RoundBeginsOk(strategy, ctx.cfg.loaded, s, a);
    FilterDistinct(j => a.HasJob(j), r.pending);
    hide RoundOk;
    hide Settled;
    hide Resolve;
    ResolvingListsAll(strategy, ctx, s, r, WithAgreement(a, r.pending));
  }

  /** No free node is forgotten: after a round, every available node that nobody reserved is still
      on the list of free nodes. */
  lemma RoundForgetsNone(strategy: Strategy, ctx: Ctx, s: Sys, a: Agreements)
    requires Settled(strategy, ctx.cfg.loaded, s, a)
    ensures UnreservedListed(ScheduleRound(strategy, ctx, s, a))
  {
    hide RoundOk;
    hide Settled;
    hide Plannable;
    hide WalksTo;
    hide UnreservedListed;
    hide BeforeBackfilling;
    hide Backfilled;
    hide ScheduleRound;
    hide Expands;
    hide Ready;
    var r, malleable := Backfilled(strategy, ctx, s, a), RunningMalleable(s.jobs);
    ResolvedForgetsNone(strategy, ctx, s, a);
    BackfillingBegins(strategy, ctx, s, a);
    WalkForgetsNone(strategy, ctx, BeforeBackfilling(strategy, ctx, s, a), 0, SoonestEndFirst(ctx, s), r);
    hide ShrinkForPending;
    ShrinkingForgetsNone(strategy, ctx, r, r.pending, MostSurplusFirst(r.sys, malleable, strategy.RankedBy()), malleable);
    RoundExpands(strategy, ctx, s, a);
    ExpansionForgetsNone(strategy, ctx, malleable, AfterShrinking(strategy, ctx, s, a), ScheduleRound(strategy, ctx, s, a));
  }

  /** Without a policy no node is left idle: if after a round some node is available and nobody has
      reserved it, every malleable job that ran when the round began holds its maximum. */
  lemma NoNodeIsLeftIdle(strategy: Strategy, ctx: Ctx, s: Sys, a: Agreements, n: int, j: int)
    requires Settled(strategy, false, s, a) && !ctx.cfg.loaded && 0 <= j < |s.jobs| && IsRunningMalleable(s.jobs[j])
    requires var t := ScheduleRound(strategy, ctx, s, a); Available(t.sys, n) && n !in t.agreements.nodeToJobId
    ensures var v := ScheduleRound(strategy, ctx, s, a).sys.jobs[j]; |v.assignedNodes| == v.nodesMax == s.jobs[j].nodesMax
  {
    RoundForgetsNone(strategy, ctx, s, a);
    RoundExpands(strategy, ctx, s, a);
    RoundIsSafe(strategy, ctx, s, a);
    hide ScheduleRound;
    hide Expands;
    hide AfterShrinking;
    var t := ScheduleRound(strategy, ctx, s, a);
    ExpansionReachesMaximum(strategy, ctx, RunningMalleable(s.jobs), AfterShrinking(strategy, ctx, s, a), t);
    assert n in t.free;
    hide UnreservedListed;
    hide Available;
    hide Settled;
    AtMostMaximum(strategy, false, s, t, j);
  }

  lemma AtMostMaximum(strategy: Strategy, loaded: bool, s0: Sys, t: Round, j: int)
    requires RoundOk(strategy, loaded, s0, t, -1) && 0 <= j < |s0.jobs| && IsRunningMalleable(s0.jobs[j])
    ensures |t.sys.jobs| == |s0.jobs| && |t.sys.jobs[j].assignedNodes| <= t.sys.jobs[j].nodesMax == s0.jobs[j].nodesMax
  {
    ActiveIsSized(strategy, loaded, s0, t.sys, j);
  }

  /** Without a policy, the three strategies that go straight to the maximum let a job grow only if
      all with less excess, or with as much and earlier in the queue, hold their maximum. */
  lemma RoundServesInOrder(strategy: Strategy, ctx: Ctx, s: Sys, a: Agreements, x: int, y: int)
    requires Settled(strategy, false, s, a) && !ctx.cfg.loaded && !strategy.PrefStealAgreement?
    requires x in RunningMalleable(s.jobs) && y in RunningMalleable(s.jobs) && GrowsBefore(strategy, AfterShrinking(strategy, ctx, s, a).sys, x, y)
    requires 0 <= y < |s.jobs| && ScheduleRound(strategy, ctx, s, a).sys.jobs[y].assignedNodes != AfterShrinking(strategy, ctx, s, a).sys.jobs[y].assignedNodes
    ensures 0 <= x < |s.jobs| && var v := ScheduleRound(strategy, ctx, s, a).sys.jobs[x]; |v.assignedNodes| >= v.nodesMax
  {
    hide Settled;
    hide ScheduleRound;
    hide AfterShrinking;
    hide GrowsBefore;
    hide Sweep;
    hide Ready;
    RoundExpands(strategy, ctx, s, a);
    SweepServesInOrder(strategy, ctx, RunningMalleable(s.jobs), false, AfterShrinking(strategy, ctx, s, a), ScheduleRound(strategy, ctx, s, a), x, y);
  }

  /** Without a policy, the preferring strategy lets a job grow beyond its preferred size only if
      every malleable job reaches its own. */
  lemma RoundPrefersPreferred(ctx: Ctx, s: Sys, a: Agreements, x: int, y: int)
    requires Settled(PrefStealAgreement, false, s, a) && !ctx.cfg.loaded
    requires x in RunningMalleable(s.jobs) && 0 <= y < |s.jobs|
    requires var v, w := AfterShrinking(PrefStealAgreement, ctx, s, a).sys.jobs[y], ScheduleRound(PrefStealAgreement, ctx, s, a).sys.jobs[y];
      |w.assignedNodes| > |v.assignedNodes| && |w.assignedNodes| > w.nodesPref
    ensures 0 <= x < |s.jobs| && var v := ScheduleRound(PrefStealAgreement, ctx, s, a).sys.jobs[x]; |v.assignedNodes| >= v.nodesPref
  {
    hide Settled;
    hide ScheduleRound;
    hide AfterShrinking;
    hide Expands;
    hide Ready;
    RoundExpands(PrefStealAgreement, ctx, s, a);
    BeyondPreferredOnlyIfAllReachIt(ctx, RunningMalleable(s.jobs), AfterShrinking(PrefStealAgreement, ctx, s, a), ScheduleRound(PrefStealAgreement, ctx, s, a), x, y);
  }
}
