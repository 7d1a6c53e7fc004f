/** What the backfilling loops ask before they start a job behind the head of the queue: which
    running jobs the head would wait for, and until when. */
module HeadDelays {
  import opened Sequences
  import opened ClusterState
  import opened SchedulingRound

  /** The nodes that the first `k` running jobs hold together. */
  function Gathered(s: Sys, running: seq<int>, k: nat): nat
    requires HavePredictions(s, running) && k <= |running|
  {
    if k == 0 then 0
    else
      assert running[k - 1] in running;
      Gathered(s, running, k - 1) + |s.jobs[running[k - 1]].assignedNodes|
  }

  /** When the last of the first `k` running jobs is expected to end. */
  function EndOfFirst(ctx: Ctx, s: Sys, running: seq<int>, k: nat, start: real): real
    requires HavePredictions(s, running) && k <= |running|
  {
    if k == 0 then start
    else
      assert running[k - 1] in running;
      ctx.now + CurrentRemainingRuntime(ctx, s.jobs[running[k - 1]])
  }

  /** No fewer of the first running jobs hold as many nodes as are needed. */
  ghost predicate FewestGather(s: Sys, running: seq<int>, needed: int, k: nat)
    requires HavePredictions(s, running) && k <= |running|
  {
    forall m :: 0 <= m < k ==> Gathered(s, running, m) < needed
  }

  lemma SuffixIsPredicted(s: Sys, running: seq<int>)
    requires HavePredictions(s, running) && running != []
    ensures HavePredictions(s, running[1..]) && running[0] in running
  {
    assert forall x :: x in running[1..] ==> x in running;
  }

  lemma {:induction false} GatheredSplits(s: Sys, running: seq<int>, k: nat)
    requires HavePredictions(s, running) && running != [] && k < |running|
    ensures HavePredictions(s, running[1..]) && 0 <= running[0] < |s.jobs|
    ensures Gathered(s, running, k + 1) == |s.jobs[running[0]].assignedNodes| + Gathered(s, running[1..], k)
    decreases k
  {
    SuffixIsPredicted(s, running);
    if k > 0 {
      GatheredSplits(s, running, k - 1);
      assert running[1..][k - 1] == running[k];
    }
  }

  /** The walk stops at the first running jobs, as few as possible, that hold the needed nodes, or
      at the end of the list; and it returns when the last of these jobs ends. */
  lemma {:induction false} WalkTakesFewest(ctx: Ctx, s: Sys, running: seq<int>, needed: int, start: real) returns (k: nat)
    requires HavePredictions(s, running)
    ensures k <= |running| && FewestGather(s, running, needed, k) && (k == |running| || Gathered(s, running, k) >= needed)
    ensures HeadStart(ctx, s, running, needed, start) == (needed - Gathered(s, running, k), EndOfFirst(ctx, s, running, k, start))
    decreases |running|
  {
    hide CurrentRemainingRuntime;
    k := 0;
    if running != [] && needed > 0 {
      SuffixIsPredicted(s, running);
      var v, tail := s.jobs[running[0]], running[1..];
      var rest := WalkTakesFewest(ctx, s, tail, needed - |v.assignedNodes|, ctx.now + CurrentRemainingRuntime(ctx, v));
      k := rest + 1;
      GatheredSplits(s, running, rest);
      forall m | 0 <= m < k ensures Gathered(s, running, m) < needed {
        if m > 0 {
          GatheredSplits(s, running, m - 1);
          assert Gathered(s, tail, m - 1) < needed - |v.assignedNodes|;
        }
      }
      if rest > 0 { assert tail[rest - 1] == running[rest]; }
    }
  }

  /** The first running jobs, as few as possible, that hold the needed nodes exist, and the last of
      them ends before the given time. */
  ghost predicate GatherBefore(ctx: Ctx, s: Sys, running: seq<int>, needed: int, time: real)
    requires HavePredictions(s, running)
  {
    exists k :: 0 <= k <= |running| && FewestGather(s, running, needed, k)
                && Gathered(s, running, k) >= needed && EndOfFirst(ctx, s, running, k, ctx.now) < time
  }

  lemma WalkDecides(ctx: Ctx, s: Sys, running: seq<int>, needed: int, time: real)
    requires HavePredictions(s, running)
    ensures var (left, start) := HeadStart(ctx, s, running, needed, ctx.now);
      left <= 0 && start < time <==> GatherBefore(ctx, s, running, needed, time)
  {
    hide EndOfFirst;
    hide HeadStart;
    var k := WalkTakesFewest(ctx, s, running, needed, ctx.now);
    if GatherBefore(ctx, s, running, needed, time) {
      var m :| 0 <= m <= |running| && FewestGather(s, running, needed, m) && Gathered(s, running, m) >= needed
               && EndOfFirst(ctx, s, running, m, ctx.now) < time;
      assert m <= k;
      assert k <= m;
    }
  }

  /** A job delays the head exactly if it is another one, and the running jobs that end first, as
      few as are needed for the nodes the job would take from the head, all end before the head's
      own runtime. */
  lemma DelaysHeadExactlyIf(ctx: Ctx, s: Sys, j: int, head: int, freeForHead: int, running: seq<int>)
    requires 0 <= j < |s.jobs| && 0 <= head < |s.jobs| && s.jobs[head].nodesMin > 0 && HavePredictions(s, running)
    ensures DelaysHead(ctx, s, j, head, freeForHead, running)
       <==> j != head && GatherBefore(ctx, s, running, s.jobs[j].nodesMin - freeForHead, PlannedRuntime(s.jobs[head], s.jobs[head].nodesMin))
  {
    hide GatherBefore;
    hide HeadStart;
    WalkDecides(ctx, s, running, s.jobs[j].nodesMin - freeForHead, PlannedRuntime(s.jobs[head], s.jobs[head].nodesMin));
  }

  /** The preferring strategy decides likewise for the size it chose, against what the head could
      have now; a head that could not start is not delayed. */
  lemma PreferredDelaysHeadExactlyIf(ctx: Ctx, s: Sys, j: int, size: int, head: int, plan: (int, real), running: seq<int>)
    requires 0 <= j < |s.jobs| && 0 <= head < |s.jobs| && HavePredictions(s, running)
    ensures PreferredDelaysHead(ctx, s, j, size, head, plan, running)
       <==> j != head && plan.1 > 0.0 && GatherBefore(ctx, s, running, size - plan.0, plan.1)
  {
    hide GatherBefore;
    hide HeadStart;
    WalkDecides(ctx, s, running, size - plan.0, plan.1);
  }

  /** The running jobs are walked over in the order in which they end. */
  lemma SoonestEndsAscend(ctx: Ctx, s: Sys, k: nat, m: nat)
    requires HavePredictions(s, RunningJobs(s.jobs)) && k < m < |SoonestEndFirst(ctx, s)|
    ensures HavePredictions(s, SoonestEndFirst(ctx, s))
    ensures EndOfFirst(ctx, s, SoonestEndFirst(ctx, s), k + 1, ctx.now) <= EndOfFirst(ctx, s, SoonestEndFirst(ctx, s), m + 1, ctx.now)
    ensures multiset(SoonestEndFirst(ctx, s)) == multiset(RunningJobs(s.jobs))
  {
    var key := j => if 0 <= j < |s.jobs| && s.jobs[j].prediction.Prediction? then CurrentRemainingRuntime(ctx, s.jobs[j]) else 0.0;
    var running := SoonestEndFirst(ctx, s);
    StableSortSorts(RunningJobs(s.jobs), key);
    assert running == StableSort(RunningJobs(s.jobs), key);
    assert HavePredictions(s, running);
    assert running[k] in running && running[m] in running;
    assert key(running[k]) <= key(running[m]);
  }
}
