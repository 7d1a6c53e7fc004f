/** The phases of a job and the application loop that executes them. The loop is cut at
    scheduling points and resumed, either in place or by a new application actor; what is
    executed does not depend on that. */
module WorkloadExecution {

  // ---- The specification: phases as values ---------------------------------------------------

  datatype PhaseView = PhaseView(id: int, iterations: int, initialIterations: int, schedulingPoint: bool)

  /** One executed iteration of a phase, numbered from the phase's beginning. */
  datatype Step = Step(id: int, iteration: int)

  /** The iterations that a phase still has to run. */
  function StepsOf(p: PhaseView): seq<Step>
    decreases p.iterations
  {
    if p.iterations <= 0 then []
    else if p.iterations == 1 then [Step(p.id, p.initialIterations - 1)]
    else [Step(p.id, p.initialIterations - p.iterations)] + StepsOf(p.(iterations := p.iterations - 1))
  }

  /** All iterations of all phases in order. */
  function Pending(ps: seq<PhaseView>): seq<Step> {
    if ps == [] then [] else StepsOf(ps[0]) + Pending(ps[1..])
  }

  /** The first phase after one of its iterations was run. */
  function AfterOne(ps: seq<PhaseView>): (r: seq<PhaseView>)
    requires ps != []
  {
    if ps[0].iterations == 1 then ps[1..] else ps[0 := ps[0].(iterations := ps[0].iterations - 1)]
  }

  /** The iterations run one by one up to the first phase without any. */
  function Runnable(ps: seq<PhaseView>): seq<Step>
    decreases |ps|, if ps == [] then 0 else ps[0].iterations
  {
    if ps == [] || ps[0].iterations <= 0 then []
    else [Step(ps[0].id, ps[0].initialIterations - ps[0].iterations)] + Runnable(AfterOne(ps))
  }

  predicate AllPositive(ps: seq<PhaseView>) {
    forall k :: 0 <= k < |ps| ==> ps[k].iterations > 0
  }

  function TotalIterations(ps: seq<PhaseView>): int {
    if ps == [] then 0 else ps[0].iterations + TotalIterations(ps[1..])
  }

  /** The phases when `remaining` iterations of the first one are left. */
  function Current(ps: seq<PhaseView>, remaining: int): seq<PhaseView> {
    if ps == [] then [] else ps[0 := ps[0].(iterations := remaining)]
  }

  /** `advance`: whole phases are done, and of the next one some iterations. */
  function Advanced(ps: seq<PhaseView>, completed: nat, remaining: int): seq<PhaseView>
    requires completed <= |ps|
  {
    if remaining > 0 then Current(ps[completed..], remaining) else ps[completed..]
  }

  lemma {:induction false} RunnableIsPending(ps: seq<PhaseView>)
    requires AllPositive(ps)
    ensures Runnable(ps) == Pending(ps)
    decreases |ps|, if ps == [] then 0 else ps[0].iterations
  {
    if ps != [] {
      var p, next := ps[0], AfterOne(ps);
      RunnableIsPending(next);
      if p.iterations > 1 {
        assert next[1..] == ps[1..];
        Associative(Step(p.id, p.initialIterations - p.iterations), StepsOf(next[0]), Pending(ps[1..]));
      }
    }
  }

  lemma Associative(x: Step, a: seq<Step>, b: seq<Step>)
    ensures [x] + (a + b) == ([x] + a) + b
  {
  }

  /** Phases whose iteration count was never touched. */
  ghost predicate Fresh(ps: seq<PhaseView>) {
    forall k :: 0 <= k < |ps| ==> ps[k].iterations == ps[k].initialIterations >= 0
  }

  lemma {:induction false} StepsAreNumbered(p: PhaseView, m: nat)
    requires m < p.iterations
    ensures |StepsOf(p)| == p.iterations && StepsOf(p)[m] == Step(p.id, p.initialIterations - p.iterations + m)
    decreases p.iterations
  {
    var rest := p.(iterations := p.iterations - 1);
    if p.iterations == 1 {
      assert StepsOf(rest) == [];
    } else {
      StepsAreNumbered(rest, if m == 0 then 0 else m - 1);
    }
  }

  lemma StepCount(p: PhaseView)
    ensures |StepsOf(p)| == if p.iterations > 0 then p.iterations else 0
  {
    if p.iterations > 0 { StepsAreNumbered(p, 0); }
  }

  /** The full trace holds every phase with its full count, in order and exactly once: iteration
      `m` of phase `k` stands right behind all iterations of the earlier phases, and there is
      nothing else. */
  lemma {:induction false} PendingInOrder(ps: seq<PhaseView>, k: nat, m: nat)
    requires Fresh(ps) && k < |ps| && m < ps[k].iterations
    ensures |Pending(ps)| == TotalIterations(ps) && TotalIterations(ps[..k]) >= 0
    ensures TotalIterations(ps[..k]) + m < |Pending(ps)|
    ensures Pending(ps)[TotalIterations(ps[..k]) + m] == Step(ps[k].id, m)
  {
    StepCount(ps[0]);
    PendingCount(ps);
    PendingCount(ps[1..]);
    if k == 0 {
      StepsAreNumbered(ps[0], m);
    } else {
      PendingInOrder(ps[1..], k - 1, m);
      assert ps[..k][1..] == ps[1..][..k - 1];
    }
  }

  lemma {:induction false} PendingCount(ps: seq<PhaseView>)
    requires Fresh(ps)
    ensures |Pending(ps)| == TotalIterations(ps)
  {
    if ps != [] {
      StepCount(ps[0]);
      PendingCount(ps[1..]);
    }
  }

  /** Advancing keeps the balance: what is booked as completed is what the phases lose. */
  lemma AdvanceConserves(ps: seq<PhaseView>, completed: nat, remaining: int)
    requires completed <= |ps| && (remaining > 0 ==> completed < |ps|)
    ensures TotalIterations(ps[..completed]) + (if remaining > 0 then ps[completed].iterations - remaining else 0)
          + TotalIterations(Advanced(ps, completed, remaining)) == TotalIterations(ps)
  {
    TotalSplits(ps, completed);
    if remaining > 0 {
      assert Advanced(ps, completed, remaining)[1..] == ps[completed..][1..];
    }
  }

  lemma {:induction false} TotalSplits(ps: seq<PhaseView>, k: nat)
    requires k <= |ps|
    ensures TotalIterations(ps) == TotalIterations(ps[..k]) + TotalIterations(ps[k..])
  {
    if k == 0 {
      assert ps[0..] == ps;
    } else {
      TotalSplits(ps[1..], k - 1);
      assert ps[..k][1..] == ps[1..][..k - 1];
      assert ps[1..][k - 1..] == ps[k..];
    }
  }

  lemma {:induction false} OneMorePhase(ps: seq<PhaseView>, k: nat)
    requires k < |ps|
    ensures TotalIterations(ps[..k + 1]) == TotalIterations(ps[..k]) + ps[k].iterations
  {
    if k > 0 {
      OneMorePhase(ps[1..], k - 1);
      assert ps[..k + 1][1..] == ps[1..][..k];
      assert ps[..k][1..] == ps[1..][..k - 1];
    }
  }

  lemma DropDrop<T>(s: seq<T>, a: nat, b: nat)
    requires a + b <= |s|
    ensures s[a..][b..] == s[a + b..]
  {
  }

  // ---- The objects ---------------------------------------------------------------------------

  class Phase {
    const id: int
    var iterations: int
    const initialIterations: int
    const schedulingPoint: bool

    constructor (id: int, iterations: int, schedulingPoint: bool)
      ensures View() == PhaseView(id, iterations, iterations, schedulingPoint)
    {
      this.id, this.iterations, this.initialIterations, this.schedulingPoint := id, iterations, iterations, schedulingPoint;
    }

    function View(): PhaseView
      reads this
    {
      PhaseView(id, iterations, initialIterations, schedulingPoint)
    }

    method SetIterations(n: int)
      modifies this
      ensures View() == old(View()).(iterations := n)
    {
      iterations := n;
    }
  }

  function Views(ps: seq<Phase>): (r: seq<PhaseView>)
    reads ps
    ensures |r| == |ps| && forall k :: 0 <= k < |ps| ==> r[k] == ps[k].View()
  {
    if ps == [] then [] else [ps[0].View()] + Views(ps[1..])
  }

  ghost predicate Separate(ps: seq<Phase>) {
    forall i, k :: 0 <= i < k < |ps| ==> ps[i] != ps[k]
  }

  class Workload {
    var phases: seq<Phase>
    const totalPhaseCount: int
    var completedPhases: int

    /** Completed and remaining iterations always add up to the total. */
    ghost predicate Valid()
      reads this, phases
    {
      Separate(phases) && completedPhases + TotalIterations(Views(phases)) == totalPhaseCount
    }

    constructor (phases: seq<Phase>)
      requires Separate(phases)
      ensures Valid() && this.phases == phases && completedPhases == 0
    {
      var total := 0;
      for i := 0 to |phases|
        invariant total == TotalIterations(Views(phases)[..i])
      {
        OneMorePhase(Views(phases), i);
        total := total + phases[i].iterations;
      }
      assert Views(phases)[..|phases|] == Views(phases);
      this.phases, totalPhaseCount, completedPhases := phases, total, 0;
    }

    method Advance(completed: nat, remaining: int)
      requires Valid() && completed <= |phases| && (remaining > 0 ==> completed < |phases|)
      modifies this, phases
      ensures Valid() && phases == old(phases)[completed..]
      ensures Views(phases) == Advanced(old(Views(phases)), completed, remaining)
    {
      hide Views;
      ghost var before := Views(phases);
      for i := 0 to completed
        invariant phases == old(phases)[i..] && completedPhases == old(completedPhases) + TotalIterations(before[..i])
        modifies this
      {
        OneMorePhase(before, i);
        DropDrop(old(phases), i, 1);
        completedPhases := completedPhases + phases[0].iterations;
        phases := phases[1..];
      }
      AdvanceConserves(before, completed, remaining);
      SuffixViews(old(phases), completed);
      if remaining > 0 {
        completedPhases := completedPhases + (phases[0].iterations - remaining);
        phases[0].SetIterations(remaining);
      }
      assert Views(phases) == Advanced(before, completed, remaining);
    }

    method Complete()
      modifies this
      ensures Valid() && phases == [] && completedPhases == totalPhaseCount
    {
      phases := [];
      completedPhases := totalPhaseCount;
    }
  }

  /** The phases left are the last ones. */
  ghost predicate IsSuffix(s: seq<Phase>, all: seq<Phase>) {
    |s| <= |all| && s == all[|all| - |s|..]
  }

  // ---- The application loop ------------------------------------------------------------------

  /** How an application actor ends: the workload is processed, a scheduling point was forwarded
      to the scheduler (which starts the next actor), or the loop ended without a message. */
  datatype Outcome = Processed | Forwarded | Stalled

  /** Running one iteration is the first step of what is runnable. */
  lemma CurrentStep(executed: seq<Step>, ps: seq<PhaseView>, remaining: int)
    requires ps != [] && remaining > 0
    ensures var next := if remaining == 1 then ps[1..] else Current(ps, remaining - 1);
      && |Runnable(Current(ps, remaining))| == 1 + |Runnable(next)|
      && executed + Runnable(Current(ps, remaining)) == (executed + [Step(ps[0].id, ps[0].initialIterations - remaining)]) + Runnable(next)
      && (AllPositive(Current(ps, remaining)) <==> AllPositive(next))
  {
    var now, next := Current(ps, remaining), if remaining == 1 then ps[1..] else Current(ps, remaining - 1);
    assert AfterOne(now) == next;
    if remaining == 1 {
      assert forall k :: 0 <= k < |next| ==> next[k] == now[k + 1];
      assert forall k :: 1 <= k < |now| ==> now[k] == next[k - 1];
    } else {
      assert forall k :: 1 <= k < |now| ==> now[k] == next[k];
    }
  }

  lemma CurrentIsWhole(ps: seq<PhaseView>, remaining: int)
    requires ps == [] || remaining == ps[0].iterations
    ensures Current(ps, remaining) == ps
  {
  }

  /** One actor. `fastContinue` decides at the n-th scheduling point whether the actor goes on in
      place; it stands for the configuration, the clock and the job's state at that moment. */
  method RunApplication(malleable: bool, w: Workload, fastContinue: nat -> bool, pointsSeen: nat)
      returns (outcome: Outcome, executed: seq<Step>, points: nat)
    requires w.Valid() && w.phases != []
    modifies w, w.phases
    ensures w.Valid() && IsSuffix(w.phases, old(w.phases))
    ensures outcome.Processed? ==> executed == Runnable(old(Views(w.phases))) && AllPositive(old(Views(w.phases)))
    ensures outcome.Stalled? ==> executed == Runnable(old(Views(w.phases))) && !AllPositive(old(Views(w.phases)))
    ensures outcome.Forwarded? ==> executed != [] && w.phases != [] && executed + Runnable(Views(w.phases)) == Runnable(old(Views(w.phases)))
    ensures outcome.Forwarded? ==> (AllPositive(Views(w.phases)) <==> AllPositive(old(Views(w.phases))))
  {
    hide Runnable;
    hide AllPositive;
    hide IsSuffix;
    hide Current;
    hide Separate;
    hide TotalIterations;
    hide Views;
    ghost var all, start := w.phases, Views(w.phases);
    SuffixOfSuffix(all, all, all);
    var queue := w.phases;
    var remaining := queue[0].iterations;
    var completed := 0;
    var initialPhase := true;
    outcome, executed, points := Stalled, [], pointsSeen;
    ghost var now := start;
    CurrentIsWhole(start, remaining);
    while remaining > 0
      invariant w.Valid() && IsSuffix(w.phases, all)
      invariant completed <= |w.phases| && (queue != [] ==> queue == w.phases[completed..])
      invariant outcome == if queue == [] then Processed else Stalled
      invariant queue == [] ==> remaining == 0
      invariant !initialPhase ==> executed != []
      invariant now == Current(Views(queue), remaining)
      invariant executed + Runnable(now) == Runnable(start) && (AllPositive(now) <==> AllPositive(start))
      decreases |Runnable(now)|, if initialPhase then 0 else 1
    {
      var phase := queue[0];
      if !initialPhase && malleable && phase.schedulingPoint {
        ghost var before := w.phases;
        SuffixOfSuffix(before, before, all);
        SuffixViews(w.phases, completed);
        w.Advance(completed, remaining);
        DropIsSuffix(before, completed, all);
        assert Views(w.phases) == now;
        points := points + 1;
        if fastContinue(points - 1) {
          queue := w.phases;
          remaining := queue[0].iterations;
          completed := 0;
          initialPhase := true;
          CurrentIsWhole(Views(queue), remaining);
          continue;
        }
        outcome := Forwarded;
        break;
      }
      CurrentStep(executed, Views(queue), remaining);
      executed := executed + [Step(phase.id, phase.initialIterations - remaining)];
      remaining := remaining - 1;
      initialPhase := false;
      if remaining == 0 {
        SuffixViews(queue, 1);
        DropDrop(w.phases, completed, 1);
        queue := queue[1..];
        if queue == [] {
          outcome := Processed;
        } else {
          completed := completed + 1;
          remaining := queue[0].iterations;
        }
        CurrentIsWhole(Views(queue), remaining);
      }
      now := Current(Views(queue), remaining);
    }
    NothingRunnable(Views(queue), remaining);
  }

  lemma DropIsSuffix(s: seq<Phase>, k: nat, all: seq<Phase>)
    requires k <= |s| && IsSuffix(s, all)
    ensures IsSuffix(s[k..], all)
  {
  }

  lemma SuffixOfSuffix(a: seq<Phase>, b: seq<Phase>, c: seq<Phase>)
    ensures IsSuffix(a, a)
    ensures IsSuffix(a, b) && IsSuffix(b, c) ==> IsSuffix(a, c) && forall p :: p in a ==> p in c
  {
  }

  lemma SuffixViews(ps: seq<Phase>, k: nat)
    requires k <= |ps|
    ensures Views(ps[k..]) == Views(ps)[k..]
  {
  }

  lemma NothingRunnable(ps: seq<PhaseView>, remaining: int)
    ensures ps == [] ==> Runnable(Current(ps, remaining)) == [] && AllPositive(Current(ps, remaining))
    ensures ps != [] && remaining <= 0 ==> Runnable(Current(ps, remaining)) == [] && !AllPositive(Current(ps, remaining))
  {
  }

  /** A whole job: actors run one after the other until the workload is processed or an actor
      ends without a message. For every sequence of decisions at scheduling points the job executes
      the same trace, and it completes if and only if every phase has a positive count; a phase
      without iterations stalls it. */
  method RunJob(malleable: bool, w: Workload, fastContinue: nat -> bool) returns (completed: bool, executed: seq<Step>)
    requires w.Valid() && w.phases != []
    modifies w, w.phases
    ensures completed <==> AllPositive(old(Views(w.phases)))
    ensures executed == Runnable(old(Views(w.phases)))
    ensures completed ==> executed == Pending(old(Views(w.phases)))
    ensures w.Valid() && (completed ==> w.phases == [] && w.completedPhases == w.totalPhaseCount)
  {
    hide Runnable;
    hide AllPositive;
    hide IsSuffix;
    hide Pending;
    hide Views;
    ghost var all, start := w.phases, Views(w.phases);
    var points := 0;
    executed := [];
    SuffixOfSuffix(all, all, all);
    while true
      invariant w.Valid() && w.phases != [] && IsSuffix(w.phases, all)
      invariant executed + Runnable(Views(w.phases)) == Runnable(start)
      invariant AllPositive(Views(w.phases)) <==> AllPositive(start)
      decreases |Runnable(Views(w.phases))|
    {
      SuffixOfSuffix(w.phases, w.phases, all);
      ghost var before, rest := w.phases, Runnable(Views(w.phases));
      var outcome, part;
      outcome, part, points := RunApplication(malleable, w, fastContinue, points);
      SuffixOfSuffix(w.phases, before, all);
      PartsCompose(executed, part, Runnable(Views(w.phases)));
      executed := executed + part;
      match outcome {
        case Processed =>
          w.Complete();
          RunnableIsPending(start);
          return true, executed;
        case Stalled =>
          return false, executed;
        case Forwarded =>
      }
    }
  }

  lemma PartsCompose(a: seq<Step>, b: seq<Step>, c: seq<Step>)
    ensures (a + b) + c == a + (b + c)
  {
  }
}
