/** Runtime prediction: Amdahl speedup, predicted runtimes, and the remaining-work state that a
    job carries while it runs and is reallocated. */
module RuntimePrediction {

  /** The attributes a job brings along. Submission rejects every value outside `Valid`. */
  datatype Profile = Profile(predictedRuntime: real, baseNodes: int, parallelPercentage: real)
  {
    ghost predicate Valid() {
      predictedRuntime > 0.0 && baseNodes > 0 && 0.0 <= parallelPercentage <= 1.0
    }

    function SerialShare(nodes: int): (r: real)
      requires Valid() && nodes > 0
      ensures r > 0.0
    {
      var share := parallelPercentage / (nodes as real);
      assert parallelPercentage > 0.0 ==> share > 0.0 by { QuotientPositive(parallelPercentage, nodes as real); }
      (1.0 - parallelPercentage) + share
    }

    /** The scaling formula of the cluster profiles. */
    function Speedup(nodes: int): (r: real)
      requires Valid() && nodes > 0
      ensures r > 0.0
    {
      QuotientPositive(1.0, SerialShare(nodes));
      1.0 / SerialShare(nodes)
    }

    function RelativeRate(nodes: int): (r: real)
      requires Valid() && nodes > 0
      ensures r > 0.0
    {
      QuotientPositive(Speedup(nodes), Speedup(baseNodes));
      Speedup(nodes) / Speedup(baseNodes)
    }

    function PredictedRuntimeForNodes(nodes: int): (r: real)
      requires Valid() && nodes > 0
      ensures r > 0.0
    {
      QuotientPositive(predictedRuntime, RelativeRate(nodes));
      predictedRuntime / RelativeRate(nodes)
    }
  }

  lemma QuotientPositive(a: real, b: real)
    ensures a > 0.0 && b > 0.0 ==> a / b > 0.0
    ensures a >= 0.0 && b > 0.0 ==> a / b >= 0.0
  {
  }

  lemma QuotientMonotone(a: real, b: real, c: real)
    requires a <= b && c > 0.0
    ensures a / c <= b / c
  {
  }

  lemma QuotientAntitone(a: real, b: real, c: real)
    requires a >= 0.0 && 0.0 < b <= c
    ensures a / c <= a / b
  {
  }

  lemma ProductNonNegative(a: real, c: real)
    requires a >= 0.0 && c > 0.0
    ensures a * c >= 0.0
    ensures a == 0.0 ==> a * c == 0.0
  {
  }

  /** With more nodes a job is predicted to run no longer, and from its reference allocation it
      is predicted to run exactly its reference runtime. */
  lemma RuntimeAntitoneInNodes(p: JobProfile, fewer: int, more: int)
    requires 0 < fewer <= more
    ensures p.PredictedRuntimeForNodes(more) <= p.PredictedRuntimeForNodes(fewer)
    ensures p.RelativeRate(fewer) <= p.RelativeRate(more)
    ensures p.PredictedRuntimeForNodes(p.baseNodes) == p.predictedRuntime
  {
    QuotientAntitone(p.parallelPercentage, fewer as real, more as real);
    QuotientAntitone(1.0, p.SerialShare(more), p.SerialShare(fewer));
    QuotientMonotone(p.Speedup(fewer), p.Speedup(more), p.Speedup(p.baseNodes));
    QuotientAntitone(p.predictedRuntime, p.RelativeRate(fewer), p.RelativeRate(more));
  }

  type JobProfile = p: Profile | p.Valid() witness Profile(1.0, 1, 0.0)

  /** By what a quotient of reciprocals is determined. */
  lemma QuotientOfReciprocals(u: real, v: real) returns (r: real)
    requires u > 0.0 && v > 0.0
    ensures 1.0 / v > 0.0 && r == (1.0 / u) / (1.0 / v) && r > 0.0 && r * u == v
  {
    var i, k := 1.0 / u, 1.0 / v;
    QuotientPositive(1.0, u);
    QuotientPositive(1.0, v);
    QuotientPositive(i, k);
    r := i / k;
    assert i * u == 1.0 && k * v == 1.0;
    assert r * k == i;
    Regroup(r, k, v);
    Regroup(i, v, u);
    assert r == i * v;
    assert i * v * u == i * u * v by { Regroup(i, u, v); assert v * u == u * v; }
  }

  lemma Regroup(a: real, b: real, c: real)
    ensures (a * b) * c == a * (b * c)
  {
  }

  lemma DividingByRate(a: real, r: real, u: real, v: real)
    requires r > 0.0 && v > 0.0 && r * u == v
    ensures (a / r) * v == a * u && a / r == a * u / v
  {
    var x := a / r;
    assert x * r == a;
    Regroup(x, r, u);
    assert x * v == a * u;
    QuotientOfProduct(x, v);
  }

  lemma QuotientOfProduct(x: real, v: real)
    requires v > 0.0
    ensures x * v / v == x
  {
  }

  /** Amdahl's law as one formula: with the parallel share p, a job of the base count b is predicted
      to run ((1 - p) + p/n) / ((1 - p) + p/b) times its predicted runtime on n nodes; the rate at
      which its work is used up is the inverse. */
  lemma AmdahlsLaw(j: JobProfile, nodes: int)
    requires nodes > 0
    ensures var p := j.parallelPercentage; var share, baseShare := (1.0 - p) + p / nodes as real, (1.0 - p) + p / j.baseNodes as real;
      && baseShare > 0.0
      && j.PredictedRuntimeForNodes(nodes) == j.predictedRuntime * share / baseShare
      && j.RelativeRate(nodes) * share == baseShare
  {
    var u, v := j.SerialShare(nodes), j.SerialShare(j.baseNodes);
    var r := QuotientOfReciprocals(u, v);
    assert r == j.RelativeRate(nodes);
    DividingByRate(j.predictedRuntime, r, u, v);
  }

  type NodeCount = n: int | n > 0 witness 1

  /** The prediction fields of a job; `nodes` is the executing node count of the last update. */
  datatype Prediction =
    | NoPrediction
    | Prediction(referenceNodes: int, referenceRuntime: real, remainingWork: real, lastUpdate: real, nodes: NodeCount)

  function Max0(x: real): real {
    if x > 0.0 then x else 0.0
  }

  function UpdateProgress(p: JobProfile, s: Prediction, now: real): (r: Prediction)
    ensures r.Prediction? <==> s.Prediction?
    ensures r.Prediction? ==> r.nodes == s.nodes
  {
    if s.NoPrediction? || now <= s.lastUpdate then s
    else s.(remainingWork := Max0(s.remainingWork - (now - s.lastUpdate) * p.RelativeRate(s.nodes)), lastUpdate := now)
  }

  function Synchronize(p: JobProfile, s: Prediction, now: real, executingNodes: NodeCount): Prediction
  {
    if s.NoPrediction? then
      Prediction(p.baseNodes, p.predictedRuntime, p.predictedRuntime, now, executingNodes)
    else
      var u := UpdateProgress(p, s, now);
      Prediction(u.referenceNodes, u.referenceRuntime, u.remainingWork, now, executingNodes)
  }

  /** Remaining work as seen at `now`, without storing it. */
  function RemainingWorkAt(p: JobProfile, s: Prediction, now: real): real
    requires s.Prediction?
  {
    if now > s.lastUpdate then
      Max0(s.remainingWork - (now - s.lastUpdate) * p.RelativeRate(s.nodes))
    else
      s.remainingWork
  }

  function RemainingRuntimeForNodes(p: JobProfile, s: Prediction, plannedNodes: int, now: real): real
    requires s.Prediction? && plannedNodes > 0
  {
    RemainingWorkAt(p, s, now) / p.RelativeRate(plannedNodes)
  }

  /** The remaining runtime on n nodes is the remaining work by the same formula. */
  lemma RemainingByAmdahlsLaw(j: JobProfile, s: Prediction, nodes: int, now: real)
    requires s.Prediction? && nodes > 0
    ensures var p := j.parallelPercentage; var share, baseShare := (1.0 - p) + p / nodes as real, (1.0 - p) + p / j.baseNodes as real;
      baseShare > 0.0 && RemainingRuntimeForNodes(j, s, nodes, now) == RemainingWorkAt(j, s, now) * share / baseShare
  {
    AmdahlsLaw(j, nodes);
    DividingByRate(RemainingWorkAt(j, s, now), j.RelativeRate(nodes), j.SerialShare(nodes), j.SerialShare(j.baseNodes));
  }

  function RemainingRuntime(p: JobProfile, s: Prediction, now: real): real
    requires s.Prediction?
  {
    RemainingRuntimeForNodes(p, s, s.nodes, now)
  }

  /** What can happen to the prediction of a running job: a progress update by the scheduler, or
      a synchronisation because the job took over another allocation. */
  datatype PredictionEvent = Progress(at: real) | Reallocate(at: real, executingNodes: NodeCount)

  /** Event times follow the simulated clock. */
  ghost predicate Chronological(from: real, events: seq<PredictionEvent>, end: real)
    decreases |events|
  {
    if events == [] then from <= end
    else from <= events[0].at && Chronological(events[0].at, events[1..], end)
  }

  ghost function AfterEvent(p: JobProfile, s: Prediction, e: PredictionEvent): (r: Prediction)
    requires s.Prediction? && s.lastUpdate <= e.at
    ensures r.Prediction? && r.lastUpdate == e.at
    ensures r.nodes == NodesAfter(e, s.nodes)
  {
    match e
    case Progress(at) => UpdateProgress(p, s, at)
    case Reallocate(at, n) => Synchronize(p, s, at, n)
  }

  ghost function NodesAfter(e: PredictionEvent, nodes: NodeCount): NodeCount {
    if e.Reallocate? then e.executingNodes else nodes
  }

  ghost function Replay(p: JobProfile, s: Prediction, events: seq<PredictionEvent>, end: real): (r: Prediction)
    requires s.Prediction? && Chronological(s.lastUpdate, events, end)
    ensures r.Prediction? && r.lastUpdate <= end
    decreases |events|
  {
    if events == [] then s else Replay(p, AfterEvent(p, s, events[0]), events[1..], end)
  }

  /** Work served from `from` to `end`: segment length times rate, where only reallocations
      separate segments. Progress updates do not occur in it. */
  ghost function WorkServed(p: JobProfile, from: real, nodes: NodeCount, events: seq<PredictionEvent>, end: real): real
    decreases |events|
  {
    if events == [] then (end - from) * p.RelativeRate(nodes)
    else match events[0]
      case Progress(_) => WorkServed(p, from, nodes, events[1..], end)
      case Reallocate(at, n) => (at - from) * p.RelativeRate(nodes) + WorkServed(p, at, n, events[1..], end)
  }

  /** The same sum over any table of cumulated work, `table(t, n)` standing for `t` times the
      rate of `n` nodes. It keeps products out of the induction below. */
  ghost function Tabulated(table: (real, int) -> real, from: real, nodes: NodeCount, events: seq<PredictionEvent>, end: real): real
    decreases |events|
  {
    if events == [] then table(end, nodes) - table(from, nodes)
    else match events[0]
      case Progress(_) => Tabulated(table, from, nodes, events[1..], end)
      case Reallocate(at, n) => table(at, nodes) - table(from, nodes) + Tabulated(table, at, n, events[1..], end)
  }

  function Table(p: JobProfile): (real, int) -> real
  {
    (t: real, n: int) => if n > 0 then t * p.RelativeRate(n) else 0.0
  }

  lemma {:induction false} TabulatedIsServed(p: JobProfile, from: real, nodes: NodeCount, events: seq<PredictionEvent>, end: real)
    ensures Tabulated(Table(p), from, nodes, events, end) == WorkServed(p, from, nodes, events, end)
    decreases |events|
  {
    if events == [] {
      Distribute(from, end, p.RelativeRate(nodes));
    } else {
      match events[0]
      case Progress(_) => TabulatedIsServed(p, from, nodes, events[1..], end);
      case Reallocate(at, n) =>
        TabulatedIsServed(p, at, n, events[1..], end);
        Distribute(from, at, p.RelativeRate(nodes));
    }
  }

  lemma Distribute(a: real, b: real, c: real)
    ensures b * c - a * c == (b - a) * c
  {
  }

  lemma {:induction false} TabulatedSplits(table: (real, int) -> real, from: real, mid: real, nodes: NodeCount, events: seq<PredictionEvent>, end: real)
    requires Chronological(mid, events, end)
    requires forall a: real, b: real, n: int :: n > 0 && a <= b ==> table(a, n) <= table(b, n)
    ensures Tabulated(table, from, nodes, events, end) == table(mid, nodes) - table(from, nodes) + Tabulated(table, mid, nodes, events, end)
    ensures Tabulated(table, mid, nodes, events, end) >= 0.0
    decreases |events|
  {
    if events != [] {
      match events[0]
      case Progress(at) =>
        TabulatedSplits(table, from, at, nodes, events[1..], end);
        TabulatedSplits(table, mid, at, nodes, events[1..], end);
      case Reallocate(at, n) =>
        TabulatedSplits(table, at, at, n, events[1..], end);
    }
  }

  lemma TableMonotone(p: JobProfile)
    ensures forall a: real, b: real, n: int :: n > 0 && a <= b ==> Table(p)(a, n) <= Table(p)(b, n)
  {
  }

  lemma AfterEventWork(p: JobProfile, s: Prediction, e: PredictionEvent)
    requires s.Prediction? && s.lastUpdate <= e.at && s.remainingWork >= 0.0
    ensures AfterEvent(p, s, e).remainingWork == Max0(s.remainingWork - (Table(p)(e.at, s.nodes) - Table(p)(s.lastUpdate, s.nodes)))
  {
  }

  /** The history run on a table of cumulated work instead of on the job. */
  ghost function TabulatedReplay(table: (real, int) -> real, work: real, last: real, nodes: NodeCount,
                                 events: seq<PredictionEvent>, end: real): real
    decreases |events|
  {
    if events == [] then Max0(work - (table(end, nodes) - table(last, nodes)))
    else
      var at := events[0].at;
      TabulatedReplay(table, Max0(work - (table(at, nodes) - table(last, nodes))), at, NodesAfter(events[0], nodes), events[1..], end)
  }

  lemma {:induction false} TabulatedReplayCutsOffOnce(table: (real, int) -> real, work: real, last: real, nodes: NodeCount,
                                                      events: seq<PredictionEvent>, end: real)
    requires work >= 0.0 && Chronological(last, events, end)
    requires forall a: real, b: real, n: int :: n > 0 && a <= b ==> table(a, n) <= table(b, n)
    ensures TabulatedReplay(table, work, last, nodes, events, end) == Max0(work - Tabulated(table, last, nodes, events, end))
    decreases |events|
  {
    if events != [] {
      var at, next := events[0].at, NodesAfter(events[0], nodes);
      TabulatedReplayCutsOffOnce(table, Max0(work - (table(at, nodes) - table(last, nodes))), at, next, events[1..], end);
      TabulatedSplits(table, last, at, nodes, events[1..], end);
      TabulatedSplits(table, at, at, next, events[1..], end);
    }
  }

  lemma {:induction false} ReplayIsTabulated(p: JobProfile, s: Prediction, events: seq<PredictionEvent>, end: real)
    requires s.Prediction? && s.remainingWork >= 0.0
    requires Chronological(s.lastUpdate, events, end)
    ensures RemainingWorkAt(p, Replay(p, s, events, end), end)
         == TabulatedReplay(Table(p), s.remainingWork, s.lastUpdate, s.nodes, events, end)
    decreases |events|
  {
    if events == [] {
      AfterEventWork(p, s, Progress(end));
    } else {
      AfterEventWork(p, s, events[0]);
      ReplayIsTabulated(p, AfterEvent(p, s, events[0]), events[1..], end);
    }
  }

  /** The remaining work after any history is the initial work minus the work served, cut off
      at zero. How many progress updates ran, and when, makes no difference. */
  lemma RemainingWorkIsPathIndependent(p: JobProfile, s: Prediction, events: seq<PredictionEvent>, end: real)
    requires s.Prediction? && s.remainingWork >= 0.0
    requires Chronological(s.lastUpdate, events, end)
    ensures RemainingWorkAt(p, Replay(p, s, events, end), end)
         == Max0(s.remainingWork - WorkServed(p, s.lastUpdate, s.nodes, events, end))
  {
    TableMonotone(p);
    ReplayIsTabulated(p, s, events, end);
    TabulatedReplayCutsOffOnce(Table(p), s.remainingWork, s.lastUpdate, s.nodes, events, end);
    TabulatedIsServed(p, s.lastUpdate, s.nodes, events, end);
  }

  /** Between reallocations the predicted end `now + remaining runtime` does not move exactly as
      long as there is work left; afterwards the remaining runtime is zero. */
  lemma PredictedEndIsConstant(p: JobProfile, s: Prediction, now: real)
    requires s.Prediction? && s.remainingWork >= 0.0 && now >= s.lastUpdate
    ensures now + RemainingRuntime(p, s, now) == s.lastUpdate + RemainingRuntime(p, s, s.lastUpdate)
       <==> (now - s.lastUpdate) * p.RelativeRate(s.nodes) <= s.remainingWork
    ensures (now - s.lastUpdate) * p.RelativeRate(s.nodes) >= s.remainingWork ==> RemainingRuntime(p, s, now) == 0.0
  {
    var rate, dt := p.RelativeRate(s.nodes), now - s.lastUpdate;
    ProductNonNegative(dt, rate);
    assert RemainingWorkAt(p, s, now) == Max0(s.remainingWork - dt * rate);
    EndArithmetic(s.remainingWork, dt, rate);
  }

  lemma EndArithmetic(work: real, dt: real, rate: real)
    requires work >= 0.0 && dt >= 0.0 && rate > 0.0
    ensures dt + Max0(work - dt * rate) / rate == work / rate <==> dt * rate <= work
    ensures dt * rate >= work ==> Max0(work - dt * rate) / rate == 0.0
  {
  }
}
