/** The energy metrics of a run: what the loop over the sampled intervals accumulates, and that
    the sums balance. */
module EnergyBalance {
  import opened SolarEnergy
  import opened SampledEnergy
  import opened ShutdownReport

  function Times(x: real, y: real): real { x * y }

  datatype EnergyParameters = EnergyParameters(
    cpusPerNode: real, cpuIdle: real, cpuPeak: real, cpuBoot: real, cpuShutdown: real, cpuOff: real,
    nodeIdle: real, nodePeak: real, nodeBoot: real, nodeShutdown: real, nodeOff: real)
  {
    function Idle(): real { cpusPerNode * cpuIdle + nodeIdle }

    function Slope(): real { cpusPerNode * (cpuPeak - cpuIdle) + (nodePeak - nodeIdle) }

    /** The power of all nodes of one category, in watts. */
    function StatePower(c: Category, t: Interval): real {
      match c
      case On => t.counts.on as real * Idle() + t.utilization * Slope()
      case Boot => t.counts.boot as real * (cpusPerNode * cpuBoot + nodeBoot)
      case Shutdown => t.counts.shutdown as real * (cpusPerNode * cpuShutdown + nodeShutdown)
      case Off => t.counts.off as real * (cpusPerNode * cpuOff + nodeOff)
    }
  }

  datatype Totals = Totals(
    total: real, grid: real, solarUsed: real, curtailed: real, peak: real,
    energyOn: real, energyBoot: real, energyShutdown: real, energyOff: real,
    nodesOn: real, nodesBoot: real, nodesShutdown: real, nodesOff: real,
    onUtilization: real, offUtilization: real, onSeconds: real, offSeconds: real, offNodeSeconds: real, overrun: real)

  const NOTHING := Totals(0.0, 0.0, 0.0, 0.0, 0.0, 0.0, 0.0, 0.0, 0.0, 0.0, 0.0, 0.0, 0.0, 0.0, 0.0, 0.0, 0.0, 0.0, 0.0)

  /** All that the metrics of one run depend on beside the intervals. */
  datatype Setting = Setting(energy: EnergyParameters, solar: Solar, start: real, end: real, nodeCount: nat,
                             onWindows: seq<Window>, offWindows: seq<Window>, targetActiveFraction: real)
  {
    ghost predicate Valid() {
      solar.Valid() && start < end && nodeCount > 0
    }

    function From(t: Interval): real { Max(t.left, start) }

    function To(t: Interval): real { Min(t.right, end) }

    function PowerKw(t: Interval): real {
      (energy.StatePower(On, t) + energy.StatePower(Boot, t) + energy.StatePower(Shutdown, t) + energy.StatePower(Off, t)) / 1000.0
    }

    function Demand(t: Interval): real {
      PowerKw(t) * (To(t) - From(t)) / 3600.0
    }

    function Available(t: Interval): real {
      SolarKwh(solar, From(t), To(t))
    }

    function EnergyOf(c: Category, t: Interval): real {
      energy.StatePower(c, t) * (To(t) - From(t)) / 3600000.0
    }

    function OnOverlap(t: Interval): real { OverlapSeconds(From(t), To(t), onWindows) }

    function OffOverlap(t: Interval): real { OverlapSeconds(From(t), To(t), offWindows) }

    function OverrunOf(t: Interval): real
      requires nodeCount > 0
    {
      if OffOverlap(t) > 0.0 then
        Max(0.0, t.counts.on as real - targetActiveFraction * nodeCount as real) * (OffOverlap(t) / 3600.0)
      else 0.0
    }

    /** The totals after one more interval. */
    function Add(m: Totals, t: Interval): Totals
      requires nodeCount > 0
    {
      if To(t) <= From(t) then m
      else
        var duration, used := To(t) - From(t), Min(Demand(t), Available(t));
        Totals(m.total + Demand(t), m.grid + (Demand(t) - used), m.solarUsed + used,
               m.curtailed + Max(0.0, Available(t) - used), Max(m.peak, PowerKw(t)),
               m.energyOn + EnergyOf(On, t), m.energyBoot + EnergyOf(Boot, t),
               m.energyShutdown + EnergyOf(Shutdown, t), m.energyOff + EnergyOf(Off, t),
               m.nodesOn + Times(t.counts.on as real, duration), m.nodesBoot + Times(t.counts.boot as real, duration),
               m.nodesShutdown + Times(t.counts.shutdown as real, duration), m.nodesOff + Times(t.counts.off as real, duration),
               m.onUtilization + Times(t.utilization / nodeCount as real, OnOverlap(t)),
               m.offUtilization + Times(t.utilization / nodeCount as real, OffOverlap(t)),
               m.onSeconds + OnOverlap(t), m.offSeconds + OffOverlap(t),
               m.offNodeSeconds + Times(t.counts.off as real, OffOverlap(t)), m.overrun + OverrunOf(t))
    }

    function Accumulated(tiles: seq<Interval>): Totals
      requires nodeCount > 0
    {
      if tiles == [] then NOTHING else Add(Accumulated(tiles[..|tiles| - 1]), tiles[|tiles| - 1])
    }
  }

  /** The loop of `sampled_metrics`. */
  method SampledMetrics(s: Setting, tiles: seq<Interval>) returns (m: Totals)
    requires s.nodeCount > 0 && s.solar.Valid()
    ensures m == s.Accumulated(tiles)
  {
    hide Times;
    hide SolarKwh;
    hide Setting.Demand;
    hide Setting.PowerKw;
    hide Setting.EnergyOf;
    hide Setting.OnOverlap;
    hide Setting.OffOverlap;
    m := NOTHING;
    assert tiles[..|tiles|] == tiles;
    for i := 0 to |tiles|
      invariant m == s.Accumulated(tiles[..i])
    {
      assert tiles[..i + 1][..i] == tiles[..i];
      var t := tiles[i];
      var a, b := s.From(t), s.To(t);
      if b <= a {
        continue;
      }
      var duration, demand, dtOn, dtOff := b - a, s.Demand(t), s.OnOverlap(t), s.OffOverlap(t);
      var availableSolar := SolarEnergyKwh(s.solar, a, b);
      var used := Min(demand, availableSolar);
      m := m.(total := m.total + demand, grid := m.grid + (demand - used), solarUsed := m.solarUsed + used,
              curtailed := m.curtailed + Max(0.0, availableSolar - used), peak := Max(m.peak, s.PowerKw(t)));
      m := m.(energyOn := m.energyOn + s.EnergyOf(On, t), energyBoot := m.energyBoot + s.EnergyOf(Boot, t),
              energyShutdown := m.energyShutdown + s.EnergyOf(Shutdown, t), energyOff := m.energyOff + s.EnergyOf(Off, t));
      m := m.(nodesOn := m.nodesOn + Times(t.counts.on as real, duration), nodesBoot := m.nodesBoot + Times(t.counts.boot as real, duration),
              nodesShutdown := m.nodesShutdown + Times(t.counts.shutdown as real, duration), nodesOff := m.nodesOff + Times(t.counts.off as real, duration));
      m := m.(onUtilization := m.onUtilization + Times(t.utilization / s.nodeCount as real, dtOn),
              offUtilization := m.offUtilization + Times(t.utilization / s.nodeCount as real, dtOff),
              onSeconds := m.onSeconds + dtOn, offSeconds := m.offSeconds + dtOff,
              offNodeSeconds := m.offNodeSeconds + Times(t.counts.off as real, dtOff));
      if dtOff > 0.0 {
        m := m.(overrun := m.overrun + s.OverrunOf(t));
      }
    }
  }

  // ---- Balance, interval by interval ---------------------------------------------------------

  lemma DemandIsStateEnergies(s: Setting, t: Interval)
    ensures s.Demand(t) == s.EnergyOf(On, t) + s.EnergyOf(Boot, t) + s.EnergyOf(Shutdown, t) + s.EnergyOf(Off, t)
  {
  }

  /** The nodes that are on draw power between idle and peak: each busy node its peak power, the
      others their idle power. */
  lemma PowerInterpolates(e: EnergyParameters, t: Interval)
    ensures e.StatePower(On, t) == (t.counts.on as real - t.utilization) * (e.cpusPerNode * e.cpuIdle + e.nodeIdle)
                                   + t.utilization * (e.cpusPerNode * e.cpuPeak + e.nodePeak)
  {
    var on, busy, idle, peak := t.counts.on as real, t.utilization, e.cpusPerNode * e.cpuIdle + e.nodeIdle, e.cpusPerNode * e.cpuPeak + e.nodePeak;
    assert e.Slope() == peak - idle by { Distribute(e.cpusPerNode, e.cpuPeak, e.cpuIdle); }
    Distribute(busy, peak, idle);
    Distribute(idle, on, busy);
  }

  lemma Distribute(a: real, b: real, c: real)
    ensures a * (b - c) == a * b - a * c
  {
  }

  /** A quantity summed over the intervals of which something lies within the window. */
  ghost function SumOf(s: Setting, f: Interval -> real, tiles: seq<Interval>): real {
    if tiles == [] then 0.0
    else
      var t := tiles[|tiles| - 1];
      SumOf(s, f, tiles[..|tiles| - 1]) + if s.From(t) < s.To(t) then f(t) else 0.0
  }

  ghost function EnergyIn(m: Totals, c: Category): real {
    match c
    case On => m.energyOn
    case Boot => m.energyBoot
    case Shutdown => m.energyShutdown
    case Off => m.energyOff
  }

  /** The energy of every node state is the sum of its power over the intervals, in kilowatt hours. */
  lemma {:induction false} StateEnergyIsSum(s: Setting, tiles: seq<Interval>, c: Category)
    requires s.nodeCount > 0
    ensures EnergyIn(s.Accumulated(tiles), c) == SumOf(s, (t: Interval) => s.EnergyOf(c, t), tiles)
  {
    hide Setting.EnergyOf;
    hide Times;
    hide Setting.PowerKw;
    hide Setting.Demand;
    hide Setting.OnOverlap;
    hide Setting.OffOverlap;
    hide Setting.OverrunOf;
    hide Setting.Available;
    if tiles != [] { StateEnergyIsSum(s, tiles[..|tiles| - 1], c); }
  }

  /** The share of busy nodes, weighted by the seconds within the windows of either kind. */
  lemma {:induction false} UtilizationIsSum(s: Setting, tiles: seq<Interval>)
    requires s.nodeCount > 0
    ensures var m := s.Accumulated(tiles);
      && m.onUtilization == SumOf(s, (t: Interval) => Times(t.utilization / s.nodeCount as real, OverlapSeconds(s.From(t), s.To(t), s.onWindows)), tiles)
      && m.offUtilization == SumOf(s, (t: Interval) => Times(t.utilization / s.nodeCount as real, OverlapSeconds(s.From(t), s.To(t), s.offWindows)), tiles)
  {
    hide Times;
    hide Setting.PowerKw;
    hide Setting.Demand;
    hide Setting.EnergyOf;
    hide Setting.OverrunOf;
    hide Setting.Available;
    hide OverlapSeconds;
    if tiles != [] { UtilizationIsSum(s, tiles[..|tiles| - 1]); }
  }

  /** The peak is the greatest power of any interval within the window, and is reached. */
  lemma {:induction false} PeakIsReached(s: Setting, tiles: seq<Interval>)
    requires s.nodeCount > 0
    ensures var m := s.Accumulated(tiles);
      && (forall k :: 0 <= k < |tiles| && s.From(tiles[k]) < s.To(tiles[k]) ==> s.PowerKw(tiles[k]) <= m.peak)
      && (m.peak == 0.0 || exists k :: 0 <= k < |tiles| && s.From(tiles[k]) < s.To(tiles[k]) && s.PowerKw(tiles[k]) == m.peak)
  {
    hide Setting.PowerKw;
    hide Setting.Demand;
    hide Setting.EnergyOf;
    hide Setting.OnOverlap;
    hide Setting.OffOverlap;
    hide Setting.OverrunOf;
    hide Setting.Available;
    if tiles != [] {
      var init, last := tiles[..|tiles| - 1], tiles[|tiles| - 1];
      PeakIsReached(s, init);
      var before, after := s.Accumulated(init), s.Accumulated(tiles);
      assert forall k :: 0 <= k < |init| ==> tiles[k] == init[k];
      if after.peak == before.peak && before.peak != 0.0 {
        var k :| 0 <= k < |init| && s.From(init[k]) < s.To(init[k]) && s.PowerKw(init[k]) == before.peak;
        assert s.PowerKw(tiles[k]) == after.peak;
      }
    }
  }

  /** Grid and used solar energy make up the total, which is what the four categories of nodes
      consumed. */
  lemma {:induction false} EnergyIsConserved(s: Setting, tiles: seq<Interval>)
    requires s.nodeCount > 0
    ensures var m := s.Accumulated(tiles);
      && m.grid + m.solarUsed == m.total
      && m.total == m.energyOn + m.energyBoot + m.energyShutdown + m.energyOff
  {
    if tiles != [] {
      EnergyIsConserved(s, tiles[..|tiles| - 1]);
      DemandIsStateEnergies(s, tiles[|tiles| - 1]);
    }
  }

  /** In no interval is solar energy curtailed while the grid delivers, and neither is negative. */
  lemma SolarComesFirst(s: Setting, m: Totals, t: Interval)
    requires s.nodeCount > 0
    ensures var n := s.Add(m, t);
      n.grid >= m.grid && n.curtailed >= m.curtailed && (n.grid == m.grid || n.curtailed == m.curtailed)
  {
  }

  // ---- Balance over the whole window ---------------------------------------------------------

  /** Neighbouring intervals meet, and together they reach over the window. */
  ghost predicate Cover(s: Setting, tiles: seq<Interval>) {
    && tiles != [] && tiles[0].left <= s.start && s.end <= tiles[|tiles| - 1].right
    && Contiguous(tiles)
  }

  ghost predicate Contiguous(tiles: seq<Interval>) {
    && (forall k :: 0 <= k < |tiles| ==> tiles[k].left < tiles[k].right)
    && (forall k :: 0 < k < |tiles| ==> tiles[k - 1].right == tiles[k].left)
  }

  ghost predicate Additive(f: (real, real) -> real) {
    forall a: real, b: real, c: real :: a <= b <= c ==> f(a, c) == f(a, b) + f(b, c)
  }

  /** A quantity summed over the clipped intervals. */
  ghost function SumOver(f: (real, real) -> real, s: Setting, tiles: seq<Interval>): real {
    if tiles == [] then 0.0
    else
      var t := tiles[|tiles| - 1];
      SumOver(f, s, tiles[..|tiles| - 1]) + if s.To(t) <= s.From(t) then 0.0 else f(s.From(t), s.To(t))
  }

  /** An additive quantity, summed over intervals that start before the window, is its value for
      the part of the window they reach over. */
  lemma {:induction false} TilesReach(f: (real, real) -> real, s: Setting, tiles: seq<Interval>)
    requires Additive(f) && s.start < s.end && tiles != [] && Contiguous(tiles) && tiles[0].left <= s.start
    ensures SumOver(f, s, tiles) == f(s.start, Max(s.start, Min(s.end, tiles[|tiles| - 1].right)))
  {
    var n := |tiles| - 1;
    assert f(s.start, s.start) == f(s.start, s.start) + f(s.start, s.start);
    if n == 0 {
      assert SumOver(f, s, tiles[..0]) == 0.0;
    } else {
      TilesReach(f, s, tiles[..n]);
      assert tiles[n - 1].right == tiles[n].left;
      assert tiles[..n][n - 1] == tiles[n - 1];
      var reached, next := Max(s.start, Min(s.end, tiles[n].left)), Max(s.start, Min(s.end, tiles[n].right));
      assert s.start <= reached <= next;
      assert f(s.start, next) == f(s.start, reached) + f(reached, next);
      assert f(reached, reached) == f(reached, reached) + f(reached, reached);
    }
  }

  /** An additive quantity over covering intervals is its value for the window. */
  lemma TilesCover(f: (real, real) -> real, s: Setting, tiles: seq<Interval>)
    requires Additive(f) && s.start < s.end && Cover(s, tiles)
    ensures SumOver(f, s, tiles) == f(s.start, s.end)
  {
    TilesReach(f, s, tiles);
  }

  lemma {:induction false} SolarSum(s: Setting, tiles: seq<Interval>)
    requires s.nodeCount > 0
    ensures s.Accumulated(tiles).solarUsed + s.Accumulated(tiles).curtailed == SumOver((a, b) => SolarKwh(s.solar, a, b), s, tiles)
  {
    hide SolarKwh;
    if tiles != [] {
      SolarSum(s, tiles[..|tiles| - 1]);
    }
  }

  /** Solar energy is either used or curtailed: together they are the solar energy of the window. */
  lemma SolarIsConserved(s: Setting, tiles: seq<Interval>)
    requires s.Valid() && Cover(s, tiles)
    ensures s.Accumulated(tiles).solarUsed + s.Accumulated(tiles).curtailed == SolarKwh(s.solar, s.start, s.end)
  {
    hide SolarKwh;
    var f := (a: real, b: real) => SolarKwh(s.solar, a, b);
    forall a: real, b: real, c: real | a <= b <= c ensures f(a, c) == f(a, b) + f(b, c) {
      SolarIsAdditive(s.solar, a, b, c);
    }
    SolarSum(s, tiles);
    TilesCover(f, s, tiles);
  }

  ghost predicate Inside(s: Setting, windows: seq<Window>) {
    forall k :: 0 <= k < |windows| ==> s.start <= windows[k].left <= windows[k].right <= s.end
  }

  lemma {:induction false} WindowSum(s: Setting, tiles: seq<Interval>)
    requires s.nodeCount > 0
    ensures s.Accumulated(tiles).onSeconds == SumOver((a, b) => OverlapSeconds(a, b, s.onWindows), s, tiles)
    ensures s.Accumulated(tiles).offSeconds == SumOver((a, b) => OverlapSeconds(a, b, s.offWindows), s, tiles)
  {
    hide OverlapSeconds;
    if tiles != [] {
      WindowSum(s, tiles[..|tiles| - 1]);
    }
  }

  lemma WindowTiles(s: Setting, tiles: seq<Interval>, windows: seq<Window>)
    requires s.Valid() && Cover(s, tiles) && Inside(s, windows)
    ensures SumOver((a, b) => OverlapSeconds(a, b, windows), s, tiles) == TotalLength(windows)
  {
    hide OverlapSeconds;
    var f := (a: real, b: real) => OverlapSeconds(a, b, windows);
    forall a: real, b: real, c: real | a <= b <= c ensures f(a, c) == f(a, b) + f(b, c) {
      OverlapIsAdditive(a, b, c, windows);
    }
    TilesCover(f, s, tiles);
    OverlapIsWhole(s.start, s.end, windows);
  }

  /** The seconds spent in windows are the lengths of the windows. So the divisors of the mean
      utilizations are positive as soon as there is a window of positive length. */
  lemma WindowsAreCovered(s: Setting, tiles: seq<Interval>)
    requires s.Valid() && Cover(s, tiles) && Inside(s, s.onWindows) && Inside(s, s.offWindows)
    ensures s.Accumulated(tiles).onSeconds == TotalLength(s.onWindows)
    ensures s.Accumulated(tiles).offSeconds == TotalLength(s.offWindows)
  {
    WindowSum(s, tiles);
    WindowTiles(s, tiles, s.onWindows);
    WindowTiles(s, tiles, s.offWindows);
  }

  lemma NodeShares(on: int, boot: int, shutdown: int, off: int, duration: real)
    ensures Times(on as real, duration) + Times(boot as real, duration) + Times(shutdown as real, duration) + Times(off as real, duration)
         == Times((on + boot + shutdown + off) as real, duration)
  {
  }

  lemma {:induction false} NodeSecondsSum(s: Setting, tiles: seq<Interval>)
    requires s.nodeCount > 0
    requires forall k :: 0 <= k < |tiles| ==> var c := tiles[k].counts; c.on + c.boot + c.shutdown + c.off == s.nodeCount
    ensures var m := s.Accumulated(tiles);
      m.nodesOn + m.nodesBoot + m.nodesShutdown + m.nodesOff == SumOver((a, b) => Times(s.nodeCount as real, b - a), s, tiles)
  {
    hide Times;
    if tiles != [] {
      var n := |tiles| - 1;
      NodeSecondsSum(s, tiles[..n]);
      var t := tiles[n];
      NodeShares(t.counts.on, t.counts.boot, t.counts.shutdown, t.counts.off, s.To(t) - s.From(t));
    }
  }

  lemma LengthAdds(n: real, a: real, b: real, c: real)
    ensures Times(n, c - a) == Times(n, b - a) + Times(n, c - b)
  {
  }

  /** The node-seconds of the four categories add up to all nodes for the whole window. */
  lemma NodeSecondsAreComplete(s: Setting, tiles: seq<Interval>)
    requires s.Valid() && Cover(s, tiles)
    requires forall k :: 0 <= k < |tiles| ==> var c := tiles[k].counts; c.on + c.boot + c.shutdown + c.off == s.nodeCount
    ensures var m := s.Accumulated(tiles);
      m.nodesOn + m.nodesBoot + m.nodesShutdown + m.nodesOff == Times(s.nodeCount as real, s.end - s.start)
  {
    hide Times;
    var f := (a: real, b: real) => Times(s.nodeCount as real, b - a);
    forall a: real, b: real, c: real | a <= b <= c ensures f(a, c) == f(a, b) + f(b, c) {
      LengthAdds(s.nodeCount as real, a, b, c);
    }
    NodeSecondsSum(s, tiles);
    TilesCover(f, s, tiles);
  }

  /** Intervals between samples that reach over the window cover it, and count every node once. */
  lemma SamplesCover(s: Setting, events: seq<Event>, samples: seq<Sample>, tiles: seq<Interval>)
    requires s.Valid() && Increasing(samples) && |samples| >= 2 && samples[0].time <= s.start && s.end <= samples[|samples| - 1].time
    requires |tiles| == |samples| - 1 && forall k :: 0 <= k < |tiles| ==> tiles[k] == IntervalAt(events, s.nodeCount, samples, k)
    ensures Cover(s, tiles)
    ensures forall k :: 0 <= k < |tiles| ==> var c := tiles[k].counts; c.on + c.boot + c.shutdown + c.off == s.nodeCount
  {
    forall k | 0 <= k < |tiles| ensures var c := tiles[k].counts; c.on + c.boot + c.shutdown + c.off == s.nodeCount {
      HistogramIsComplete(StatesAt(events, s.nodeCount, samples[k].time));
    }
  }

  lemma {:induction false} LengthIsPositive(windows: seq<Window>)
    requires forall k :: 0 <= k < |windows| ==> windows[k].left < windows[k].right
    ensures TotalLength(windows) >= 0.0 && (TotalLength(windows) == 0.0 <==> windows == [])
  {
    if windows != [] {
      LengthIsPositive(windows[1..]);
    }
  }

  /** The windows of a report lie in the evaluated time, and only an empty list has no length. */
  lemma ReportedWindowsFit(s: Setting, p: Policy, off: seq<Window>, on: seq<Window>)
    requires p.HasAccepted() && IsReport(p, s.start, s.end, off, on)
    ensures Inside(s, off) && Inside(s, on) && TotalLength(off) > 0.0 && (TotalLength(on) == 0.0 <==> on == [])
  {
    hide IsReport;
    assert off != [] by { ReportHasWindows(p, s.start, s.end, off, on); }
    ReportIsSound(p, s.start, s.end, off, on);
    forall k | 0 <= k < |off| ensures s.start <= off[k].left < off[k].right <= s.end { assert (off + on)[k] == off[k]; }
    forall k | 0 <= k < |on| ensures s.start <= on[k].left < on[k].right <= s.end { assert (off + on)[|off| + k] == on[k]; }
    LengthIsPositive(off);
    LengthIsPositive(on);
  }

  lemma ReportHasWindows(p: Policy, start: real, end: real, off: seq<Window>, on: seq<Window>)
    requires IsReport(p, start, end, off, on)
    ensures off != []
  {
  }

  /** The evaluation of one run whose samples reach over the evaluated time: unless the policy is
      refused, energy balances, every node-second is counted once, and the seconds by which the
      metrics of the windows are divided are the lengths of the windows. */
  method Evaluate(run: Setting, policy: Policy, events: seq<Event>, samples: seq<Sample>) returns (report: Report, m: Totals)
    requires run.Valid() && Chronological(events, run.nodeCount) && Increasing(samples) && |samples| >= 2
    requires 0.0 <= samples[0].time <= run.start && run.end <= samples[|samples| - 1].time
    ensures report.Invalid? <==> Refused(policy, run.start, run.end)
    ensures m.grid + m.solarUsed == m.total == m.energyOn + m.energyBoot + m.energyShutdown + m.energyOff
    ensures !report.Invalid? ==> m.solarUsed + m.curtailed == SolarKwh(run.solar, run.start, run.end)
    ensures !report.Invalid? ==>
      m.nodesOn + m.nodesBoot + m.nodesShutdown + m.nodesOff == Times(run.nodeCount as real, run.end - run.start)
    ensures report.Windows? ==> m.offSeconds == TotalLength(report.off) > 0.0 && m.onSeconds == TotalLength(report.on)
    ensures report.Windows? ==> (m.onSeconds == 0.0 <==> report.on == [])
    ensures report.Nothing? ==> m.offSeconds == 0.0 && m.onSeconds == 0.0
  {
    hide Refused;
    hide IsReport;
    report := ShutdownWindows(policy, run.start, run.end);
    m := NOTHING;
    if report.Invalid? {
      return;
    }
    var s := run.(offWindows := [], onWindows := []);
    if report.Windows? {
      s := run.(offWindows := report.off, onWindows := report.on, targetActiveFraction := report.targetActiveFraction);
      ReportedWindowsFit(s, policy, report.off, report.on);
    }
    m := Measure(s, events, samples);
  }

  /** The metrics of the samples, for given windows within the evaluated time. */
  method Measure(s: Setting, events: seq<Event>, samples: seq<Sample>) returns (m: Totals)
    requires s.Valid() && Chronological(events, s.nodeCount) && Increasing(samples) && |samples| >= 2
    requires 0.0 <= samples[0].time <= s.start && s.end <= samples[|samples| - 1].time
    requires Inside(s, s.onWindows) && Inside(s, s.offWindows)
    ensures m.grid + m.solarUsed == m.total == m.energyOn + m.energyBoot + m.energyShutdown + m.energyOff
    ensures m.solarUsed + m.curtailed == SolarKwh(s.solar, s.start, s.end)
    ensures m.onSeconds == TotalLength(s.onWindows) && m.offSeconds == TotalLength(s.offWindows)
    ensures m.nodesOn + m.nodesBoot + m.nodesShutdown + m.nodesOff == Times(s.nodeCount as real, s.end - s.start)
  {
    var tiles := SampledIntervals(s.nodeCount, events, samples);
    m := SampledMetrics(s, tiles);
    SamplesCover(s, events, samples, tiles);
    EnergyIsConserved(s, tiles);
    SolarIsConserved(s, tiles);
    WindowsAreCovered(s, tiles);
    NodeSecondsAreComplete(s, tiles);
  }
}
