/** The shutdown windows that an evaluation reports on: all complete occurrences of the daily
    windows within the evaluated time, in order, and the windows between them in which the
    nodes are meant to be on. */
module ShutdownReport {
  import opened SolarEnergy

  datatype DailyWindow = DailyWindow(startHour: real, endHour: real, targetFraction: real)
  {
    predicate Accepted() {
      0.0 <= startHour < 24.0 && 0.0 <= endHour <= 24.0 && 0.0 <= targetFraction <= 1.0 && startHour != endHour
    }

    /** The occurrence that begins on the given day; overnight it ends on the next. */
    function On(day: int): Window {
      Window(day as real * DAY + startHour * 3600.0, day as real * DAY + endHour * 3600.0 + if startHour > endHour then DAY else 0.0)
    }
  }

  datatype Policy = Policy(isStatic: bool, useTimeWindow: bool, windowStart: real, windowEnd: real,
                           windows: seq<DailyWindow>, drainLeadTime: real)
  {
    predicate TimeWindowIsValid() {
      useTimeWindow ==> 0.0 <= windowStart <= windowEnd
    }

    predicate IsInactive(start: real, end: real) {
      if useTimeWindow then windowStart >= end || windowEnd <= start else 0.0 >= end
    }

    /** The occurrence lies within the evaluated time, and within the policy's own. */
    predicate Covers(start: real, end: real, w: Window) {
      && start <= w.left && w.right <= end
      && (if useTimeWindow then windowStart <= w.left && w.right <= windowEnd else 0.0 <= w.left)
    }

    predicate HasAccepted() {
      forall k :: 0 <= k < |windows| ==> windows[k].Accepted()
    }

    function OnEnd(following: Window): real {
      if drainLeadTime > 1.0 then following.left - drainLeadTime else following.left
    }
  }

  datatype Reason = NoShutdownWindows | PolicyInactive | NoOffNodeTarget | NoCompleteWindow

  datatype Report =
    | Invalid
    | Nothing(reason: Reason)
    | Windows(off: seq<Window>, on: seq<Window>, targetActiveFraction: real)

  // ---- Which occurrences there are -----------------------------------------------------------

  function Single(p: Policy, start: real, end: real, w: Window): seq<Window> {
    if p.Covers(start, end, w) then [w] else []
  }

  /** The covered occurrences of the first `k` windows on one day. */
  function OnDay(p: Policy, start: real, end: real, day: int, k: nat): seq<Window>
    requires k <= |p.windows|
  {
    if k == 0 then [] else OnDay(p, start, end, day, k - 1) + Single(p, start, end, p.windows[k - 1].On(day))
  }

  /** Those of the days `first` up to, but not including, `stop`. */
  function OnDays(p: Policy, start: real, end: real, first: int, stop: int): seq<Window>
    decreases stop - first
  {
    if stop <= first then [] else OnDays(p, start, end, first, stop - 1) + OnDay(p, start, end, stop - 1, |p.windows|)
  }

  function FirstDayOf(start: real): int { (start / DAY).Floor - 1 }

  function StopDayOf(end: real): int { (end / DAY).Floor + 2 }

  /** The occurrence is one of a daily window of the policy, and it is covered. */
  ghost predicate IsInstance(p: Policy, start: real, end: real, w: Window) {
    exists day: int, k: int :: 0 <= k < |p.windows| && w == p.windows[k].On(day) && p.Covers(start, end, w)
  }

  lemma {:induction false} OnDayIsExact(p: Policy, start: real, end: real, day: int, k: nat, w: Window)
    requires k <= |p.windows|
    ensures w in OnDay(p, start, end, day, k) <==> p.Covers(start, end, w) && exists i :: 0 <= i < k && w == p.windows[i].On(day)
  {
    hide DailyWindow.On;
    hide Policy.Covers;
    if k > 0 {
      OnDayIsExact(p, start, end, day, k - 1, w);
      assert w in Single(p, start, end, p.windows[k - 1].On(day)) <==> p.Covers(start, end, w) && w == p.windows[k - 1].On(day);
    }
  }

  lemma {:induction false} OnDaysIsExact(p: Policy, start: real, end: real, first: int, stop: int, w: Window)
    ensures w in OnDays(p, start, end, first, stop)
       <==> p.Covers(start, end, w) && exists day: int, k: int :: first <= day < stop && 0 <= k < |p.windows| && w == p.windows[k].On(day)
    decreases stop - first
  {
    hide DailyWindow.On;
    hide Policy.Covers;
    if stop > first {
      OnDaysIsExact(p, start, end, first, stop - 1, w);
      OnDayIsExact(p, start, end, stop - 1, |p.windows|, w);
    }
  }

  /** A covered occurrence begins on a day of the loop. */
  lemma CoveredIsVisited(p: Policy, start: real, end: real, day: int, k: int)
    requires 0 <= k < |p.windows| && p.windows[k].Accepted() && p.Covers(start, end, p.windows[k].On(day))
    ensures FirstDayOf(start) <= day < StopDayOf(end)
  {
  }

  /** The loop over the days finds every covered occurrence of any day, and nothing else. */
  lemma NoOccurrenceIsLost(p: Policy, start: real, end: real, w: Window)
    requires p.HasAccepted()
    ensures w in OnDays(p, start, end, FirstDayOf(start), StopDayOf(end)) <==> IsInstance(p, start, end, w)
  {
    OnDaysIsExact(p, start, end, FirstDayOf(start), StopDayOf(end), w);
    if IsInstance(p, start, end, w) {
      var day: int, k: int :| 0 <= k < |p.windows| && w == p.windows[k].On(day) && p.Covers(start, end, w);
      CoveredIsVisited(p, start, end, day, k);
    }
  }

  lemma InstanceHasLength(p: Policy, start: real, end: real, w: Window)
    requires p.HasAccepted() && IsInstance(p, start, end, w)
    ensures start <= w.left < w.right <= end
  {
  }

  // ---- Their order ---------------------------------------------------------------------------

  predicate Before(v: Window, w: Window) {
    v.left < w.left || (v.left == w.left && v.right <= w.right)
  }

  function Insert(w: Window, ws: seq<Window>): (r: seq<Window>)
    ensures |r| == |ws| + 1 && forall v :: v in r <==> v == w || v in ws
  {
    if ws == [] || Before(w, ws[0]) then [w] + ws else [ws[0]] + Insert(w, ws[1..])
  }

  /** Python's sort. */
  function Sorted(ws: seq<Window>): (r: seq<Window>)
    ensures |r| == |ws| && forall v :: v in r <==> v in ws
  {
    if ws == [] then [] else Insert(ws[0], Sorted(ws[1..]))
  }

  ghost predicate InOrder(ws: seq<Window>) {
    forall i, k :: 0 <= i < k < |ws| ==> Before(ws[i], ws[k])
  }

  lemma {:induction false} InsertKeepsOrder(w: Window, ws: seq<Window>)
    requires InOrder(ws)
    ensures InOrder(Insert(w, ws))
  {
    if ws != [] && !Before(w, ws[0]) {
      var rest := Insert(w, ws[1..]);
      InsertKeepsOrder(w, ws[1..]);
      forall k | 0 <= k < |rest| ensures Before(ws[0], rest[k]) {
        assert rest[k] in rest;
      }
    }
  }

  lemma {:induction false} SortedIsInOrder(ws: seq<Window>)
    ensures InOrder(Sorted(ws))
  {
    if ws != [] {
      SortedIsInOrder(ws[1..]);
      InsertKeepsOrder(ws[0], Sorted(ws[1..]));
    }
  }

  /** Neighbours do not overlap. */
  predicate NeighboursApart(ws: seq<Window>) {
    forall k :: 0 < k < |ws| ==> ws[k - 1].right <= ws[k].left
  }

  /** Comparing neighbours is enough: no two windows overlap. */
  lemma {:induction false} NoTwoOverlap(ws: seq<Window>, i: int, k: int)
    requires NeighboursApart(ws) && (forall m :: 0 <= m < |ws| ==> ws[m].left < ws[m].right) && 0 <= i < k < |ws|
    ensures ws[i].right <= ws[k].left
    decreases k - i
  {
    if i + 1 < k {
      NoTwoOverlap(ws, i, k - 1);
    }
  }

  // ---- The windows between them --------------------------------------------------------------

  /** A gap between neighbours, minus the lead time in which nodes are drained. */
  predicate IsOnWindow(p: Policy, start: real, end: real, before: Window, following: Window) {
    p.OnEnd(following) > before.right && before.right >= start && p.OnEnd(following) <= end
  }

  function Gap(p: Policy, start: real, end: real, before: Window, following: Window): seq<Window> {
    if IsOnWindow(p, start, end, before, following) then [Window(before.right, p.OnEnd(following))] else []
  }

  /** The gaps before the first `k` windows. */
  function OnWindows(p: Policy, start: real, end: real, off: seq<Window>, k: nat): seq<Window>
    requires k <= |off|
  {
    if k <= 1 then [] else OnWindows(p, start, end, off, k - 1) + Gap(p, start, end, off[k - 2], off[k - 1])
  }

  ghost predicate IsGap(p: Policy, start: real, end: real, off: seq<Window>, w: Window) {
    exists m :: 0 < m < |off| && IsOnWindow(p, start, end, off[m - 1], off[m]) && w == Window(off[m - 1].right, p.OnEnd(off[m]))
  }

  lemma {:induction false} OnWindowsAreGaps(p: Policy, start: real, end: real, off: seq<Window>, k: nat, w: Window)
    requires k <= |off|
    ensures w in OnWindows(p, start, end, off, k)
       <==> exists m :: 0 < m < k && IsOnWindow(p, start, end, off[m - 1], off[m]) && w == Window(off[m - 1].right, p.OnEnd(off[m]))
  {
    hide IsOnWindow;
    hide Policy.OnEnd;
    if k > 1 {
      OnWindowsAreGaps(p, start, end, off, k - 1, w);
    }
  }

  /** A gap overlaps no shutdown window. */
  lemma GapsAreFree(p: Policy, start: real, end: real, off: seq<Window>, w: Window, k: int)
    requires NeighboursApart(off) && (forall m :: 0 <= m < |off| ==> off[m].left < off[m].right)
    requires IsGap(p, start, end, off, w) && 0 <= k < |off|
    ensures start <= w.left < w.right <= end && (off[k].right <= w.left || w.right <= off[k].left)
  {
    var m :| 0 < m < |off| && IsOnWindow(p, start, end, off[m - 1], off[m]) && w == Window(off[m - 1].right, p.OnEnd(off[m]));
    if k < m - 1 { NoTwoOverlap(off, k, m - 1); }
    if k > m { NoTwoOverlap(off, m, k); }
  }

  // ---- The report ----------------------------------------------------------------------------

  /** What a report on windows says: the shutdown windows are exactly the covered occurrences, in
      order and apart, and the other windows are the gaps between them. */
  ghost predicate IsReport(p: Policy, start: real, end: real, off: seq<Window>, on: seq<Window>) {
    && off != [] && InOrder(off) && NeighboursApart(off)
    && (forall w :: w in off <==> IsInstance(p, start, end, w))
    && (forall w :: w in on <==> IsGap(p, start, end, off, w))
  }

  /** All windows of a report lie within the evaluated time and have a length; no two shutdown
      windows overlap, and no other window overlaps a shutdown window. */
  lemma ReportIsSound(p: Policy, start: real, end: real, off: seq<Window>, on: seq<Window>)
    requires p.HasAccepted() && IsReport(p, start, end, off, on)
    ensures forall w :: w in off + on ==> start <= w.left < w.right <= end
    ensures forall i, k :: 0 <= i < k < |off| ==> off[i].right <= off[k].left
    ensures forall i, k :: 0 <= i < |on| && 0 <= k < |off| ==> off[k].right <= on[i].left || on[i].right <= off[k].left
  {
    forall k | 0 <= k < |off| ensures start <= off[k].left < off[k].right <= end {
      assert off[k] in off;
      InstanceHasLength(p, start, end, off[k]);
    }
    forall i, k | 0 <= i < k < |off| ensures off[i].right <= off[k].left {
      NoTwoOverlap(off, i, k);
    }
    forall i, k | 0 <= i < |on| && 0 <= k < |off|
      ensures start <= on[i].left < on[i].right <= end && (off[k].right <= on[i].left || on[i].right <= off[k].left)
    {
      assert on[i] in on;
      GapsAreFree(p, start, end, off, on[i], k);
    }
  }

  predicate SameTarget(p: Policy) {
    forall k :: 0 <= k < |p.windows| ==> p.windows[k].targetFraction == p.windows[0].targetFraction
  }

  method CollectInstances(p: Policy, start: real, end: real) returns (instances: seq<Window>)
    ensures instances == OnDays(p, start, end, FirstDayOf(start), StopDayOf(end))
  {
    hide DailyWindow.On;
    hide Policy.Covers;
    instances := [];
    var day := FirstDayOf(start);
    while day < StopDayOf(end)
      invariant FirstDayOf(start) <= day <= Larger(FirstDayOf(start), StopDayOf(end))
      invariant instances == OnDays(p, start, end, FirstDayOf(start), day)
    {
      ghost var earlier := instances;
      for k := 0 to |p.windows|
        invariant instances == earlier + OnDay(p, start, end, day, k)
      {
        var w := p.windows[k].On(day);
        if p.Covers(start, end, w) {
          instances := instances + [w];
        }
      }
      day := day + 1;
    }
  }

  function Larger(a: int, b: int): int { if a >= b then a else b }

  method HasOverlap(instances: seq<Window>) returns (overlap: bool)
    ensures overlap <==> !NeighboursApart(instances)
  {
    overlap := false;
    var k := 1;
    while k < |instances|
      invariant !overlap && k >= 1 && forall m :: 0 < m < k && m < |instances| ==> instances[m - 1].right <= instances[m].left
    {
      if instances[k - 1].right > instances[k].left {
        return true;
      }
      k := k + 1;
    }
  }

  function Instances(p: Policy, start: real, end: real): seq<Window> {
    Sorted(OnDays(p, start, end, FirstDayOf(start), StopDayOf(end)))
  }

  /** What is refused, in the order of the checks. */
  ghost predicate Refused(p: Policy, start: real, end: real) {
    || !p.isStatic
    || (p.windows != []
        && (|| !p.TimeWindowIsValid()
            || (!p.IsInactive(start, end)
                && (|| !p.HasAccepted() || !SameTarget(p)
                    || (p.windows[0].targetFraction != 1.0
                        && (!NeighboursApart(Instances(p, start, end)) || (Instances(p, start, end) != [] && p.drainLeadTime < 0.0)))))))
  }

  /** The windows to report on, why there are none, or that the policy is refused. As all windows
      have the same target, so has the mean over the occurrences. */
  method ShutdownWindows(p: Policy, start: real, end: real) returns (r: Report)
    ensures r.Invalid? <==> Refused(p, start, end)
    ensures r == Nothing(NoShutdownWindows) <==> p.isStatic && p.windows == []
    ensures r == Nothing(PolicyInactive) <==> p.isStatic && p.windows != [] && p.TimeWindowIsValid() && p.IsInactive(start, end)
    ensures r.Windows? ==>
      && p.isStatic && p.TimeWindowIsValid() && !p.IsInactive(start, end) && p.HasAccepted() && SameTarget(p) && p.drainLeadTime >= 0.0
      && IsReport(p, start, end, r.off, r.on)
      && 0.0 <= r.targetActiveFraction < 1.0 && forall k :: 0 <= k < |p.windows| ==> p.windows[k].targetFraction == r.targetActiveFraction
    ensures r == Nothing(NoCompleteWindow) ==> forall w :: !IsInstance(p, start, end, w)
    ensures r == Nothing(NoOffNodeTarget) ==> forall k :: 0 <= k < |p.windows| ==> p.windows[k].targetFraction == 1.0
  {
    if !p.isStatic {
      return Invalid;
    }
    if p.windows == [] {
      return Nothing(NoShutdownWindows);
    }
    if !p.TimeWindowIsValid() {
      return Invalid;
    }
    if p.IsInactive(start, end) {
      return Nothing(PolicyInactive);
    }
    for k := 0 to |p.windows|
      invariant forall i :: 0 <= i < k ==> p.windows[i].Accepted()
    {
      if !p.windows[k].Accepted() {
        return Invalid;
      }
    }
    if !SameTarget(p) {
      return Invalid;
    }
    if p.windows[0].targetFraction == 1.0 {
      return Nothing(NoOffNodeTarget);
    }
    r := OrderedWindows(p, start, end);
  }

  method OrderedWindows(p: Policy, start: real, end: real) returns (r: Report)
    requires p.windows != [] && p.HasAccepted()
    ensures r.Invalid? <==> !NeighboursApart(Instances(p, start, end)) || (Instances(p, start, end) != [] && p.drainLeadTime < 0.0)
    ensures r.Windows? ==>
      p.drainLeadTime >= 0.0 && IsReport(p, start, end, r.off, r.on) && r.targetActiveFraction == p.windows[0].targetFraction
    ensures r.Nothing? ==> r.reason.NoCompleteWindow? && forall w :: !IsInstance(p, start, end, w)
  {
    var instances := CollectInstances(p, start, end);
    instances := Sorted(instances);
    SortedIsInOrder(OnDays(p, start, end, FirstDayOf(start), StopDayOf(end)));
    hide Sorted;
    forall w ensures w in instances <==> IsInstance(p, start, end, w) { NoOccurrenceIsLost(p, start, end, w); }
    hide IsInstance;
    hide IsOnWindow;
    hide OnDays;
    var overlap := HasOverlap(instances);
    if overlap {
      return Invalid;
    }
    if instances == [] {
      return Nothing(NoCompleteWindow);
    }
    if p.drainLeadTime < 0.0 {
      return Invalid;
    }
    var on: seq<Window> := [];
    for k := 1 to |instances|
      invariant on == OnWindows(p, start, end, instances, k)
    {
      if IsOnWindow(p, start, end, instances[k - 1], instances[k]) {
        on := on + [Window(instances[k - 1].right, p.OnEnd(instances[k]))];
      }
    }
    forall w ensures w in on <==> IsGap(p, start, end, instances, w) { OnWindowsAreGaps(p, start, end, instances, |instances|, w); }
    r := Windows(instances, on, p.windows[0].targetFraction);
  }
}
