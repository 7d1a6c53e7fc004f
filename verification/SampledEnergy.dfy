/** Energy accounting over a completed run: node state events and utilization samples become
    intervals, and every interval's demand is split between solar and grid. Nothing is lost or
    counted twice. */
module SampledEnergy {
  import opened SolarEnergy

  datatype Category = On | Boot | Shutdown | Off

  datatype Event = Event(time: real, node: int, category: Category)

  datatype Sample = Sample(time: real, utilization: real)

  datatype Counts = Counts(on: int, boot: int, shutdown: int, off: int)
  {
    function Plus(c: Category, d: int): Counts {
      match c
      case On => this.(on := on + d)
      case Boot => this.(boot := boot + d)
      case Shutdown => this.(shutdown := shutdown + d)
      case Off => this.(off := off + d)
    }
  }

  datatype Interval = Interval(left: real, right: real, utilization: real, counts: Counts)

  // ---- Node states over time -----------------------------------------------------------------

  /** The category a node has at time `t`: that of its last event up to then, or on. */
  function StateAt(events: seq<Event>, node: int, t: real): Category {
    if events == [] then On
    else
      var last := events[|events| - 1];
      if last.time <= t && last.node == node then last.category else StateAt(events[..|events| - 1], node, t)
  }

  function Count(states: seq<Category>, c: Category): int {
    if states == [] then 0 else Count(states[..|states| - 1], c) + if states[|states| - 1] == c then 1 else 0
  }

  function Histogram(states: seq<Category>): Counts {
    Counts(Count(states, On), Count(states, Boot), Count(states, Shutdown), Count(states, Off))
  }

  function StatesAt(events: seq<Event>, nodeCount: nat, t: real): (r: seq<Category>)
    ensures |r| == nodeCount && forall k :: 0 <= k < nodeCount ==> r[k] == StateAt(events, k, t)
  {
    seq(nodeCount, k => StateAt(events, k, t))
  }

  ghost predicate Chronological(events: seq<Event>, nodeCount: nat) {
    && (forall i, k :: 0 <= i < k < |events| ==> events[i].time <= events[k].time)
    && (forall i :: 0 <= i < |events| ==> 0 <= events[i].node < nodeCount)
  }

  ghost predicate Increasing(samples: seq<Sample>) {
    forall i, k :: 0 <= i < k < |samples| ==> samples[i].time < samples[k].time
  }

  lemma {:induction false} CountOneChange(states: seq<Category>, k: nat, after: Category, c: Category)
    requires k < |states|
    ensures Count(states[k := after], c) == Count(states, c) - (if states[k] == c then 1 else 0) + (if after == c then 1 else 0)
  {
    var n := |states| - 1;
    if k < n {
      CountOneChange(states[..n], k, after, c);
      assert states[k := after][..n] == states[..n][k := after];
    } else {
      assert states[k := after][..n] == states[..n];
    }
  }

  lemma HistogramOneChange(states: seq<Category>, k: nat, after: Category)
    requires k < |states|
    ensures Histogram(states[k := after]) == Histogram(states).Plus(states[k], -1).Plus(after, 1)
  {
    CountOneChange(states, k, after, On);
    CountOneChange(states, k, after, Boot);
    CountOneChange(states, k, after, Shutdown);
    CountOneChange(states, k, after, Off);
  }

  /** Every node is in exactly one category. */
  lemma {:induction false} HistogramIsComplete(states: seq<Category>)
    ensures var h := Histogram(states); h.on + h.boot + h.shutdown + h.off == |states|
  {
    if states != [] {
      HistogramIsComplete(states[..|states| - 1]);
    }
  }

  lemma {:induction false} AllOn(states: seq<Category>)
    requires forall k :: 0 <= k < |states| ==> states[k] == On
    ensures Histogram(states) == Counts(|states|, 0, 0, 0)
  {
    if states != [] {
      AllOn(states[..|states| - 1]);
    }
  }

  /** Later events do not matter. */
  lemma {:induction false} PrefixDecides(events: seq<Event>, e: nat, node: int, t: real)
    requires e <= |events| && forall i :: e <= i < |events| ==> events[i].time > t
    ensures StateAt(events, node, t) == StateAt(events[..e], node, t)
    decreases |events|
  {
    if e < |events| {
      var n := |events| - 1;
      PrefixDecides(events[..n], e, node, t);
      assert events[..n][..e] == events[..e];
    } else {
      assert events[..e] == events;
    }
  }

  /** Later instants do not matter once all events have happened. */
  lemma {:induction false} TimePassesIdly(events: seq<Event>, node: int, t: real, later: real)
    requires t <= later && forall i :: 0 <= i < |events| ==> events[i].time <= t
    ensures StateAt(events, node, later) == StateAt(events, node, t)
    decreases |events|
  {
    if events != [] {
      TimePassesIdly(events[..|events| - 1], node, t, later);
    }
  }

  /** The states after the first `e` events, all of which have happened. */
  ghost predicate Current(states: seq<Category>, counts: Counts, events: seq<Event>, e: nat, nodeCount: nat, t: real) {
    && e <= |events| && |states| == nodeCount && counts == Histogram(states)
    && (forall i :: 0 <= i < e ==> events[i].time <= t)
    && forall k :: 0 <= k < nodeCount ==> states[k] == StateAt(events[..e], k, t)
  }

  lemma ConsumeOne(states: seq<Category>, counts: Counts, events: seq<Event>, e: nat, nodeCount: nat, t: real)
    requires Current(states, counts, events, e, nodeCount, t) && e < |events| && events[e].time <= t && 0 <= events[e].node < nodeCount
    ensures var ev := events[e];
      Current(states[ev.node := ev.category], counts.Plus(states[ev.node], -1).Plus(ev.category, 1), events, e + 1, nodeCount, t)
  {
    var ev := events[e];
    HistogramOneChange(states, ev.node, ev.category);
    assert events[..e + 1][..e] == events[..e];
  }

  lemma Advance(states: seq<Category>, counts: Counts, events: seq<Event>, e: nat, nodeCount: nat, t: real, later: real)
    requires Current(states, counts, events, e, nodeCount, t) && t <= later
    ensures Current(states, counts, events, e, nodeCount, later)
  {
    forall k | 0 <= k < nodeCount ensures states[k] == StateAt(events[..e], k, later) {
      TimePassesIdly(events[..e], k, t, later);
    }
  }

  lemma CurrentIsHistogram(states: seq<Category>, counts: Counts, events: seq<Event>, e: nat, nodeCount: nat, t: real)
    requires Current(states, counts, events, e, nodeCount, t) && Chronological(events, nodeCount)
    requires e < |events| ==> events[e].time > t
    ensures counts == Histogram(StatesAt(events, nodeCount, t))
  {
    forall k | 0 <= k < nodeCount ensures states[k] == StateAt(events, k, t) {
      PrefixDecides(events, e, k, t);
    }
    assert states == StatesAt(events, nodeCount, t);
  }

  /** Between two samples the states at the left sample count. */
  function IntervalAt(events: seq<Event>, nodeCount: nat, samples: seq<Sample>, k: nat): Interval
    requires k + 1 < |samples|
  {
    Interval(samples[k].time, samples[k + 1].time, samples[k].utilization, Histogram(StatesAt(events, nodeCount, samples[k].time)))
  }

  /** One interval per pair of neighbouring samples, each with the true number of nodes per
      category at its left end, although the counts are only ever adjusted event by event. */
  method SampledIntervals(nodeCount: nat, events: seq<Event>, samples: seq<Sample>) returns (intervals: seq<Interval>)
    requires Chronological(events, nodeCount) && Increasing(samples) && forall k :: 0 <= k < |samples| ==> samples[k].time >= 0.0
    ensures |intervals| == if samples == [] then 0 else |samples| - 1
    ensures forall k :: 0 <= k < |intervals| ==> intervals[k] == IntervalAt(events, nodeCount, samples, k)
  {
    var states := seq(nodeCount, _ => On);
    var counts := Counts(nodeCount, 0, 0, 0);
    var e := 0;
    var previous := counts;
    intervals := [];
    AllOn(states);
    ghost var clock := if samples == [] then 0.0 else samples[0].time;
    for i := 0 to |samples|
      invariant |intervals| == if i == 0 then 0 else i - 1
      invariant Current(states, counts, events, e, nodeCount, clock) && (i < |samples| ==> clock <= samples[i].time)
      invariant i > 0 ==> previous == Histogram(StatesAt(events, nodeCount, samples[i - 1].time))
      invariant forall k :: 0 <= k < |intervals| ==> intervals[k] == IntervalAt(events, nodeCount, samples, k)
    {
      var time := samples[i].time;
      Advance(states, counts, events, e, nodeCount, clock, time);
      clock := time;
      while e < |events| && events[e].time <= time
        invariant Current(states, counts, events, e, nodeCount, time)
      {
        ConsumeOne(states, counts, events, e, nodeCount, time);
        counts := counts.Plus(states[events[e].node], -1).Plus(events[e].category, 1);
        states := states[events[e].node := events[e].category];
        e := e + 1;
      }
      CurrentIsHistogram(states, counts, events, e, nodeCount, time);
      if i > 0 {
        intervals := intervals + [Interval(samples[i - 1].time, time, samples[i - 1].utilization, previous)];
      }
      previous := counts;
    }
  }
}
