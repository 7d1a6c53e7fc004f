/** Solar energy over an interval, and the overlap of an interval with daily windows: the loop
    over days misses no daylight, and both quantities are additive over split intervals. */
module SolarEnergy {

  const DAY: real := 86400.0

  /** What the parameter loader accepts. */
  datatype Solar = Solar(peakKw: real, sunriseHour: real, sunsetHour: real, nightFraction: real)
  {
    ghost predicate Valid() {
      peakKw >= 0.0 && 0.0 <= sunriseHour < sunsetHour <= 24.0 && 0.0 <= nightFraction <= 1.0
    }

    function Sunrise(): real { sunriseHour * 3600.0 }

    function Sunset(): real { sunsetHour * 3600.0 }
  }

  function Max(a: real, b: real): real { if a >= b then a else b }

  function Min(a: real, b: real): real { if a <= b then a else b }

  /** The part of the interval that lies in the daylight of one day. */
  function DaylightOf(p: Solar, start: real, end: real, day: int): real {
    var a := Max(start, day as real * DAY + p.Sunrise());
    var b := Min(end, day as real * DAY + p.Sunset());
    if b > a then b - a else 0.0
  }

  /** Daylight of the days `first` up to, but not including, `stop`. */
  function Daylight(p: Solar, start: real, end: real, first: int, stop: int): real
    decreases stop - first
  {
    if stop <= first then 0.0 else Daylight(p, start, end, first, stop - 1) + DaylightOf(p, start, end, stop - 1)
  }

  function FirstDay(p: Solar, start: real): int {
    ((start - p.Sunset()) / DAY).Floor
  }

  function LastDay(p: Solar, end: real): int {
    ((end - p.Sunrise()) / DAY).Floor + 1
  }

  /** Days outside the loop's range contribute nothing. */
  lemma DarkOutside(p: Solar, start: real, end: real, day: int)
    requires day < FirstDay(p, start) || day > LastDay(p, end)
    ensures DaylightOf(p, start, end, day) == 0.0
  {
  }

  /** Any range that includes the loop's range gives the same daylight. */
  lemma {:induction false} NoDaylightLost(p: Solar, start: real, end: real, first: int, stop: int)
    requires first <= FirstDay(p, start) && LastDay(p, end) + 1 <= stop && FirstDay(p, start) <= LastDay(p, end) + 1
    ensures Daylight(p, start, end, first, stop) == Daylight(p, start, end, FirstDay(p, start), LastDay(p, end) + 1)
    decreases stop - first
  {
    hide DaylightOf;
    if LastDay(p, end) + 1 < stop {
      DarkOutside(p, start, end, stop - 1);
      NoDaylightLost(p, start, end, first, stop - 1);
    } else if first < FirstDay(p, start) {
      DaylightFromFront(p, start, end, first, stop);
      DarkOutside(p, start, end, first);
      NoDaylightLost(p, start, end, first + 1, stop);
    }
  }

  lemma {:induction false} DaylightFromFront(p: Solar, start: real, end: real, first: int, stop: int)
    requires first < stop
    ensures Daylight(p, start, end, first, stop) == DaylightOf(p, start, end, first) + Daylight(p, start, end, first + 1, stop)
    decreases stop - first
  {
    hide DaylightOf;
    if first + 1 < stop {
      DaylightFromFront(p, start, end, first, stop - 1);
    }
  }

  lemma DaylightOfSplits(p: Solar, a: real, b: real, c: real, day: int)
    requires a <= b <= c
    ensures DaylightOf(p, a, c, day) == DaylightOf(p, a, b, day) + DaylightOf(p, b, c, day)
  {
  }

  lemma {:induction false} DaylightSplits(p: Solar, a: real, b: real, c: real, first: int, stop: int)
    requires a <= b <= c
    ensures Daylight(p, a, c, first, stop) == Daylight(p, a, b, first, stop) + Daylight(p, b, c, first, stop)
    decreases stop - first
  {
    hide DaylightOf;
    if first < stop {
      DaylightSplits(p, a, b, c, first, stop - 1);
      DaylightOfSplits(p, a, b, c, stop - 1);
    }
  }

  lemma DayOrder(p: Solar, start: real, end: real)
    requires p.Valid() && start <= end
    ensures FirstDay(p, start) <= LastDay(p, end)
  {
  }

  lemma FloorMonotone(x: real, y: real)
    requires x <= y
    ensures x.Floor <= y.Floor
  {
  }

  /** The energy for an interval, from its daylight. */
  function EnergyKwh(p: Solar, start: real, end: real, daylight: real): real {
    var nightKw := p.peakKw * p.nightFraction;
    (nightKw * (end - start) + (p.peakKw - nightKw) * daylight) / 3600.0
  }

  /** What `solar_energy_kwh` returns. */
  function SolarKwh(p: Solar, start: real, end: real): real {
    if end <= start || p.peakKw <= 0.0 then 0.0
    else EnergyKwh(p, start, end, Daylight(p, start, end, FirstDay(p, start), LastDay(p, end) + 1))
  }

  method SolarEnergyKwh(p: Solar, start: real, end: real) returns (kwh: real)
    requires p.Valid()
    ensures kwh == SolarKwh(p, start, end)
  {
    if end <= start || p.peakKw <= 0.0 {
      return 0.0;
    }
    DayOrder(p, start, end);
    hide FirstDay;
    hide LastDay;
    hide EnergyKwh;
    var daylightSeconds := 0.0;
    var firstDay, lastDay := FirstDay(p, start), LastDay(p, end);
    for day := firstDay to lastDay + 1
      invariant daylightSeconds == Daylight(p, start, end, firstDay, day)
    {
      var a := Max(start, day as real * DAY + p.Sunrise());
      var b := Min(end, day as real * DAY + p.Sunset());
      if b > a {
        daylightSeconds := daylightSeconds + (b - a);
      }
    }
    kwh := EnergyKwh(p, start, end, daylightSeconds);
  }

  lemma EnergyAdds(p: Solar, a: real, b: real, c: real, first: real, second: real)
    ensures EnergyKwh(p, a, c, first + second) == EnergyKwh(p, a, b, first) + EnergyKwh(p, b, c, second)
  {
  }

  lemma EmptyIsDark(p: Solar, a: real, first: int, stop: int)
    ensures Daylight(p, a, a, first, stop) == 0.0
    decreases stop - first
  {
    if first < stop { EmptyIsDark(p, a, first, stop - 1); }
  }

  /** Over one common range of days the energy of any interval can be computed. */
  lemma SolarOverRange(p: Solar, start: real, end: real, first: int, stop: int)
    requires p.Valid() && p.peakKw > 0.0 && start <= end && first <= FirstDay(p, start) && LastDay(p, end) + 1 <= stop
    ensures SolarKwh(p, start, end) == EnergyKwh(p, start, end, Daylight(p, start, end, first, stop))
  {
    if start == end {
      EmptyIsDark(p, start, first, stop);
    } else {
      DayOrder(p, start, end);
      NoDaylightLost(p, start, end, first, stop);
    }
  }

  /** Solar energy is additive over split intervals. */
  lemma SolarIsAdditive(p: Solar, a: real, b: real, c: real)
    requires p.Valid() && a <= b <= c
    ensures SolarKwh(p, a, c) == SolarKwh(p, a, b) + SolarKwh(p, b, c)
  {
    if p.peakKw > 0.0 {
      var first, stop := FirstDay(p, a), LastDay(p, c) + 1;
      assert first <= FirstDay(p, b) by { FloorMonotone((a - p.Sunset()) / DAY, (b - p.Sunset()) / DAY); }
      assert LastDay(p, b) + 1 <= stop by { FloorMonotone((b - p.Sunrise()) / DAY, (c - p.Sunrise()) / DAY); }
      hide SolarKwh;
      hide EnergyKwh;
      hide FirstDay;
      hide LastDay;
      SolarOverRange(p, a, c, first, stop);
      SolarOverRange(p, a, b, first, stop);
      SolarOverRange(p, b, c, first, stop);
      DaylightSplits(p, a, b, c, first, stop);
      EnergyAdds(p, a, b, c, Daylight(p, a, b, first, stop), Daylight(p, b, c, first, stop));
    }
  }

  // ---- Windows ----------------------------------------------------------------------------

  datatype Window = Window(left: real, right: real)

  function OverlapWith(start: real, end: real, w: Window): real {
    Max(0.0, Min(end, w.right) - Max(start, w.left))
  }

  function OverlapSeconds(start: real, end: real, windows: seq<Window>): real {
    if end <= start then 0.0
    else if windows == [] then 0.0
    else OverlapWith(start, end, windows[0]) + OverlapSeconds(start, end, windows[1..])
  }

  function TotalLength(windows: seq<Window>): real {
    if windows == [] then 0.0 else windows[0].right - windows[0].left + TotalLength(windows[1..])
  }

  /** Overlaps are additive over split intervals. */
  lemma {:induction false} OverlapIsAdditive(a: real, b: real, c: real, windows: seq<Window>)
    requires a <= b <= c && forall k :: 0 <= k < |windows| ==> windows[k].left <= windows[k].right
    ensures OverlapSeconds(a, c, windows) == OverlapSeconds(a, b, windows) + OverlapSeconds(b, c, windows)
  {
    if windows != [] {
      OverlapIsAdditive(a, b, c, windows[1..]);
    }
  }

  /** An interval that contains all windows overlaps them in their full length. */
  lemma {:induction false} OverlapIsWhole(start: real, end: real, windows: seq<Window>)
    requires start < end && forall k :: 0 <= k < |windows| ==> start <= windows[k].left <= windows[k].right <= end
    ensures OverlapSeconds(start, end, windows) == TotalLength(windows)
  {
    if windows != [] {
      OverlapIsWhole(start, end, windows[1..]);
    }
  }
}
