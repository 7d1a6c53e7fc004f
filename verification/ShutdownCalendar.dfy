/** Daily shutdown windows: the three `ShutdownWindow` helper methods and what they mean on
    the calendar. Times are seconds of simulated time, never negative, so a cast to `int`
    is a floor. */
module ShutdownCalendar {

  const SECONDS_IN_DAY: int := 86400

  /** A recurring daily window. Policy loading rejects every other hour or fraction. */
  datatype ShutdownWindow = ShutdownWindow(startHour: int, endHour: int, targetFraction: real)
  {
    ghost predicate Valid() {
      0 <= startHour < 24 && 0 <= endHour < 24 && 0.0 < targetFraction <= 1.0
    }

    predicate IsInWindow(now: real)
      requires now >= 0.0
    {
      var currentHour := (now.Floor % SECONDS_IN_DAY) / 3600;
      if startHour < endHour then
        startHour <= currentHour < endHour
      else
        currentHour >= startHour || currentHour < endHour
    }

    predicate IsInDrainLeadTime(now: real, drainLeadTime: int)
      requires now >= 0.0
    {
      if drainLeadTime <= 0 then
        false
      else
        var currentSecond := now.Floor % SECONDS_IN_DAY;
        var shutdownSecond := startHour * 3600;
        var drainStartSecond := TruncatedRemainder(shutdownSecond - drainLeadTime + SECONDS_IN_DAY, SECONDS_IN_DAY);
        if drainStartSecond < shutdownSecond then
          drainStartSecond <= currentSecond < shutdownSecond
        else
          currentSecond >= drainStartSecond || currentSecond < shutdownSecond
    }

    function GetNextShutdownTime(now: real): int
      requires now >= 0.0
    {
      var currentSecond := now.Floor % SECONDS_IN_DAY;
      var shutdownSecond := startHour * 3600;
      var fullDays := now.Floor / SECONDS_IN_DAY;
      if currentSecond < shutdownSecond then
        fullDays * SECONDS_IN_DAY + shutdownSecond
      else
        (fullDays + 1) * SECONDS_IN_DAY + shutdownSecond
    }
  }

  /** The remainder operator of C++, which takes the sign of the dividend. */
  function TruncatedRemainder(a: int, b: int): (r: int)
    requires b > 0
    ensures a >= 0 ==> r == a % b
    ensures a <= 0 ==> r == -((-a) % b)
  {
    if a >= 0 then a % b else -((-a) % b)
  }

  /** The instants at which the window starts: the start hour of any day. */
  ghost predicate IsStartInstant(w: ShutdownWindow, instant: int) {
    instant % SECONDS_IN_DAY == w.startHour * 3600
  }

  /** The next shutdown time is the least start instant that lies after the given time. */
  lemma NextShutdownIsLeastLaterStart(w: ShutdownWindow, now: real)
    requires w.Valid() && now >= 0.0
    ensures IsStartInstant(w, w.GetNextShutdownTime(now))
    ensures now < w.GetNextShutdownTime(now) as real <= (now.Floor + SECONDS_IN_DAY) as real
    ensures forall instant :: IsStartInstant(w, instant) && now < instant as real ==> w.GetNextShutdownTime(now) <= instant
  {
    var next := w.GetNextShutdownTime(now);
    forall instant | IsStartInstant(w, instant) && now < instant as real
      ensures next <= instant
    {
      assert now.Floor < instant;
      assert instant == instant / SECONDS_IN_DAY * SECONDS_IN_DAY + w.startHour * 3600;
    }
  }

  /** The drain lead time agrees with the calendar exactly when the lead fits into one day;
      for a longer lead it agrees only for whole days before a midnight start. */
  lemma DrainLeadTimeMeaning(w: ShutdownWindow, drainLeadTime: int)
    requires w.Valid()
    ensures (forall now: real :: now >= 0.0 ==>
              (w.IsInDrainLeadTime(now, drainLeadTime) <==> w.GetNextShutdownTime(now) <= now.Floor + drainLeadTime))
       <==> drainLeadTime <= SECONDS_IN_DAY || (w.startHour == 0 && drainLeadTime % SECONDS_IN_DAY == 0)
  {
    if drainLeadTime <= SECONDS_IN_DAY || (w.startHour == 0 && drainLeadTime % SECONDS_IN_DAY == 0) {
      forall now: real | now >= 0.0
        ensures w.IsInDrainLeadTime(now, drainLeadTime) <==> w.GetNextShutdownTime(now) <= now.Floor + drainLeadTime
      {
        DrainLeadTimeAt(w, now, drainLeadTime);
      }
    } else {
      var now := LongLeadMiss(w, drainLeadTime);
      assert w.IsInDrainLeadTime(now, drainLeadTime) != (w.GetNextShutdownTime(now) <= now.Floor + drainLeadTime);
    }
  }

  lemma DrainLeadTimeAt(w: ShutdownWindow, now: real, drainLeadTime: int)
    requires w.Valid() && now >= 0.0
    requires drainLeadTime <= SECONDS_IN_DAY || (w.startHour == 0 && drainLeadTime % SECONDS_IN_DAY == 0)
    ensures w.IsInDrainLeadTime(now, drainLeadTime) <==> w.GetNextShutdownTime(now) <= now.Floor + drainLeadTime
  {
  }

  /** A lead above one day always reaches the next start, yet some second is not recognised. */
  lemma LongLeadMiss(w: ShutdownWindow, drainLeadTime: int) returns (now: real)
    requires w.Valid() && drainLeadTime > SECONDS_IN_DAY
    requires w.startHour != 0 || drainLeadTime % SECONDS_IN_DAY != 0
    ensures now >= 0.0
    ensures !w.IsInDrainLeadTime(now, drainLeadTime) && w.GetNextShutdownTime(now) <= now.Floor + drainLeadTime
  {
    now := (w.startHour * 3600) as real;
    assert now.Floor == w.startHour * 3600;
    NextShutdownIsLeastLaterStart(w, now);
    var a := w.startHour * 3600 - drainLeadTime + SECONDS_IN_DAY;
    if w.startHour == 0 {
      assert (-a) % SECONDS_IN_DAY == drainLeadTime % SECONDS_IN_DAY by {
        assert drainLeadTime == -a + SECONDS_IN_DAY;
      }
    }
  }

  /** A window is entered only at a start instant: from outside the window, and up to the
      next start, every instant stays outside. Overnight windows are included. */
  lemma WindowEnteredOnlyAtStart(w: ShutdownWindow, now: real, later: real)
    requires w.Valid() && 0.0 <= now <= later < w.GetNextShutdownTime(now) as real
    requires !w.IsInWindow(now)
    ensures !w.IsInWindow(later)
  {
    var s, u := now.Floor, later.Floor;
    var day := s / SECONDS_IN_DAY;
    var next := w.GetNextShutdownTime(now);
    assert s <= u < next <= day * SECONDS_IN_DAY + 2 * SECONDS_IN_DAY;
    if u < (day + 1) * SECONDS_IN_DAY {
      assert u / SECONDS_IN_DAY == day;
      assert u % SECONDS_IN_DAY == u - day * SECONDS_IN_DAY;
    } else {
      assert u / SECONDS_IN_DAY == day + 1;
      assert u % SECONDS_IN_DAY == u - (day + 1) * SECONDS_IN_DAY;
    }
  }

  /** At its start instant the window is active. */
  lemma InWindowAtStart(w: ShutdownWindow, now: real)
    requires w.Valid() && now >= 0.0
    ensures w.IsInWindow(w.GetNextShutdownTime(now) as real)
  {
    NextShutdownIsLeastLaterStart(w, now);
    assert (w.GetNextShutdownTime(now) as real).Floor == w.GetNextShutdownTime(now);
  }
}
