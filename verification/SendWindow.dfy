/**
 * Daily send windows: `adjustToSendWindow` of
 * apps/api/src/modules/scheduling/scheduling.service.ts and the worker's `checkSendWindow` of
 * apps/worker/src/services/anti-spam.service.ts.
 *
 * Instants are milliseconds since the epoch. Both the window's time zone and the server run at
 * fixed offsets from UTC, given in minutes, and hours are formatted as 0 to 23. A formatted date
 * is the day number of the wall clock.
 */
module SendWindows {
  import opened Wrappers

  const MINUTE := 60_000
  const HOUR := 3_600_000
  const DAY := 86_400_000

  datatype Window = Window(enabled: bool, startHour: int, endHour: int, zone: int)

  /** The start hour makes a readable time of day. */
  predicate Formats(w: Window) {
    0 <= w.startHour <= 24
  }

  /** The window opens on every day. */
  predicate Opens(w: Window) {
    0 <= w.startHour < w.endHour <= 24
  }

  function WallClock(t: int, w: Window): int {
    t + w.zone * MINUTE
  }

  function LocalHour(t: int, w: Window): int {
    WallClock(t, w) / HOUR % 24
  }

  function LocalMinute(t: int, w: Window): int {
    WallClock(t, w) / MINUTE % 60
  }

  predicate InWindow(t: int, w: Window) {
    w.startHour <= LocalHour(t, w) < w.endHour
  }

  /** The worker's check before it sends. */
  predicate CheckSendWindow(window: Option<Window>, now: int) {
    window.None? || !window.value.enabled || InWindow(now, window.value)
  }

  /** The start of the window on the day the wall clock shows, or a day later. */
  function Opening(t: int, w: Window, daysLater: int): int {
    (WallClock(t, w) / DAY + daysLater) * DAY + w.startHour * HOUR - w.zone * MINUTE
  }

  /** By the time of day: `t` itself, or the opening of this day or the next. */
  function NextInWindow(t: int, w: Window): int {
    var timeOfDay := WallClock(t, w) % DAY;
    if w.startHour * HOUR <= timeOfDay < w.endHour * HOUR then t
    else Opening(t, w, if timeOfDay < w.endHour * HOUR then 0 else 1)
  }

  lemma TimeOfDay(t: int, w: Window)
    ensures var s := WallClock(t, w) % DAY;
      && LocalHour(t, w) == s / HOUR
      && LocalHour(t, w) * 60 + LocalMinute(t, w) == s / MINUTE
  {
    var l := WallClock(t, w);
    var d, s := l / DAY, l % DAY;
    assert l == DAY * d + s;
    assert l / HOUR == 24 * d + s / HOUR;
    assert l / MINUTE == 1440 * d + s / MINUTE;
    assert l / MINUTE % 60 == s / MINUTE % 60;
  }

  /**
   * The computation step by step, on a server `server` minutes ahead of UTC. Unless `t` is
   * already in the window, the result is off by exactly the server's offset.
   */
  method AdjustToSendWindow(t: int, w: Window, server: int) returns (r: int)
    requires Formats(w)
    ensures r == NextInWindow(t, w) + if InWindow(t, w) then 0 else server * MINUTE
  {
    TimeOfDay(t, w);
    var scheduledHour, scheduledMinute := LocalHour(t, w), LocalMinute(t, w);
    var sixtieths := 60 * scheduledHour + scheduledMinute;
    if 60 * w.startHour <= sixtieths < 60 * w.endHour {
      return t;
    }
    var adjusted := t;
    if sixtieths >= 60 * w.endHour {
      adjusted := adjusted + DAY;
      assert WallClock(adjusted, w) / DAY == WallClock(t, w) / DAY + 1;
    }
    var target := WallClock(adjusted, w) / DAY * DAY + w.startHour * HOUR;
    var localDate := target - server * MINUTE;
    var zoned := WallClock(localDate, w) - server * MINUTE;
    var offset := localDate - zoned;
    return target + offset;
  }

  lemma InWindowByTime(t: int, w: Window)
    ensures InWindow(t, w) <==> w.startHour * HOUR <= WallClock(t, w) % DAY < w.endHour * HOUR
  {
  }

  lemma OpeningAt(t: int, w: Window, daysLater: int)
    requires 0 <= w.startHour <= 23
    ensures var l := WallClock(Opening(t, w, daysLater), w);
      l / DAY == WallClock(t, w) / DAY + daysLater && l % DAY == w.startHour * HOUR
  {
  }

  lemma ClosedUntilOpening(t: int, u: int, w: Window)
    requires Opens(w) && t <= u < NextInWindow(t, w)
    ensures !InWindow(u, w)
  {
    var l, m := WallClock(t, w), WallClock(u, w);
    InWindowByTime(u, w);
    OpeningAt(t, w, 0);
    OpeningAt(t, w, 1);
    if l % DAY < w.startHour * HOUR {
      assert m / DAY == l / DAY;
    } else if m / DAY == l / DAY {
      assert m % DAY >= l % DAY;
    } else {
      assert m / DAY == l / DAY + 1;
    }
  }

  /** `NextInWindow` is what its name says: in the window, not before `t`, and nothing earlier is. */
  lemma NextIsLeast(t: int, w: Window)
    requires Opens(w)
    ensures t <= NextInWindow(t, w) && InWindow(NextInWindow(t, w), w)
    ensures forall u :: t <= u < NextInWindow(t, w) ==> !InWindow(u, w)
  {
    OpeningAt(t, w, 0);
    OpeningAt(t, w, 1);
    InWindowByTime(NextInWindow(t, w), w);
    forall u | t <= u < NextInWindow(t, w) ensures !InWindow(u, w) {
      ClosedUntilOpening(t, u, w);
    }
  }

  /** For every readable start hour, the adjusted instant lies in the window exactly when the window opens at all. */
  lemma AdjustedInWindowIff(t: int, w: Window)
    requires Formats(w)
    ensures InWindow(NextInWindow(t, w), w) <==> w.startHour < w.endHour && w.startHour < 24
  {
    InWindowByTime(NextInWindow(t, w), w);
    if w.startHour < 24 {
      OpeningAt(t, w, 0);
      OpeningAt(t, w, 1);
    }
  }

  ghost predicate IsLeastInWindow(r: int, t: int, w: Window) {
    t <= r && InWindow(r, w) && forall u :: t <= u < r ==> !InWindow(u, w)
  }

  /** What `AdjustToSendWindow` returns. */
  function Adjusted(t: int, w: Window, server: int): int {
    NextInWindow(t, w) + if InWindow(t, w) then 0 else server * MINUTE
  }

  /** The promise - the least instant in the window - holds exactly when the server runs in UTC. */
  lemma AdjustmentRightIff(w: Window, server: int)
    requires Opens(w) && !(w.startHour == 0 && w.endHour == 24)
    ensures server == 0 <==> forall t :: IsLeastInWindow(Adjusted(t, w, server), t, w)
  {
    if server == 0 {
      forall t ensures IsLeastInWindow(Adjusted(t, w, server), t, w) {
        NextIsLeast(t, w);
      }
    } else {
      var closed := (if w.startHour > 0 then 0 else w.endHour * HOUR) - w.zone * MINUTE;
      TimeOfDay(closed, w);
      assert !InWindow(closed, w);
      NextIsLeast(closed, w);
      assert !IsLeastInWindow(Adjusted(closed, w, server), closed, w);
    }
  }

  /** An all-day window is the one that no server offset disturbs. */
  lemma AllDayWindow(t: int, w: Window, server: int)
    requires w.startHour == 0 && w.endHour == 24
    ensures Adjusted(t, w, server) == t && InWindow(t, w)
  {
  }

  lemma AdjustmentIdempotent(t: int, w: Window)
    requires Opens(w)
    ensures NextInWindow(NextInWindow(t, w), w) == NextInWindow(t, w)
  {
  }

  lemma AdjustmentMonotone(t: int, u: int, w: Window)
    requires Opens(w) && t <= u
    ensures NextInWindow(t, w) <= NextInWindow(u, w)
  {
  }

  /** On a UTC server the worker's check lets the adjusted instant through, whatever the window. */
  lemma AdjustedPassesWorkerCheck(t: int, w: Window)
    requires Opens(w)
    ensures CheckSendWindow(Some(w), Adjusted(t, w, 0))
  {
    NextIsLeast(t, w);
  }

  /** The worker's check lets exactly those instants through that the API would not move. */
  lemma CheckPassesIffUnmoved(t: int, w: Window)
    requires Opens(w) && w.enabled
    ensures CheckSendWindow(Some(w), t) <==> Adjusted(t, w, 0) == t
  {
    NextIsLeast(t, w);
  }

  /** Without a window, or with one that is switched off, the worker sends at any time. */
  lemma NoWindowAlwaysPasses(t: int, w: Window)
    ensures CheckSendWindow(None, t) && CheckSendWindow(Some(w.(enabled := false)), t)
  {
  }

  /** A window in a zone ahead of UTC is the same window on a clock that is ahead. */
  lemma ZoneShifts(t: int, w: Window)
    ensures var ahead := 60_000 * w.zone;
      && (InWindow(t, w) <==> InWindow(t + ahead, w.(zone := 0)))
      && NextInWindow(t, w) == NextInWindow(t + ahead, w.(zone := 0)) - ahead
  {
  }

  /** In UTC the window is open from its start hour to its end hour, each day counted from midnight. */
  lemma OpenHours(day: int, hour: int, within: int, w: Window)
    requires w.zone == 0 && 0 <= hour < 24 && 0 <= within < 3_600_000
    ensures InWindow(86_400_000 * day + 3_600_000 * hour + within, w) <==> w.startHour <= hour < w.endHour
  {
    var t := 86_400_000 * day + 3_600_000 * hour + within;
    assert WallClock(t, w) / HOUR == 24 * day + hour;
  }
}
