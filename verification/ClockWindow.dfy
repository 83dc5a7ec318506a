/** Clock windows of internal/clock/compiler.go: which local hours a clock covers and for how long.
    Instants and durations are nanoseconds; the zone is a fixed offset from UTC. */
module ClockWindow {

  const HOUR: int := 3_600_000_000_000
  const DAY: int := 24 * HOUR

  datatype Slot = Slot(id: string, position: int, offset: int, webstream: bool, explicit: int)

  datatype Clock = Clock(startHour: int, endHour: int, slots: seq<Slot>)

  predicate Aligned(t: int) { t % HOUR == 0 }

  function Truncated(t: int): (r: int)
    ensures r <= t < r + HOUR && Aligned(r)
  {
    t - t % HOUR
  }

  function LocalHour(t: int, zone: int): (h: int)
    ensures 0 <= h < 24
  {
    (t + zone) / HOUR % 24
  }

  /** Out-of-range hours mean midnight to midnight. */
  function Normalize(startHour: int, endHour: int): (r: (int, int))
    ensures 0 <= r.0 <= 23 && 1 <= r.1 <= 24
  {
    (if startHour < 0 || startHour > 23 then 0 else startHour,
     if endHour < 1 || endHour > 24 then 24 else endHour)
  }

  predicate Applies(clock: Clock, hour: int)
  {
    var (s, e) := Normalize(clock.startHour, clock.endHour);
    if s == e then true
    else if s < e then s <= hour < e
    else s <= hour || hour < e
  }

  predicate AllDay(clock: Clock)
  {
    var (s, e) := Normalize(clock.startHour, clock.endHour);
    s == e || (s == 0 && e == 24)
  }

  /** Time left from `instant` to the window's end hour, on this local day or the next. */
  function Remaining(clock: Clock, instant: int, zone: int): int
  {
    var local := instant + zone;
    var (_, e) := Normalize(clock.startHour, clock.endHour);
    var endTime := local - local % DAY + e * HOUR;
    var endTime' := if endTime > local then endTime else endTime + DAY;
    endTime' - zone - instant
  }

  function ClockSpan(clock: Clock): int
  {
    var hours := clock.endHour - clock.startHour;
    (if hours <= 0 then hours + 24 else hours) * HOUR
  }

  /** The local hour is read off the time of day. */
  lemma HourOfDay(t: int, zone: int)
    ensures LocalHour(t, zone) == (t + zone) % DAY / HOUR
  {
    var local := t + zone;
    var days, tod := local / DAY, local % DAY;
    assert local == days * DAY + tod;
    assert local / HOUR == days * 24 + tod / HOUR;
  }

  lemma DayAfter(local: int, x: int)
    requires 0 <= x <= DAY
    ensures (local + x) % DAY == if local % DAY + x < DAY then local % DAY + x else local % DAY + x - DAY
  {
    assert local == local / DAY * DAY + local % DAY;
  }

  lemma HourAfter(t: int, zone: int, x: int)
    requires 0 <= x <= DAY
    ensures var tod := (t + zone) % DAY;
            LocalHour(t + x, zone) == if tod + x < DAY then (tod + x) / HOUR else (tod + x - DAY) / HOUR
  {
    HourOfDay(t + x, zone);
    hide LocalHour;
    DayAfter(t + zone, x);
    assert t + x + zone == t + zone + x;
  }

  /** A window that applies at an instant applies until the remaining time elapses, and, unless it covers
      the whole day, stops applying exactly then; overnight wraps and whole-day gaps included. */
  lemma WindowLasts(clock: Clock, t: int, zone: int)
    ensures 0 < Remaining(clock, t, zone) <= DAY
    ensures Applies(clock, LocalHour(t, zone)) ==>
              && (forall u :: t <= u < t + Remaining(clock, t, zone) ==> Applies(clock, LocalHour(u, zone)))
              && (AllDay(clock) <==> Applies(clock, LocalHour(t + Remaining(clock, t, zone), zone)))
  {
    var left := Remaining(clock, t, zone);
    if Applies(clock, LocalHour(t, zone)) {
      HourAfter(t, zone, 0);
      forall u | t <= u < t + left ensures Applies(clock, LocalHour(u, zone)) {
        HourAfter(t, zone, u - t);
      }
      HourAfter(t, zone, left);
    }
  }

  /** For valid hours, the nominal span is what remains at the start hour itself. */
  lemma SpanIsRemainingAtStart(clock: Clock, t: int, zone: int)
    requires 0 <= clock.startHour <= 23 && 1 <= clock.endHour <= 24
    requires (t + zone) % DAY == clock.startHour * HOUR
    ensures ClockSpan(clock) == Remaining(clock, t, zone)
  {
  }

  /** With hours in range, a clock covers the local hours from its start hour on, around midnight if need be, for as long
      as its span: from 9 to 17 the eight hours from 9 on, from 22 to 6 the eight from 22 on, from 6 to 6 all of them. */
  lemma WindowIsSpan(clock: Clock, h: int)
    requires 0 <= clock.startHour <= 23 && 1 <= clock.endHour <= 24 && 0 <= h < 24
    ensures Applies(clock, h) <==> (h - clock.startHour) % 24 * HOUR < ClockSpan(clock)
  {
    assert (h - clock.startHour) % 24 == if clock.startHour <= h then h - clock.startHour else h - clock.startHour + 24;
  }

  /** Hours out of range act like midnight to midnight, each on its own. */
  lemma OutOfRangeHours(clock: Clock, h: int, t: int, zone: int)
    ensures var start := if 0 <= clock.startHour <= 23 then clock.startHour else 0;
            var end := if 1 <= clock.endHour <= 24 then clock.endHour else 24;
            var valid := clock.(startHour := start, endHour := end);
            && (Applies(clock, h) <==> Applies(valid, h))
            && (AllDay(clock) <==> AllDay(valid))
            && Remaining(clock, t, zone) == Remaining(valid, t, zone)
  {
  }
}
