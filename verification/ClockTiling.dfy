/** Gap-free schedules: fill-to-next clocks tile every hour they are selected for. */
module ClockTiling {
  import opened Seqs
  import opened ClockWindow
  import opened ClockCompiler
  import opened ClockSchedule

  /** Slots start with the hour, strictly follow each other, and leave their duration to the compiler. */
  predicate FillingSlots(slots: seq<Slot>)
  {
    && slots != [] && slots[0].offset == 0
    && (forall i :: 0 <= i < |slots| ==> 0 <= slots[i].offset < HOUR && !slots[i].webstream && slots[i].explicit <= 0)
    && (forall i, j :: 0 <= i < j < |slots| ==> slots[i].offset < slots[j].offset)
  }

  predicate Fills(clock: Clock) { FillingSlots(Sorted(clock.slots)) }

  predicate FillsWhenSelected(clocks: seq<Clock>, t: int, zone: int)
  {
    SelectedAt(clocks, t, zone).Some? ==> Fills(SelectedAt(clocks, t, zone).value)
  }

  /** Consecutive plans from `from` to `to` without gap or overlap. */
  predicate Tiles(plans: seq<Plan>, from: int, to: int)
  {
    && plans != [] && plans[0].start == from && plans[|plans| - 1].end == to
    && (forall i :: 0 <= i < |plans| ==> plans[i].start < plans[i].end)
    && (forall i :: 0 <= i < |plans| - 1 ==> plans[i].end == plans[i + 1].start)
  }

  predicate NoWebstreams(plans: seq<Plan>)
  {
    forall i :: 0 <= i < |plans| ==> !plans[i].webstream
  }

  /** Plans in order, each over before the next begins. */
  predicate Successive(plans: seq<Plan>)
  {
    && (forall i :: 0 <= i < |plans| ==> plans[i].start < plans[i].end)
    && (forall i, j :: 0 <= i < j < |plans| ==> plans[i].end <= plans[j].start)
  }

  predicate Within(plans: seq<Plan>, from: int, to: int)
  {
    forall p <- plans :: from <= p.start < p.end <= to
  }

  predicate OnAir(plans: seq<Plan>, t: int)
  {
    exists i :: 0 <= i < |plans| && Covers(plans[i], t)
  }

  predicate HasClock(clocks: seq<Clock>, t: int, zone: int)
  {
    SelectedAt(clocks, Truncated(t), zone).Some?
  }

  predicate AirsWhenClocked(clocks: seq<Clock>, zone: int, plans: seq<Plan>, from: int, to: int)
  {
    forall t :: from <= t < to ==> (OnAir(plans, t) <==> HasClock(clocks, t, zone))
  }

  /** A filling slot runs to the next one, the last to the end of the hour. */
  lemma SlotFills(slots: seq<Slot>, i: nat, cursor: int, span: int)
    requires FillingSlots(slots) && i < |slots|
    ensures PlanOf(slots, i, cursor, HOUR, span)
         == Plan(slots[i].id, cursor + slots[i].offset,
                 cursor + if i + 1 < |slots| then slots[i + 1].offset else HOUR, false)
  {
  }

  lemma PassTiles(slots: seq<Slot>, cursor: int, span: int)
    requires FillingSlots(slots)
    ensures var r := TickPlans(slots, |slots|, cursor, cursor, HOUR, span);
            Tiles(r, cursor, cursor + HOUR) && NoWebstreams(r)
  {
    TickAll(slots, |slots|, cursor, span);
    forall i | 0 <= i < |slots|
      ensures PlanOf(slots, i, cursor, HOUR, span)
           == Plan(slots[i].id, cursor + slots[i].offset, cursor + if i + 1 < |slots| then slots[i + 1].offset else HOUR, false)
    {
      SlotFills(slots, i, cursor, span);
    }
    hide TickPlans;
    hide PlanOf;
  }

  lemma HourIsTiled(clocks: seq<Clock>, cursor: int, zone: int)
    requires Aligned(cursor) && SelectedAt(clocks, cursor, zone).Some? && FillsWhenSelected(clocks, cursor, zone)
    ensures Tiles(HourPlans(clocks, cursor, zone), cursor, cursor + HOUR)
    ensures NoWebstreams(HourPlans(clocks, cursor, zone))
  {
    var clock := SelectedAt(clocks, cursor, zone).value;
    hide SelectedAt;
    hide Remaining;
    hide Tiles;
    hide NoWebstreams;
    hide FillingSlots;
    hide Sorted;
    var slots, span := Sorted(clock.slots), Remaining(clock, cursor, zone);
    OnePass(slots, cursor, span);
    PassTiles(slots, cursor, span);
  }

  lemma {:induction false} TilesSuccessive(plans: seq<Plan>, from: int, to: int)
    requires Tiles(plans, from, to)
    ensures Successive(plans) && Within(plans, from, to)
    decreases |plans|
  {
    if |plans| > 1 {
      var rest, last := plans[..|plans| - 1], plans[|plans| - 1];
      TilesSuccessive(rest, from, last.start);
      assert plans == rest + [last];
      forall i, j | 0 <= i < j < |plans| ensures plans[i].end <= plans[j].start {
        if j == |plans| - 1 {
          assert rest[i] in rest;
        } else {
          assert rest[i].end <= rest[j].start;
        }
      }
      assert last.start < last.end && rest[0] in rest;
    }
  }

  lemma {:induction false} TilesCover(plans: seq<Plan>, from: int, to: int, t: int)
    requires Tiles(plans, from, to) && from <= t < to
    ensures OnAir(plans, t)
    decreases |plans|
  {
    var last := plans[|plans| - 1];
    if t < last.start {
      var rest := plans[..|plans| - 1];
      TilesCover(rest, from, last.start, t);
      var i :| 0 <= i < |rest| && Covers(rest[i], t);
      assert plans[i] == rest[i];
    } else {
      assert Covers(plans[|plans| - 1], t);
    }
  }

  /** Plans that all start inside the horizon pass the filter unchanged. */
  lemma {:induction false} FilterKeepsAll(plans: seq<Plan>, start: int, end: int)
    requires forall p <- plans :: start <= p.start < end
    ensures InHorizon(plans, start, end) == plans
    decreases |plans|
  {
    if plans != [] {
      var rest, last := plans[..|plans| - 1], plans[|plans| - 1];
      assert plans == rest + [last];
      assert last in plans && forall p <- rest :: p in plans;
      FilterKeepsAll(rest, start, end);
    }
  }

  /** What one hour contributes when a clock is selected for it. */
  lemma ClockedHour(clocks: seq<Clock>, cursor: int, start: int, end: int, zone: int)
    requires Aligned(cursor) && start <= cursor && cursor + HOUR <= end && FillsWhenSelected(clocks, cursor, zone)
    requires SelectedAt(clocks, cursor, zone).Some?
    ensures var hour := InHorizon(HourPlans(clocks, cursor, zone), start, end);
            && Successive(hour) && NoWebstreams(hour) && Within(hour, cursor, cursor + HOUR)
            && AirsWhenClocked(clocks, zone, hour, cursor, cursor + HOUR)
  {
    var hour := HourPlans(clocks, cursor, zone);
    hide Truncated;
    hide SelectedAt;
    HourIsTiled(clocks, cursor, zone);
    hide HourPlans;
    hide Tiles;
    TilesSuccessive(hour, cursor, cursor + HOUR);
    FilterKeepsAll(hour, start, end);
    hide *;
    AirsAllHour(clocks, zone, hour, cursor);
  }

  lemma AirsAllHour(clocks: seq<Clock>, zone: int, hour: seq<Plan>, cursor: int)
    requires Aligned(cursor) && Tiles(hour, cursor, cursor + HOUR) && SelectedAt(clocks, cursor, zone).Some?
    ensures AirsWhenClocked(clocks, zone, hour, cursor, cursor + HOUR)
  {
    hide Truncated;
    hide SelectedAt;
    hide Tiles;
    hide OnAir;
    forall t | cursor <= t < cursor + HOUR ensures OnAir(hour, t) <==> HasClock(clocks, t, zone) {
      TilesCover(hour, cursor, cursor + HOUR, t);
      TruncatedHour(t, cursor);
    }
  }

  /** An hour without a clock contributes nothing. */
  lemma SilentHour(clocks: seq<Clock>, cursor: int, start: int, end: int, zone: int)
    requires Aligned(cursor) && SelectedAt(clocks, cursor, zone).None?
    ensures InHorizon(HourPlans(clocks, cursor, zone), start, end) == []
    ensures AirsWhenClocked(clocks, zone, [], cursor, cursor + HOUR)
  {
    hide Truncated;
    hide SelectedAt;
    forall t | cursor <= t < cursor + HOUR ensures !HasClock(clocks, t, zone) && !OnAir([], t) {
      TruncatedHour(t, cursor);
    }
  }

  lemma HourContribution(clocks: seq<Clock>, cursor: int, start: int, end: int, zone: int)
    requires Aligned(cursor) && start <= cursor && cursor + HOUR <= end && FillsWhenSelected(clocks, cursor, zone)
    ensures var hour := InHorizon(HourPlans(clocks, cursor, zone), start, end);
            && Successive(hour) && NoWebstreams(hour) && Within(hour, cursor, cursor + HOUR)
            && AirsWhenClocked(clocks, zone, hour, cursor, cursor + HOUR)
  {
    if SelectedAt(clocks, cursor, zone).Some? {
      hide *;
      ClockedHour(clocks, cursor, start, end, zone);
    } else {
      hide SelectedAt;
      hide HourPlans;
      hide InHorizon;
      hide AirsWhenClocked;
      SilentHour(clocks, cursor, start, end, zone);
    }
  }

  lemma TruncatedHour(t: int, cursor: int)
    requires Aligned(cursor) && cursor <= t < cursor + HOUR
    ensures Truncated(t) == cursor
  {
  }

  lemma {:induction false} CandidatesTile(clocks: seq<Clock>, cursor: int, start: int, end: int, zone: int)
    requires Aligned(cursor) && Aligned(end) && start <= cursor <= end
    requires forall t :: Aligned(t) && start <= t < end ==> FillsWhenSelected(clocks, t, zone)
    ensures var c := Candidates(clocks, cursor, start, end, zone);
            && Successive(c) && NoWebstreams(c) && Within(c, cursor, end)
            && AirsWhenClocked(clocks, zone, c, cursor, end)
    decreases end - cursor
  {
    if cursor < end {
      hide FillsWhenSelected;
      hide InHorizon;
      hide HourPlans;
      hide Successive;
      hide NoWebstreams;
      hide Within;
      hide AirsWhenClocked;
      hide Aligned;
      WholeHoursLeft(cursor, end);
      HourContribution(clocks, cursor, start, end, zone);
      CandidatesTile(clocks, cursor + HOUR, start, end, zone);
      JoinHours(clocks, zone, InHorizon(HourPlans(clocks, cursor, zone), start, end),
                Candidates(clocks, cursor + HOUR, start, end, zone), cursor, end);
    }
  }

  lemma WholeHoursLeft(cursor: int, end: int)
    requires Aligned(cursor) && Aligned(end) && cursor < end
    ensures Aligned(cursor + HOUR) && cursor + HOUR <= end
  {
    assert cursor == cursor / HOUR * HOUR && end == end / HOUR * HOUR;
  }

  lemma JoinHours(clocks: seq<Clock>, zone: int, hour: seq<Plan>, rest: seq<Plan>, cursor: int, end: int)
    requires Successive(hour) && Successive(rest) && NoWebstreams(hour) && NoWebstreams(rest) && cursor + HOUR <= end
    requires Within(hour, cursor, cursor + HOUR) && Within(rest, cursor + HOUR, end)
    requires AirsWhenClocked(clocks, zone, hour, cursor, cursor + HOUR)
    requires AirsWhenClocked(clocks, zone, rest, cursor + HOUR, end)
    ensures Successive(hour + rest) && NoWebstreams(hour + rest) && Within(hour + rest, cursor, end)
    ensures AirsWhenClocked(clocks, zone, hour + rest, cursor, end)
  {
    hide HasClock;
    hide OnAir;
    forall i, j | 0 <= i < |hour| && 0 <= j < |rest| ensures hour[i].end <= rest[j].start {
      assert hour[i] in hour && rest[j] in rest;
    }
    forall t | cursor <= t < end ensures OnAir(hour + rest, t) <==> HasClock(clocks, t, zone) {
      OnAirSplit(hour, rest, cursor + HOUR, t);
    }
  }

  lemma OnAirSplit(hour: seq<Plan>, rest: seq<Plan>, middle: int, t: int)
    requires forall p <- hour :: p.end <= middle
    requires forall p <- rest :: middle <= p.start
    ensures OnAir(hour + rest, t) <==> if t < middle then OnAir(hour, t) else OnAir(rest, t)
  {
    forall i | 0 <= i < |hour| ensures (hour + rest)[i] == hour[i] && hour[i] in hour {}
    forall i | 0 <= i < |rest| ensures (hour + rest)[|hour| + i] == rest[i] && rest[i] in rest {}
    if OnAir(hour + rest, t) {
      var i :| 0 <= i < |hour + rest| && Covers((hour + rest)[i], t);
      if i < |hour| {
        assert Covers(hour[i], t);
      } else {
        assert Covers(rest[i - |hour|], t);
      }
    }
  }

  /** Loop variables of the de-duplication lag behind the last kept plan. */
  predicate Lags(k: Kept, plans: seq<Plan>)
  {
    && k.plans == plans && k.webstreamEnd == None
    && forall id <- k.slotLastEnd :: plans != [] && k.slotLastEnd[id] <= plans[|plans| - 1].end
  }

  lemma {:induction false} SuccessiveSurvive(plans: seq<Plan>)
    requires Successive(plans) && NoWebstreams(plans)
    ensures Lags(Dedup(NOTHING, plans), plans)
    decreases |plans|
  {
    hide Dedup, Successive, NoWebstreams, Lags;
    if plans == [] {
      NothingLags();
    } else {
      var rest, last := plans[..|plans| - 1], plans[|plans| - 1];
      assert plans == rest + [last];
      SuccessiveFront(plans);
      SuccessiveSurvive(rest);
      DedupLast(plans);
      LagsOn(Dedup(NOTHING, rest), rest, last);
    }
  }

  lemma NothingLags()
    ensures Lags(Dedup(NOTHING, []), [])
  {
  }

  lemma DedupLast(plans: seq<Plan>)
    requires plans != []
    ensures Dedup(NOTHING, plans) == Consider(Dedup(NOTHING, plans[..|plans| - 1]), plans[|plans| - 1])
  {
    hide Consider;
  }

  lemma SuccessiveFront(plans: seq<Plan>)
    requires plans != [] && Successive(plans) && NoWebstreams(plans)
    ensures var rest, last := plans[..|plans| - 1], plans[|plans| - 1];
            && Successive(rest) && NoWebstreams(rest) && !last.webstream && last.start < last.end
            && (rest != [] ==> rest[|rest| - 1].end <= last.start)
  {
    var rest := plans[..|plans| - 1];
    assert plans[|plans| - 1] in plans;
    assert forall p <- rest :: p in plans;
    assert rest != [] ==> rest[|rest| - 1] == plans[|plans| - 2];
  }

  lemma LagsOn(k: Kept, plans: seq<Plan>, p: Plan)
    requires Lags(k, plans) && !p.webstream && p.start < p.end
    requires plans != [] ==> plans[|plans| - 1].end <= p.start
    ensures Lags(Consider(k, p), plans + [p])
  {
    assert !Blocked(k, p);
  }

  lemma WholeHours(start: int, hours: nat)
    requires Aligned(start)
    ensures Aligned(start + hours * HOUR)
  {
    assert start == start / HOUR * HOUR;
    assert start + hours * HOUR == (start / HOUR + hours) * HOUR;
  }

  /** From an aligned start over whole hours, when every selected clock fills its hour: de-duplication drops
      nothing, plans follow each other without overlap inside the horizon, and an instant is on air exactly
      when its hour has a clock. So if every hour has one, the plans partition the horizon. */
  lemma HorizonTiling(clocks: seq<Clock>, start: int, hours: nat, zone: int)
    requires Aligned(start)
    requires forall t :: Aligned(t) && start <= t < start + hours * HOUR ==> FillsWhenSelected(clocks, t, zone)
    ensures var plans, end := Emitted(clocks, start, hours * HOUR, zone), start + hours * HOUR;
            && plans == Candidates(clocks, start, start, end, zone)
            && Successive(plans) && Within(plans, start, end)
            && AirsWhenClocked(clocks, zone, plans, start, end)
  {
    hide FillsWhenSelected, AirsWhenClocked, Aligned, Truncated, Candidates, Dedup, Successive, NoWebstreams, Within;
    AlignedHour(start);
    WholeHours(start, hours);
    CandidatesTile(clocks, start, start, start + hours * HOUR, zone);
    SuccessiveSurvive(Candidates(clocks, start, start, start + hours * HOUR, zone));
  }
}
