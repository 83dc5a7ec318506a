/** Expansion of clocks into slot plans, as in internal/clock/compiler.go. */
module ClockCompiler {
  import opened Seqs
  import opened ClockWindow

  datatype Plan = Plan(slotId: string, start: int, end: int, webstream: bool)

  // ---------------------------------------------------------------- one clock

  predicate ByPosition(slots: seq<Slot>)
  {
    forall i, j :: 0 <= i < j < |slots| ==> slots[i].position <= slots[j].position
  }

  function Insert(slots: seq<Slot>, x: Slot): (r: seq<Slot>)
    requires ByPosition(slots)
    ensures ByPosition(r) && multiset(r) == multiset(slots) + multiset{x}
  {
    if slots == [] then [x]
    else if slots[|slots| - 1].position <= x.position then slots + [x]
    else
      var rest, last := slots[..|slots| - 1], slots[|slots| - 1];
      assert slots == rest + [last];
      var r := Insert(rest, x);
      MaxPosition(r, rest, x, last);
      r + [last]
  }

  lemma MaxPosition(r: seq<Slot>, rest: seq<Slot>, x: Slot, last: Slot)
    requires multiset(r) == multiset(rest) + multiset{x} && x.position <= last.position
    requires forall i :: 0 <= i < |rest| ==> rest[i].position <= last.position
    ensures forall i :: 0 <= i < |r| ==> r[i].position <= last.position
  {
    forall i | 0 <= i < |r| ensures r[i].position <= last.position {
      assert r[i] in multiset(r);
    }
  }

  /** The slots in position order; slots of equal position keep their listed order. */
  function Sorted(slots: seq<Slot>): (r: seq<Slot>)
    ensures ByPosition(r) && multiset(r) == multiset(slots)
  {
    if slots == [] then []
    else
      assert slots == slots[..|slots| - 1] + [slots[|slots| - 1]];
      Insert(Sorted(slots[..|slots| - 1]), slots[|slots| - 1])
  }

  /** How long slot `i` runs: its own duration, the webstream span, or up to the next slot. Filling stays within
      the horizon and ends at a later next slot, or else with the horizon. */
  function Duration(slots: seq<Slot>, i: nat, horizon: int, span: int): (d: int)
    requires i < |slots|
    ensures 0 < horizon && 0 < span ==> 0 < d
    ensures slots[i].explicit > 0 ==> d == slots[i].explicit
    ensures slots[i].explicit <= 0 && slots[i].webstream ==> d == span
    ensures slots[i].explicit <= 0 && !slots[i].webstream && slots[i].offset >= horizon ==> d == horizon
    ensures var slot := slots[i];
            slot.explicit <= 0 && !slot.webstream && slot.offset < horizon ==>
              && 0 < d && slot.offset + d <= horizon
              && (i + 1 < |slots| && slot.offset < slots[i + 1].offset ==> slot.offset + d <= slots[i + 1].offset)
              && (slot.offset + d == horizon || (i + 1 < |slots| && slot.offset + d == slots[i + 1].offset))
  {
    var slot := slots[i];
    if slot.explicit > 0 then slot.explicit
    else if slot.webstream then span
    else
      var maxFill := horizon - slot.offset;
      var fill :=
        if i + 1 < |slots| && 0 < slots[i + 1].offset - slot.offset < maxFill then slots[i + 1].offset - slot.offset
        else maxFill;
      if fill <= 0 then horizon else fill
  }

  function PlanOf(slots: seq<Slot>, i: nat, cursor: int, horizon: int, span: int): Plan
    requires i < |slots|
  {
    var at := cursor + slots[i].offset;
    Plan(slots[i].id, at, at + Duration(slots, i, horizon, span), slots[i].webstream)
  }

  /** One pass over the first `n` slots at `cursor`; plans before `start` are left out. */
  function TickPlans(slots: seq<Slot>, n: nat, cursor: int, start: int, horizon: int, span: int): (r: seq<Plan>)
    requires n <= |slots|
  {
    if n == 0 then []
    else
      TickPlans(slots, n - 1, cursor, start, horizon, span)
      + if cursor + slots[n - 1].offset < start then [] else [PlanOf(slots, n - 1, cursor, horizon, span)]
  }

  /** All passes from `cursor` on, one an hour. */
  function SpanPlans(slots: seq<Slot>, cursor: int, start: int, horizon: int, span: int): (r: seq<Plan>)
    decreases start + horizon - cursor
  {
    if cursor < start + horizon then
      TickPlans(slots, |slots|, cursor, start, horizon, span) + SpanPlans(slots, cursor + HOUR, start, horizon, span)
    else []
  }

  /** The inner loop of one hourly pass. */
  method PassOverSlots(slots: seq<Slot>, cursor: int, start: int, horizon: int, webstreamSpan: int) returns (plans: seq<Plan>)
    ensures plans == TickPlans(slots, |slots|, cursor, start, horizon, webstreamSpan)
  {
    plans := [];
    for i := 0 to |slots|
      invariant plans == TickPlans(slots, i, cursor, start, horizon, webstreamSpan)
    {
      var slot := slots[i];
      var planStart := cursor + slot.offset;
      if planStart < start {
        continue;
      }
      var duration := slot.explicit;
      if duration <= 0 {
        if slot.webstream {
          duration := webstreamSpan;
        } else {
          var maxFill := horizon - slot.offset;
          duration := maxFill;
          if i + 1 < |slots| {
            var gap := slots[i + 1].offset - slot.offset;
            if gap > 0 && gap < maxFill {
              duration := gap;
            }
          }
          if duration <= 0 {
            duration := horizon;
          }
        }
      }
      assert duration == Duration(slots, i, horizon, webstreamSpan);
      plans := plans + [Plan(slot.id, planStart, planStart + duration, slot.webstream)];
    }
  }

  method BuildPlansWithSpan(clock: Clock, start: int, horizon: int, webstreamSpan: int) returns (plans: seq<Plan>)
    ensures plans == SpanPlans(Sorted(clock.slots), Truncated(start), start, horizon, webstreamSpan)
  {
    hide Truncated;
    hide Sorted;
    hide TickPlans;
    var slots := Sorted(clock.slots);
    plans := [];
    var cursor := Truncated(start);
    var end := start + horizon;
    while cursor < end
      invariant plans + SpanPlans(slots, cursor, start, horizon, webstreamSpan)
             == SpanPlans(slots, Truncated(start), start, horizon, webstreamSpan)
      decreases end - cursor
    {
      var more := PassOverSlots(slots, cursor, start, horizon, webstreamSpan);
      plans := plans + more;
      cursor := cursor + HOUR;
    }
  }

  // ---------------------------------------------------------------- which clock

  /** The first listed clock that has slots and whose window applies. */
  function Selected(clocks: seq<Clock>, n: nat, hour: int): (r: Option<Clock>)
    requires n <= |clocks|
  {
    if n == 0 then None
    else if Selected(clocks, n - 1, hour).Some? then Selected(clocks, n - 1, hour)
    else if clocks[n - 1].slots != [] && Applies(clocks[n - 1], hour) then Some(clocks[n - 1])
    else None
  }

  function SelectedAt(clocks: seq<Clock>, t: int, zone: int): Option<Clock>
  {
    Selected(clocks, |clocks|, LocalHour(t, zone))
  }

  method SelectClockHour(clocks: seq<Clock>, instant: int, zone: int) returns (r: Option<Clock>)
    ensures r == SelectedAt(clocks, instant, zone)
    ensures r.Some? ==> exists i ::
              && 0 <= i < |clocks| && r.value == clocks[i]
              && clocks[i].slots != [] && Applies(clocks[i], LocalHour(instant, zone))
              && forall j :: 0 <= j < i ==> clocks[j].slots == [] || !Applies(clocks[j], LocalHour(instant, zone))
    ensures r.None? ==> forall j :: 0 <= j < |clocks| ==> clocks[j].slots == [] || !Applies(clocks[j], LocalHour(instant, zone))
  {
    var hour := LocalHour(instant, zone);
    for i := 0 to |clocks|
      invariant Selected(clocks, i, hour) == None
      invariant forall j :: 0 <= j < i ==> clocks[j].slots == [] || !Applies(clocks[j], hour)
    {
      if |clocks[i].slots| > 0 && Applies(clocks[i], hour) {
        StaysSelected(clocks, i + 1, |clocks|, hour);
        return Some(clocks[i]);
      }
    }
    r := None;
  }

  lemma {:induction false} StaysSelected(clocks: seq<Clock>, m: nat, n: nat, hour: int)
    requires m <= n <= |clocks| && Selected(clocks, m, hour).Some?
    ensures Selected(clocks, n, hour) == Selected(clocks, m, hour)
    decreases n
  {
    if m < n {
      StaysSelected(clocks, m, n - 1, hour);
    }
  }

  // ---------------------------------------------------------------- the station's schedule

  /** Plans proposed for the hour at `cursor`. */
  function HourPlans(clocks: seq<Clock>, cursor: int, zone: int): (r: seq<Plan>)
  {
    match SelectedAt(clocks, cursor, zone)
    case None => []
    case Some(clock) =>
      SpanPlans(Sorted(clock.slots), Truncated(cursor), cursor, HOUR, Remaining(clock, cursor, zone))
  }

  function InHorizon(plans: seq<Plan>, start: int, end: int): (r: seq<Plan>)
  {
    if plans == [] then []
    else
      InHorizon(plans[..|plans| - 1], start, end)
      + if start <= plans[|plans| - 1].start < end then [plans[|plans| - 1]] else []
  }

  /** Everything proposed from the hour `cursor` to `end`, before de-duplication. */
  function Candidates(clocks: seq<Clock>, cursor: int, start: int, end: int, zone: int): (r: seq<Plan>)
    decreases end - cursor
  {
    if cursor < end then
      InHorizon(HourPlans(clocks, cursor, zone), start, end) + Candidates(clocks, cursor + HOUR, start, end, zone)
    else []
  }

  /** De-duplication state: plans kept so far, latest webstream end, latest end per slot. */
  datatype Kept = Kept(plans: seq<Plan>, webstreamEnd: Option<int>, slotLastEnd: map<string, int>)

  predicate Blocked(k: Kept, p: Plan)
  {
    if p.webstream then k.webstreamEnd.Some? && p.start < k.webstreamEnd.value
    else p.slotId in k.slotLastEnd && p.start < k.slotLastEnd[p.slotId]
  }

  function Consider(k: Kept, p: Plan): Kept
  {
    if Blocked(k, p) then k
    else if p.webstream then
      k.(plans := k.plans + [p],
         webstreamEnd := if k.webstreamEnd.None? || p.end > k.webstreamEnd.value then Some(p.end) else k.webstreamEnd)
    else
      k.(plans := k.plans + [p],
         slotLastEnd := if p.slotId !in k.slotLastEnd || p.end > k.slotLastEnd[p.slotId]
                        then k.slotLastEnd[p.slotId := p.end] else k.slotLastEnd)
  }

  function Dedup(k: Kept, plans: seq<Plan>): Kept
    decreases |plans|
  {
    if plans == [] then k else Consider(Dedup(k, plans[..|plans| - 1]), plans[|plans| - 1])
  }

  const NOTHING := Kept([], None, map[])

  function Emitted(clocks: seq<Clock>, start: int, horizon: int, zone: int): (r: seq<Plan>)
  {
    Dedup(NOTHING, Candidates(clocks, Truncated(start), start, start + horizon, zone)).plans
  }

  lemma {:induction false} DedupSplit(k: Kept, a: seq<Plan>, b: seq<Plan>)
    ensures Dedup(k, a + b) == Dedup(Dedup(k, a), b)
    decreases |b|
  {
    if b == [] {
      assert a + b == a;
    } else {
      assert (a + b)[..|a + b| - 1] == a + b[..|b| - 1];
      DedupSplit(k, a, b[..|b| - 1]);
    }
  }

  /** One kept-or-skipped decision of the station loop, as it updates the loop's variables. */
  lemma DedupPush(k: Kept, seen: seq<Plan>, p: Plan, start: int, end: int, all: seq<Plan>, j: nat)
    requires j < |all| && p == all[j] && seen == InHorizon(all[..j], start, end)
    ensures InHorizon(all[..j + 1], start, end) == if start <= p.start < end then seen + [p] else seen
    ensures Dedup(k, seen + [p]) == Consider(Dedup(k, seen), p)
  {
    assert all[..j + 1][..j] == all[..j];
    assert (seen + [p])[..|seen|] == seen;
  }

  /** The inner loop over one hour's proposals. */
  method KeepHour(kept: Kept, hourPlans: seq<Plan>, start: int, end: int) returns (r: Kept)
    ensures r == Dedup(kept, InHorizon(hourPlans, start, end))
  {
    var plans, webstreamEnd, slotLastEnd := kept.plans, kept.webstreamEnd, kept.slotLastEnd;
    for j := 0 to |hourPlans|
      invariant Kept(plans, webstreamEnd, slotLastEnd) == Dedup(kept, InHorizon(hourPlans[..j], start, end))
    {
      var plan := hourPlans[j];
      DedupPush(kept, InHorizon(hourPlans[..j], start, end), plan, start, end, hourPlans, j);
      hide InHorizon;
      hide Dedup;
      if plan.start < start || !(plan.start < end) {
        continue;
      }
      if plan.webstream && webstreamEnd.Some? && plan.start < webstreamEnd.value {
        continue;
      }
      if plan.webstream && (webstreamEnd.None? || plan.end > webstreamEnd.value) {
        webstreamEnd := Some(plan.end);
      }
      if !plan.webstream {
        if plan.slotId in slotLastEnd && plan.start < slotLastEnd[plan.slotId] {
          continue;
        }
        if plan.slotId !in slotLastEnd || plan.end > slotLastEnd[plan.slotId] {
          slotLastEnd := slotLastEnd[plan.slotId := plan.end];
        }
      }
      plans := plans + [plan];
    }
    assert hourPlans[..|hourPlans|] == hourPlans;
    r := Kept(plans, webstreamEnd, slotLastEnd);
  }

  method BuildPlansForStation(clocks: seq<Clock>, start: int, horizon: int, zone: int) returns (plans: seq<Plan>)
    ensures plans == Emitted(clocks, start, horizon, zone)
  {
    hide Truncated;
    hide Dedup;
    hide InHorizon;
    hide SpanPlans;
    hide Sorted;
    hide Remaining;
    var cursor, end := Truncated(start), start + horizon;
    var kept := NOTHING;
    ghost var done := [];
    DedupNone(NOTHING);
    while cursor < end
      invariant done + Candidates(clocks, cursor, start, end, zone) == Candidates(clocks, Truncated(start), start, end, zone)
      invariant kept == Dedup(NOTHING, done)
      decreases end - cursor
    {
      var clockHour := SelectClockHour(clocks, cursor, zone);
      var hourPlans := [];
      if clockHour.Some? {
        var remaining := Remaining(clockHour.value, cursor, zone);
        hourPlans := BuildPlansWithSpan(clockHour.value, cursor, HOUR, remaining);
      }
      DedupSplit(NOTHING, done, InHorizon(hourPlans, start, end));
      done := done + InHorizon(hourPlans, start, end);
      kept := KeepHour(kept, hourPlans, start, end);
      cursor := cursor + HOUR;
    }
    assert done + [] == done;
    plans := kept.plans;
  }

  lemma DedupNone(k: Kept)
    ensures Dedup(k, []) == k
  {
  }
}
