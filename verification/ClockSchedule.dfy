/** What the compiled schedule of a station guarantees: no overlaps, no lost candidates, exact tiling. */
module ClockSchedule {
  import opened ClockWindow
  import opened ClockCompiler

  /** Plans that de-duplication treats as competing: the same slot, or any two webstreams. */
  predicate SameLane(p: Plan, q: Plan)
  {
    p.webstream == q.webstream && (p.webstream || p.slotId == q.slotId)
  }

  predicate Covers(p: Plan, t: int) { p.start <= t < p.end }

  // ---------------------------------------------------------------- no overlap

  /** Kept plans of one lane follow each other, and the loop variables know where each lane ends. */
  predicate KeptOk(k: Kept)
  {
    && (forall i, j :: 0 <= i < j < |k.plans| && SameLane(k.plans[i], k.plans[j]) ==> k.plans[i].end <= k.plans[j].start)
    && (forall i :: 0 <= i < |k.plans| ==> k.plans[i].start < k.plans[i].end)
    && (forall i :: 0 <= i < |k.plans| && k.plans[i].webstream ==> k.webstreamEnd.Some? && k.plans[i].end <= k.webstreamEnd.value)
    && (forall i :: 0 <= i < |k.plans| && !k.plans[i].webstream ==>
          k.plans[i].slotId in k.slotLastEnd && k.plans[i].end <= k.slotLastEnd[k.plans[i].slotId])
  }

  predicate Positive(plans: seq<Plan>)
  {
    forall i :: 0 <= i < |plans| ==> plans[i].start < plans[i].end
  }

  lemma ConsiderOk(k: Kept, p: Plan)
    requires KeptOk(k) && p.start < p.end
    ensures KeptOk(Consider(k, p))
  {
  }

  lemma {:induction false} DedupOk(plans: seq<Plan>)
    requires Positive(plans)
    ensures KeptOk(Dedup(NOTHING, plans))
    decreases |plans|
  {
    if plans != [] {
      DedupOk(plans[..|plans| - 1]);
      ConsiderOk(Dedup(NOTHING, plans[..|plans| - 1]), plans[|plans| - 1]);
    }
  }

  lemma {:induction false} TickPositive(slots: seq<Slot>, n: nat, cursor: int, start: int, horizon: int, span: int)
    requires n <= |slots| && 0 < horizon && 0 < span
    ensures Positive(TickPlans(slots, n, cursor, start, horizon, span))
    decreases n
  {
    if n > 0 {
      hide Duration;
      TickPositive(slots, n - 1, cursor, start, horizon, span);
    }
  }

  lemma {:induction false} SpanPositive(slots: seq<Slot>, cursor: int, start: int, horizon: int, span: int)
    requires 0 < horizon && 0 < span
    ensures Positive(SpanPlans(slots, cursor, start, horizon, span))
    decreases start + horizon - cursor
  {
    if cursor < start + horizon {
      TickPositive(slots, |slots|, cursor, start, horizon, span);
      SpanPositive(slots, cursor + HOUR, start, horizon, span);
    }
  }

  lemma {:induction false} FilterSubset(plans: seq<Plan>, start: int, end: int)
    ensures forall p <- InHorizon(plans, start, end) :: p in plans && start <= p.start < end
    decreases |plans|
  {
    if plans != [] {
      FilterSubset(plans[..|plans| - 1], start, end);
    }
  }

  lemma {:induction false} CandidatesPositive(clocks: seq<Clock>, cursor: int, start: int, end: int, zone: int)
    ensures Positive(Candidates(clocks, cursor, start, end, zone))
    decreases end - cursor
  {
    if cursor < end {
      var hour := HourPlans(clocks, cursor, zone);
      if SelectedAt(clocks, cursor, zone).Some? {
        var clock := SelectedAt(clocks, cursor, zone).value;
        WindowLasts(clock, cursor, zone);
        hide Remaining;
        SpanPositive(Sorted(clock.slots), Truncated(cursor), cursor, HOUR, Remaining(clock, cursor, zone));
      }
      FilterSubset(hour, start, end);
      CandidatesPositive(clocks, cursor + HOUR, start, end, zone);
    }
  }

  /** Two emitted plans of one slot never overlap, and neither do two emitted webstreams; later in the
      schedule means later in time. No assumption on clocks, start, horizon or zone. */
  lemma NoOverlap(clocks: seq<Clock>, start: int, horizon: int, zone: int, i: nat, j: nat)
    requires i < j < |Emitted(clocks, start, horizon, zone)|
    requires SameLane(Emitted(clocks, start, horizon, zone)[i], Emitted(clocks, start, horizon, zone)[j])
    ensures var plans := Emitted(clocks, start, horizon, zone);
            plans[i].start < plans[i].end <= plans[j].start < plans[j].end
  {
    hide Candidates;
    hide Truncated;
    hide Dedup;
    CandidatesPositive(clocks, Truncated(start), start, start + horizon, zone);
    DedupOk(Candidates(clocks, Truncated(start), start, start + horizon, zone));
  }

  // ---------------------------------------------------------------- coverage

  /** `p` starts inside a kept plan of its own lane. */
  predicate Covered(plans: seq<Plan>, p: Plan)
  {
    exists i :: 0 <= i < |plans| && SameLane(plans[i], p) && Covers(plans[i], p.start)
  }

  lemma CoveredGrows(plans: seq<Plan>, more: seq<Plan>, p: Plan)
    requires plans <= more && Covered(plans, p)
    ensures Covered(more, p)
  {
    var i :| 0 <= i < |plans| && SameLane(plans[i], p) && Covers(plans[i], p.start);
    assert more[i] == plans[i];
  }

  /** Every proposal was kept, or starts inside a kept plan of its lane. */
  predicate Accounted(plans: seq<Plan>, kept: seq<Plan>)
  {
    forall p <- plans :: p in kept || Covered(kept, p)
  }

  lemma AccountedGrows(plans: seq<Plan>, kept: seq<Plan>, last: Plan, more: seq<Plan>)
    requires Accounted(plans, kept) && kept <= more && (last in more || Covered(more, last))
    ensures Accounted(plans + [last], more)
  {
    hide Covered;
    forall p | p in plans && p !in more ensures Covered(more, p) {
      CoveredGrows(kept, more, p);
    }
  }

  lemma AlignedHour(cursor: int)
    requires Aligned(cursor)
    ensures Truncated(cursor) == cursor && Aligned(cursor + HOUR)
  {
  }

  /** At an aligned hour the span builder makes a single pass. */
  lemma OnePass(slots: seq<Slot>, cursor: int, span: int)
    requires Aligned(cursor)
    ensures SpanPlans(slots, Truncated(cursor), cursor, HOUR, span) == TickPlans(slots, |slots|, cursor, cursor, HOUR, span)
  {
    AlignedHour(cursor);
    hide TickPlans;
    hide Truncated;
    assert SpanPlans(slots, cursor + HOUR, cursor, HOUR, span) == [];
  }

  /** With offsets from 0 on, slot i yields plan i. */
  lemma {:induction false} TickAll(slots: seq<Slot>, n: nat, cursor: int, span: int)
    requires n <= |slots| && forall i :: 0 <= i < |slots| ==> 0 <= slots[i].offset
    ensures var r := TickPlans(slots, n, cursor, cursor, HOUR, span);
            |r| == n && forall i :: 0 <= i < n ==> r[i] == PlanOf(slots, i, cursor, HOUR, span)
    decreases n
  {
    if n > 0 {
      hide PlanOf;
      TickAll(slots, n - 1, cursor, span);
    }
  }

  lemma {:induction false} SelectedIsListed(clocks: seq<Clock>, n: nat, hour: int)
    requires n <= |clocks|
    ensures Selected(clocks, n, hour).Some? ==> Selected(clocks, n, hour).value in clocks && Selected(clocks, n, hour).value.slots != []
    decreases n
  {
    if n > 0 {
      hide Applies;
      SelectedIsListed(clocks, n - 1, hour);
    }
  }

  // ---------------------------------------------------------------- what is proposed

  lemma {:induction false} FilterExactly(plans: seq<Plan>, start: int, end: int, p: Plan)
    ensures p in InHorizon(plans, start, end) <==> p in plans && start <= p.start < end
    decreases |plans|
  {
    if plans != [] {
      FilterExactly(plans[..|plans| - 1], start, end, p);
      assert plans == plans[..|plans| - 1] + [plans[|plans| - 1]];
    }
  }

  lemma {:induction false} TickExactly(slots: seq<Slot>, n: nat, cursor: int, start: int, horizon: int, span: int, p: Plan)
    requires n <= |slots|
    ensures p in TickPlans(slots, n, cursor, start, horizon, span)
       <==> exists i :: 0 <= i < n && start <= cursor + slots[i].offset && p == PlanOf(slots, i, cursor, horizon, span)
    decreases n
  {
    if n > 0 {
      hide PlanOf;
      TickExactly(slots, n - 1, cursor, start, horizon, span, p);
    }
  }

  function HourAt(cursor: int, m: nat): int { cursor + m * HOUR }

  /** Every hour of the horizon proposes its own plans, filtered to the horizon, and nothing else is proposed. */
  lemma {:induction false} CandidatesExactly(clocks: seq<Clock>, cursor: int, start: int, end: int, zone: int, p: Plan)
    ensures p in Candidates(clocks, cursor, start, end, zone)
       <==> start <= p.start < end && exists m: nat :: HourAt(cursor, m) < end && p in HourPlans(clocks, HourAt(cursor, m), zone)
    decreases end - cursor
  {
    hide HourPlans;
    if cursor < end {
      var next := cursor + HOUR;
      CandidatesExactly(clocks, next, start, end, zone, p);
      FilterExactly(HourPlans(clocks, cursor, zone), start, end, p);
      assert HourAt(cursor, 0) == cursor;
      if m: nat :| HourAt(next, m) < end && p in HourPlans(clocks, HourAt(next, m), zone) {
        assert HourAt(cursor, m + 1) == HourAt(next, m);
      }
      if m: nat :| HourAt(cursor, m) < end && p in HourPlans(clocks, HourAt(cursor, m), zone) {
        if m > 0 {
          assert HourAt(next, m - 1) == HourAt(cursor, m);
        }
      }
    }
  }

  lemma HourPlansOf(clocks: seq<Clock>, cursor: int, zone: int, p: Plan)
    requires Aligned(cursor)
    ensures p in HourPlans(clocks, cursor, zone)
       <==> && SelectedAt(clocks, cursor, zone).Some?
            && var clock := SelectedAt(clocks, cursor, zone).value;
               var slots := Sorted(clock.slots);
               exists i :: 0 <= i < |slots| && 0 <= slots[i].offset
                           && p == PlanOf(slots, i, cursor, HOUR, Remaining(clock, cursor, zone))
  {
    if SelectedAt(clocks, cursor, zone).Some? {
      var clock := SelectedAt(clocks, cursor, zone).value;
      PlansOfHour(clocks, cursor, zone);
      hide *;
      TickExactly(Sorted(clock.slots), |Sorted(clock.slots)|, cursor, cursor, HOUR, Remaining(clock, cursor, zone), p);
    }
  }

  /** The plans of an aligned hour are those of its selected clock's slots: slot i starts at its offset and runs for
      its own duration, for the rest of the window if it is a webstream, or until it is filled up. */
  lemma HourPlansExactly(clocks: seq<Clock>, cursor: int, zone: int, p: Plan)
    requires Aligned(cursor)
    ensures p in HourPlans(clocks, cursor, zone)
       <==> && SelectedAt(clocks, cursor, zone).Some?
            && var clock := SelectedAt(clocks, cursor, zone).value;
               var slots := Sorted(clock.slots);
               exists i :: 0 <= i < |slots| && 0 <= slots[i].offset
                           && p.slotId == slots[i].id && p.webstream == slots[i].webstream
                           && p.start == cursor + slots[i].offset
                           && p.end == p.start + Duration(slots, i, HOUR, Remaining(clock, cursor, zone))
  {
    hide HourPlans, SelectedAt, Sorted, Remaining, Duration, Aligned;
    HourPlansOf(clocks, cursor, zone, p);
  }

  lemma {:induction false} SpanPasses(slots: seq<Slot>, cursor: int, start: int, horizon: int, span: int, p: Plan)
    ensures p in SpanPlans(slots, cursor, start, horizon, span)
       <==> exists m: nat :: HourAt(cursor, m) < start + horizon
                             && p in TickPlans(slots, |slots|, HourAt(cursor, m), start, horizon, span)
    decreases start + horizon - cursor
  {
    hide TickPlans;
    if cursor < start + horizon {
      var next := cursor + HOUR;
      SpanPasses(slots, next, start, horizon, span, p);
      assert HourAt(cursor, 0) == cursor;
      if m: nat :| HourAt(next, m) < start + horizon && p in TickPlans(slots, |slots|, HourAt(next, m), start, horizon, span) {
        assert HourAt(cursor, m + 1) == HourAt(next, m);
      }
      if m: nat :| HourAt(cursor, m) < start + horizon && p in TickPlans(slots, |slots|, HourAt(cursor, m), start, horizon, span) {
        if m > 0 {
          assert HourAt(next, m - 1) == HourAt(cursor, m);
        }
      }
    }
  }

  /** All passes of a span: every hour from `cursor` to the end of the horizon plans each slot whose start is not before
      `start`, however long the horizon and wherever in an hour `start` falls. */
  lemma SpanExactly(slots: seq<Slot>, cursor: int, start: int, horizon: int, span: int, p: Plan)
    ensures p in SpanPlans(slots, cursor, start, horizon, span)
       <==> exists m: nat, i: nat ::
              && HourAt(cursor, m) < start + horizon && i < |slots|
              && p.slotId == slots[i].id && p.webstream == slots[i].webstream
              && start <= p.start == HourAt(cursor, m) + slots[i].offset
              && p.end == p.start + Duration(slots, i, horizon, span)
  {
    hide SpanPlans, TickPlans, HourAt, Duration;
    SpanPasses(slots, cursor, start, horizon, span, p);
    forall m: nat
      ensures p in TickPlans(slots, |slots|, HourAt(cursor, m), start, horizon, span)
         <==> exists i: nat ::
                && i < |slots| && p.slotId == slots[i].id && p.webstream == slots[i].webstream
                && start <= p.start == HourAt(cursor, m) + slots[i].offset
                && p.end == p.start + Duration(slots, i, horizon, span)
    {
      TickExactly(slots, |slots|, HourAt(cursor, m), start, horizon, span, p);
    }
  }

  // ---------------------------------------------------------------- webstreams against their window

  predicate OpenEnded(slots: seq<Slot>)
  {
    forall slot <- slots :: slot.webstream ==> slot.explicit <= 0
  }

  lemma {:induction false} WebstreamsSpan(slots: seq<Slot>, n: nat, cursor: int, span: int)
    requires n <= |slots| && OpenEnded(slots)
    ensures forall p <- TickPlans(slots, n, cursor, cursor, HOUR, span) :: p.webstream ==> p.end - p.start == span
    decreases n
  {
    if n > 0 {
      WebstreamsSpan(slots, n - 1, cursor, span);
      assert slots[n - 1] in slots;
    }
  }

  /** A webstream without a duration of its own runs past the end of its clock's window by exactly its offset into
      the hour: it is exact if and only if it starts with the hour. */
  lemma WebstreamOverrun(clocks: seq<Clock>, cursor: int, zone: int, p: Plan)
    requires Aligned(cursor) && SelectedAt(clocks, cursor, zone).Some?
    requires OpenEnded(SelectedAt(clocks, cursor, zone).value.slots)
    requires p in HourPlans(clocks, cursor, zone) && p.webstream
    ensures var clock := SelectedAt(clocks, cursor, zone).value;
            var windowEnd := cursor + Remaining(clock, cursor, zone);
            && p.end == windowEnd + (p.start - cursor)
            && (p.end == windowEnd <==> p.start == cursor)
            && (forall u :: cursor <= u < windowEnd ==> Applies(clock, LocalHour(u, zone)))
            && (Applies(clock, LocalHour(windowEnd, zone)) <==> AllDay(clock))
  {
    var clock := SelectedAt(clocks, cursor, zone).value;
    SelectedIsListed(clocks, |clocks|, LocalHour(cursor, zone));
    SelectedApplies(clocks, |clocks|, LocalHour(cursor, zone));
    var slots, span := Sorted(clock.slots), Remaining(clock, cursor, zone);
    SortedIsOpenEnded(clock.slots);
    OnePass(slots, cursor, span);
    WebstreamsSpan(slots, |slots|, cursor, span);
    WindowLasts(clock, cursor, zone);
    hide *;
    assert p in TickPlans(slots, |slots|, cursor, cursor, HOUR, span) by { PlansOfHour(clocks, cursor, zone); }
  }

  lemma PlansOfHour(clocks: seq<Clock>, cursor: int, zone: int)
    requires Aligned(cursor) && SelectedAt(clocks, cursor, zone).Some?
    ensures var clock := SelectedAt(clocks, cursor, zone).value;
            HourPlans(clocks, cursor, zone)
            == TickPlans(Sorted(clock.slots), |Sorted(clock.slots)|, cursor, cursor, HOUR, Remaining(clock, cursor, zone))
  {
    var clock := SelectedAt(clocks, cursor, zone).value;
    OnePass(Sorted(clock.slots), cursor, Remaining(clock, cursor, zone));
  }

  lemma SortedIsOpenEnded(slots: seq<Slot>)
    requires OpenEnded(slots)
    ensures OpenEnded(Sorted(slots))
  {
    forall slot <- Sorted(slots) ensures slot in slots {
      assert slot in multiset(Sorted(slots));
    }
  }

  lemma {:induction false} SelectedApplies(clocks: seq<Clock>, n: nat, hour: int)
    requires n <= |clocks|
    ensures Selected(clocks, n, hour).Some? ==> Applies(Selected(clocks, n, hour).value, hour)
    decreases n
  {
    if n > 0 {
      hide Applies;
      SelectedApplies(clocks, n - 1, hour);
    }
  }
}
