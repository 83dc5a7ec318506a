/** When de-duplication of a compiled schedule loses nothing, and exactly when it loses something. */
module ClockLosses {
  import opened Seqs
  import opened ClockWindow
  import opened ClockCompiler
  import opened ClockSchedule

  // ---------------------------------------------------------------- proposals in turn

  /** Start of the first of `plans` in the lane of `p` that starts no earlier than `p`. */
  function FirstFrom(plans: seq<Plan>, p: Plan): (r: Option<int>)
  {
    if plans == [] then None
    else
      var r, last := FirstFrom(plans[..|plans| - 1], p), plans[|plans| - 1];
      if r.Some? then r
      else if SameLane(last, p) && p.start <= last.start then Some(last.start)
      else None
  }

  lemma {:induction false} FirstMeans(plans: seq<Plan>, p: Plan)
    ensures var r := FirstFrom(plans, p);
            && (r.Some? ==> p.start <= r.value && exists q <- plans :: SameLane(q, p) && q.start == r.value)
            && (r.None? ==> forall q <- plans :: SameLane(q, p) ==> q.start < p.start)
    decreases |plans|
  {
    if plans != [] {
      FirstMeans(plans[..|plans| - 1], p);
      assert plans == plans[..|plans| - 1] + [plans[|plans| - 1]];
    }
  }

  /** Of the earlier proposals in its lane that start no earlier than `p`, the first starts with `p`. */
  predicate InTurn(plans: seq<Plan>, p: Plan)
  {
    FirstFrom(plans, p) == None || FirstFrom(plans, p) == Some(p.start)
  }

  predicate AllInTurn(plans: seq<Plan>)
  {
    plans == [] || (AllInTurn(plans[..|plans| - 1]) && InTurn(plans[..|plans| - 1], plans[|plans| - 1]))
  }

  lemma FirstPush(a: seq<Plan>, last: Plan, p: Plan)
    ensures FirstFrom(a + [last], p)
         == if FirstFrom(a, p).Some? then FirstFrom(a, p)
            else if SameLane(last, p) && p.start <= last.start then Some(last.start) else None
  {
    assert (a + [last])[..|a + [last]| - 1] == a;
  }

  lemma PushInTurn(a: seq<Plan>, p: Plan)
    requires AllInTurn(a) && InTurn(a, p)
    ensures AllInTurn(a + [p])
  {
    assert (a + [p])[..|a + [p]| - 1] == a;
  }

  lemma {:induction false} FirstAppend(a: seq<Plan>, b: seq<Plan>, p: Plan)
    ensures FirstFrom(a + b, p) == if FirstFrom(a, p).Some? then FirstFrom(a, p) else FirstFrom(b, p)
    decreases |b|
  {
    if b == [] {
      assert a + b == a;
    } else {
      assert (a + b)[..|a + b| - 1] == a + b[..|b| - 1];
      FirstAppend(a, b[..|b| - 1], p);
    }
  }

  lemma {:induction false} AppendInTurn(a: seq<Plan>, b: seq<Plan>, middle: int)
    requires AllInTurn(a) && AllInTurn(b)
    requires (forall p <- a :: p.start < middle) && (forall p <- b :: middle <= p.start)
    ensures AllInTurn(a + b)
    decreases |b|
  {
    if b == [] {
      assert a + b == a;
    } else {
      var rest, last := b[..|b| - 1], b[|b| - 1];
      assert (a + b)[..|a + b| - 1] == a + rest;
      AppendInTurn(a, rest, middle);
      FirstAppend(a, rest, last);
      FirstMeans(a, last);
      hide FirstFrom;
      assert a + b == a + rest + [last];
    }
  }

  lemma {:induction false} FilterFirst(plans: seq<Plan>, start: int, end: int, p: Plan)
    requires start <= p.start && (FirstFrom(plans, p).Some? ==> FirstFrom(plans, p).value < end)
    ensures FirstFrom(InHorizon(plans, start, end), p) == FirstFrom(plans, p)
    decreases |plans|
  {
    if plans != [] {
      var rest, last := plans[..|plans| - 1], plans[|plans| - 1];
      FilterFirst(rest, start, end, p);
      var r := InHorizon(rest, start, end);
      FirstPush(r, last, p);
      assert r + [] == r;
    }
  }

  lemma {:induction false} FilterInTurn(plans: seq<Plan>, start: int, end: int)
    requires AllInTurn(plans)
    ensures AllInTurn(InHorizon(plans, start, end))
    decreases |plans|
  {
    if plans != [] {
      var rest, last := plans[..|plans| - 1], plans[|plans| - 1];
      FilterInTurn(rest, start, end);
      var r := InHorizon(rest, start, end);
      assert r + [] == r;
      if start <= last.start < end {
        FilterFirst(rest, start, end, last);
        PushInTurn(r, last);
      }
      hide AllInTurn;
    }
  }

  // ---------------------------------------------------------------- in turn, nothing is lost

  /** The loop variables are attained by kept plans. */
  predicate EndsKept(k: Kept)
  {
    && (k.webstreamEnd.Some? ==> exists i :: 0 <= i < |k.plans| && k.plans[i].webstream && k.plans[i].end == k.webstreamEnd.value)
    && (forall id <- k.slotLastEnd ::
          exists i :: 0 <= i < |k.plans| && !k.plans[i].webstream && k.plans[i].slotId == id && k.plans[i].end == k.slotLastEnd[id])
  }

  lemma ConsiderEnds(k: Kept, p: Plan)
    requires EndsKept(k)
    ensures EndsKept(Consider(k, p))
  {
    if !Blocked(k, p) {
      var k' := Consider(k, p);
      assert k'.plans[|k.plans|] == p;
      forall id | id in k'.slotLastEnd
        ensures exists i :: 0 <= i < |k'.plans| && !k'.plans[i].webstream && k'.plans[i].slotId == id && k'.plans[i].end == k'.slotLastEnd[id]
      {
        if id in k.slotLastEnd && k'.slotLastEnd[id] == k.slotLastEnd[id] {
          var i :| 0 <= i < |k.plans| && !k.plans[i].webstream && k.plans[i].slotId == id && k.plans[i].end == k.slotLastEnd[id];
          assert k'.plans[i] == k.plans[i];
        }
      }
      if k'.webstreamEnd.Some? && k'.webstreamEnd == k.webstreamEnd {
        var i :| 0 <= i < |k.plans| && k.plans[i].webstream && k.plans[i].end == k.webstreamEnd.value;
        assert k'.plans[i] == k.plans[i];
      }
    }
  }

  lemma BlockedBy(k: Kept, p: Plan) returns (i: nat)
    requires EndsKept(k) && Blocked(k, p)
    ensures i < |k.plans| && SameLane(k.plans[i], p) && p.start < k.plans[i].end
  {
    if p.webstream {
      i :| 0 <= i < |k.plans| && k.plans[i].webstream && k.plans[i].end == k.webstreamEnd.value;
    } else {
      i :| 0 <= i < |k.plans| && !k.plans[i].webstream && k.plans[i].slotId == p.slotId && k.plans[i].end == k.slotLastEnd[p.slotId];
    }
  }

  /** A proposal that comes in turn is kept or covered. */
  lemma LastAccounted(plans: seq<Plan>, k: Kept, p: Plan)
    requires EndsKept(k) && Accounted(plans, k.plans) && (forall q <- k.plans :: q in plans)
    requires Positive(plans) && InTurn(plans, p)
    ensures p in Consider(k, p).plans || Covered(Consider(k, p).plans, p)
  {
    if Blocked(k, p) {
      var i := BlockedBy(k, p);
      if k.plans[i].start <= p.start {
        assert Covers(k.plans[i], p.start);
      } else {
        assert k.plans[i] in plans;
        FirstMeans(plans, p);
        var q :| q in plans && SameLane(q, p) && q.start == p.start;
        CoveredAlike(k.plans, q, p);
      }
    }
  }

  lemma CoveredAlike(plans: seq<Plan>, q: Plan, p: Plan)
    requires q in plans || Covered(plans, q)
    requires SameLane(q, p) && q.start == p.start < q.end
    ensures Covered(plans, p)
  {
    if q in plans {
      var i :| 0 <= i < |plans| && plans[i] == q;
      assert SameLane(plans[i], p) && Covers(plans[i], p.start);
    } else {
      var i :| 0 <= i < |plans| && SameLane(plans[i], q) && Covers(plans[i], q.start);
      assert SameLane(plans[i], p);
    }
  }

  lemma {:induction false} DedupInTurn(plans: seq<Plan>)
    requires AllInTurn(plans) && Positive(plans)
    ensures var k := Dedup(NOTHING, plans);
            Accounted(plans, k.plans) && EndsKept(k) && forall q <- k.plans :: q in plans
    decreases |plans|
  {
    if plans != [] {
      var rest, last := plans[..|plans| - 1], plans[|plans| - 1];
      assert plans == rest + [last];
      DedupInTurn(rest);
      var k := Dedup(NOTHING, rest);
      ConsiderEnds(k, last);
      hide EndsKept, Accounted, Covered, InTurn;
      LastAccounted(rest, k, last);
      AccountedGrows(rest, k.plans, last, Consider(k, last).plans);
    }
  }

  // ---------------------------------------------------------------- slots in turn

  predicate SameSlotLane(a: Slot, b: Slot)
  {
    a.webstream == b.webstream && (a.webstream || a.id == b.id)
  }

  /** A slot that would start before one listed ahead of it only repeats an offset its lane took still earlier. */
  predicate StartsInTurn(slots: seq<Slot>)
  {
    forall i, j :: 0 <= i < j < |slots| && SameSlotLane(slots[i], slots[j]) && 0 <= slots[j].offset < slots[i].offset ==>
                     TakenBefore(slots, i, slots[j])
  }

  predicate TakenBefore(slots: seq<Slot>, i: nat, x: Slot)
    requires i <= |slots|
  {
    exists k :: 0 <= k < i && SameSlotLane(slots[k], x) && slots[k].offset == x.offset
  }

  /** First offset, among the first `n` slots of its lane, that is no earlier than that of `x`. */
  function FirstOffset(slots: seq<Slot>, n: nat, x: Slot): (r: Option<int>)
    requires n <= |slots|
  {
    if n == 0 then None
    else
      var r := FirstOffset(slots, n - 1, x);
      if r.Some? then r
      else if SameSlotLane(slots[n - 1], x) && x.offset <= slots[n - 1].offset then Some(slots[n - 1].offset)
      else None
  }

  /** Slot `i` is the first of the lane of `x` that starts no earlier than `x`. */
  predicate IsFirst(slots: seq<Slot>, i: nat, x: Slot)
    requires i < |slots|
  {
    && SameSlotLane(slots[i], x) && x.offset <= slots[i].offset
    && forall k :: 0 <= k < i && SameSlotLane(slots[k], x) ==> slots[k].offset < x.offset
  }

  lemma {:induction false} FirstOffsetMeans(slots: seq<Slot>, n: nat, x: Slot)
    requires n <= |slots|
    ensures var r := FirstOffset(slots, n, x);
            && (r.Some? ==> exists i :: 0 <= i < n && IsFirst(slots, i, x) && slots[i].offset == r.value)
            && (r.None? ==> forall i :: 0 <= i < n && SameSlotLane(slots[i], x) ==> slots[i].offset < x.offset)
    decreases n
  {
    if n > 0 {
      FirstOffsetMeans(slots, n - 1, x);
      if FirstOffset(slots, n - 1, x).None? && FirstOffset(slots, n, x).Some? {
        assert IsFirst(slots, n - 1, x);
      }
    }
  }

  lemma PlanFacts(slots: seq<Slot>, i: nat, cursor: int, span: int)
    requires i < |slots|
    ensures var p := PlanOf(slots, i, cursor, HOUR, span);
            && p.slotId == slots[i].id && p.start == cursor + slots[i].offset && p.webstream == slots[i].webstream
            && (0 <= slots[i].offset ==> Yields(slots[i], cursor, p))
  {
  }

  lemma TickPush(slots: seq<Slot>, n: nat, cursor: int, span: int)
    requires n < |slots|
    ensures TickPlans(slots, n + 1, cursor, cursor, HOUR, span)
         == if slots[n].offset < 0 then TickPlans(slots, n, cursor, cursor, HOUR, span)
            else TickPlans(slots, n, cursor, cursor, HOUR, span) + [PlanOf(slots, n, cursor, HOUR, span)]
  {
    hide PlanOf;
    var front := TickPlans(slots, n, cursor, cursor, HOUR, span);
    assert front + [] == front;
  }

  /** `p` is what slot `x` yields at `cursor`, its end aside. */
  predicate Yields(x: Slot, cursor: int, p: Plan)
  {
    0 <= x.offset && p.start == cursor + x.offset && p.webstream == x.webstream && p.slotId == x.id
  }

  /** The plans of one pass mirror their slots. */
  lemma {:induction false} TickFirst(slots: seq<Slot>, n: nat, cursor: int, span: int, x: Slot, p: Plan)
    requires n <= |slots| && Yields(x, cursor, p)
    ensures FirstFrom(TickPlans(slots, n, cursor, cursor, HOUR, span), p)
         == if FirstOffset(slots, n, x).Some? then Some(cursor + FirstOffset(slots, n, x).value) else None
    decreases n
  {
    hide FirstFrom, PlanOf, SameLane, SameSlotLane, TickPlans;
    if n == 0 {
      NothingFirst(slots, cursor, span, p);
    } else {
      var plan := PlanOf(slots, n - 1, cursor, HOUR, span);
      TickFirst(slots, n - 1, cursor, span, x, p);
      TickPush(slots, n - 1, cursor, span);
      PlanFacts(slots, n - 1, cursor, span);
      FirstPush(TickPlans(slots, n - 1, cursor, cursor, HOUR, span), plan, p);
      SameLanes(slots[n - 1], x, plan, p);
    }
  }

  lemma NothingFirst(slots: seq<Slot>, cursor: int, span: int, p: Plan)
    ensures FirstFrom(TickPlans(slots, 0, cursor, cursor, HOUR, span), p) == None
  {
  }

  lemma SameLanes(a: Slot, b: Slot, p: Plan, q: Plan)
    requires p.webstream == a.webstream && p.slotId == a.id && q.webstream == b.webstream && q.slotId == b.id
    ensures SameLane(p, q) <==> SameSlotLane(a, b)
  {
  }

  lemma {:induction false} TickInTurn(slots: seq<Slot>, n: nat, cursor: int, span: int)
    requires n <= |slots| && StartsInTurn(slots)
    ensures AllInTurn(TickPlans(slots, n, cursor, cursor, HOUR, span))
    decreases n
  {
    hide PlanOf, StartsInTurn, FirstOffset, FirstFrom, TickPlans, AllInTurn;
    if n == 0 {
      NothingInTurn(slots, cursor, span);
    } else {
      TickInTurn(slots, n - 1, cursor, span);
      TickPush(slots, n - 1, cursor, span);
      if 0 <= slots[n - 1].offset {
        var plan := PlanOf(slots, n - 1, cursor, HOUR, span);
        PlanFacts(slots, n - 1, cursor, span);
        TickFirst(slots, n - 1, cursor, span, slots[n - 1], plan);
        NotOvertaken(slots, n - 1);
        PushInTurn(TickPlans(slots, n - 1, cursor, cursor, HOUR, span), plan);
      }
    }
  }

  lemma NothingInTurn(slots: seq<Slot>, cursor: int, span: int)
    ensures AllInTurn([]) && AllInTurn(TickPlans(slots, 0, cursor, cursor, HOUR, span))
  {
  }

  lemma NotOvertaken(slots: seq<Slot>, j: nat)
    requires j < |slots| && StartsInTurn(slots) && 0 <= slots[j].offset
    ensures FirstOffset(slots, j, slots[j]) == None || FirstOffset(slots, j, slots[j]) == Some(slots[j].offset)
  {
    var x, r := slots[j], FirstOffset(slots, j, slots[j]);
    FirstOffsetMeans(slots, j, x);
    if r.Some? {
      var i :| 0 <= i < j && IsFirst(slots, i, x) && slots[i].offset == r.value;
      assert !TakenBefore(slots, i, x);
    }
  }

  lemma Overtaken(slots: seq<Slot>, i: nat, j: nat)
    requires i < j < |slots| && SameSlotLane(slots[i], slots[j]) && slots[j].offset < slots[i].offset
    requires !TakenBefore(slots, i, slots[j])
    ensures FirstOffset(slots, |slots|, slots[j]).Some? && slots[j].offset < FirstOffset(slots, |slots|, slots[j]).value
    ensures exists f :: 0 <= f < |slots| && slots[f].offset == FirstOffset(slots, |slots|, slots[j]).value
  {
    var x, r := slots[j], FirstOffset(slots, |slots|, slots[j]);
    FirstOffsetMeans(slots, |slots|, x);
    var f :| 0 <= f < |slots| && IsFirst(slots, f, x) && slots[f].offset == r.value;
    assert f <= i;
  }

  // ---------------------------------------------------------------- hours in turn

  predicate WithinHour(clocks: seq<Clock>, t: int, zone: int)
  {
    SelectedAt(clocks, t, zone).Some? ==> forall slot <- SelectedAt(clocks, t, zone).value.slots :: slot.offset < HOUR
  }

  predicate HourInTurn(clocks: seq<Clock>, t: int, zone: int)
  {
    SelectedAt(clocks, t, zone).Some? ==> StartsInTurn(Sorted(SelectedAt(clocks, t, zone).value.slots))
  }

  lemma HourPlansInTurn(clocks: seq<Clock>, t: int, zone: int)
    requires Aligned(t) && WithinHour(clocks, t, zone) && HourInTurn(clocks, t, zone)
    ensures AllInTurn(HourPlans(clocks, t, zone)) && forall p <- HourPlans(clocks, t, zone) :: t <= p.start < t + HOUR
  {
    hide StartsInTurn, Sorted, SelectedAt, Remaining, TickPlans, Aligned, SpanPlans, Truncated, WithinHour;
    if SelectedAt(clocks, t, zone).Some? {
      var clock := SelectedAt(clocks, t, zone).value;
      var slots, span := Sorted(clock.slots), Remaining(clock, t, zone);
      PlansOfHour(clocks, t, zone);
      TickInTurn(slots, |slots|, t, span);
      SelectedWithinHour(clocks, t, zone);
      forall p <- HourPlans(clocks, t, zone) ensures t <= p.start < t + HOUR {
        StartOfTick(slots, t, span, p);
      }
    }
  }

  lemma StartOfTick(slots: seq<Slot>, t: int, span: int, p: Plan)
    requires p in TickPlans(slots, |slots|, t, t, HOUR, span) && forall slot <- slots :: slot.offset < HOUR
    ensures t <= p.start < t + HOUR
  {
    hide TickPlans, PlanOf;
    TickExactly(slots, |slots|, t, t, HOUR, span, p);
    var i :| 0 <= i < |slots| && t <= t + slots[i].offset && p == PlanOf(slots, i, t, HOUR, span);
    PlanFacts(slots, i, t, span);
  }

  lemma SelectedWithinHour(clocks: seq<Clock>, t: int, zone: int)
    requires WithinHour(clocks, t, zone) && SelectedAt(clocks, t, zone).Some?
    ensures forall slot <- Sorted(SelectedAt(clocks, t, zone).value.slots) :: slot.offset < HOUR
  {
    hide SelectedAt, Sorted;
    SortedWithinHour(SelectedAt(clocks, t, zone).value.slots);
  }

  lemma SortedWithinHour(slots: seq<Slot>)
    requires forall slot <- slots :: slot.offset < HOUR
    ensures forall slot <- Sorted(slots) :: slot.offset < HOUR
  {
    forall slot <- Sorted(slots) ensures slot in slots {
      assert slot in multiset(Sorted(slots));
    }
  }

  lemma {:induction false} CandidatesInTurn(clocks: seq<Clock>, cursor: int, start: int, end: int, zone: int)
    requires Aligned(cursor)
    requires forall t :: Aligned(t) && cursor <= t < end ==> WithinHour(clocks, t, zone) && HourInTurn(clocks, t, zone)
    ensures var c := Candidates(clocks, cursor, start, end, zone); AllInTurn(c) && forall p <- c :: cursor <= p.start
    decreases end - cursor
  {
    hide HourPlans, InHorizon, WithinHour, HourInTurn, Aligned, Truncated;
    if cursor < end {
      var hour := HourPlans(clocks, cursor, zone);
      HourPlansInTurn(clocks, cursor, zone);
      FilterInTurn(hour, start, end);
      FilterSubset(hour, start, end);
      AlignedHour(cursor);
      CandidatesInTurn(clocks, cursor + HOUR, start, end, zone);
      AppendInTurn(InHorizon(hour, start, end), Candidates(clocks, cursor + HOUR, start, end, zone), cursor + HOUR);
    }
  }

  /** `p` is proposed, and neither emitted nor covered by an emitted plan of its slot (of any webstream, for a webstream). */
  predicate Loses(clocks: seq<Clock>, start: int, horizon: int, zone: int, p: Plan)
  {
    && p in Candidates(clocks, Truncated(start), start, start + horizon, zone)
    && p !in Emitted(clocks, start, horizon, zone) && !Covered(Emitted(clocks, start, horizon, zone), p)
  }

  lemma AllAccounted(clocks: seq<Clock>, hour: int, start: int, end: int, zone: int)
    requires Aligned(hour)
    requires forall t :: Aligned(t) && hour <= t < end ==> WithinHour(clocks, t, zone) && HourInTurn(clocks, t, zone)
    ensures var c := Candidates(clocks, hour, start, end, zone); Accounted(c, Dedup(NOTHING, c).plans)
  {
    hide *;
    CandidatesPositive(clocks, hour, start, end, zone);
    CandidatesInTurn(clocks, hour, start, end, zone);
    DedupInTurn(Candidates(clocks, hour, start, end, zone));
  }

  /** If in every hour of the horizon the selected clock has its slots in turn, lane by lane, nothing is lost. */
  lemma NothingLost(clocks: seq<Clock>, start: int, horizon: int, zone: int, p: Plan)
    requires forall t :: Aligned(t) && Truncated(start) <= t < start + horizon ==>
                           WithinHour(clocks, t, zone) && HourInTurn(clocks, t, zone)
    ensures !Loses(clocks, start, horizon, zone, p)
  {
    hide Aligned, Truncated, Candidates, Dedup, Covered, WithinHour, HourInTurn;
    AllAccounted(clocks, Truncated(start), start, start + horizon, zone);
  }

  // ---------------------------------------------------------------- out of turn, something is lost

  /** Where the lane of `p` ends so far. */
  function LaneEnd(k: Kept, p: Plan): Option<int>
  {
    if p.webstream then k.webstreamEnd
    else if p.slotId in k.slotLastEnd then Some(k.slotLastEnd[p.slotId]) else None
  }

  lemma ConsiderLane(k: Kept, q: Plan, p: Plan)
    ensures !SameLane(q, p) || Blocked(k, q) ==> LaneEnd(Consider(k, q), p) == LaneEnd(k, p)
    ensures SameLane(q, p) ==> (Blocked(k, q) <==> LaneEnd(k, p).Some? && q.start < LaneEnd(k, p).value)
    ensures SameLane(q, p) && !Blocked(k, q) ==>
              LaneEnd(Consider(k, q), p).Some? && q.end <= LaneEnd(Consider(k, q), p).value
  {
  }

  /** When nothing proposed starts before `p`, the first of its lane is kept, and nothing of its lane before that. */
  lemma {:induction false} FirstIsKept(plans: seq<Plan>, p: Plan)
    requires Positive(plans) && forall q <- plans :: p.start <= q.start
    ensures var k, first := Dedup(NOTHING, plans), FirstFrom(plans, p);
            && (first.None? ==> LaneEnd(k, p) == None && forall q <- k.plans :: !SameLane(q, p))
            && (first.Some? ==> LaneEnd(k, p).Some? && first.value < LaneEnd(k, p).value
                                && forall q <- k.plans :: SameLane(q, p) ==> first.value <= q.start)
    decreases |plans|
  {
    if plans != [] {
      var rest, last := plans[..|plans| - 1], plans[|plans| - 1];
      assert plans == rest + [last];
      FirstIsKept(rest, p);
      ConsiderLane(Dedup(NOTHING, rest), last, p);
      hide LaneEnd;
    }
  }

  /** A slot overtaken in its lane is lost by a schedule that starts when it would have started. */
  lemma OvertakenIsLost(clocks: seq<Clock>, t: int, zone: int, i: nat, j: nat)
    requires Aligned(t) && WithinHour(clocks, t, zone) && SelectedAt(clocks, t, zone).Some?
    requires var slots := Sorted(SelectedAt(clocks, t, zone).value.slots);
             && i < j < |slots| && SameSlotLane(slots[i], slots[j]) && 0 <= slots[j].offset < slots[i].offset
             && !TakenBefore(slots, i, slots[j])
    ensures var clock := SelectedAt(clocks, t, zone).value;
            var slots := Sorted(clock.slots);
            Loses(clocks, t + slots[j].offset, HOUR, zone, PlanOf(slots, j, t, HOUR, Remaining(clock, t, zone)))
  {
    hide *;
    var slots := Sorted(SelectedAt(clocks, t, zone).value.slots);
    SelectedWithinHour(clocks, t, zone);
    Overtaken(slots, i, j);
    FirstOfHour(clocks, t, zone, j);
    PlanFacts(slots, j, t, Remaining(SelectedAt(clocks, t, zone).value, t, zone));
    LostBehindFirst(clocks, t, zone, PlanOf(slots, j, t, HOUR, Remaining(SelectedAt(clocks, t, zone).value, t, zone)));
  }

  lemma FirstOfHour(clocks: seq<Clock>, t: int, zone: int, j: nat)
    requires Aligned(t) && SelectedAt(clocks, t, zone).Some?
    requires var slots := Sorted(SelectedAt(clocks, t, zone).value.slots); j < |slots| && 0 <= slots[j].offset
    ensures var clock := SelectedAt(clocks, t, zone).value;
            var slots := Sorted(clock.slots);
            var p, first := PlanOf(slots, j, t, HOUR, Remaining(clock, t, zone)), FirstOffset(slots, |slots|, slots[j]);
            && p in HourPlans(clocks, t, zone)
            && FirstFrom(HourPlans(clocks, t, zone), p) == if first.Some? then Some(t + first.value) else None
  {
    hide *;
    var clock := SelectedAt(clocks, t, zone).value;
    var slots, span := Sorted(clock.slots), Remaining(clock, t, zone);
    PlansOfHour(clocks, t, zone);
    var p := PlanOf(slots, j, t, HOUR, span);
    PlanFacts(slots, j, t, span);
    TickFirst(slots, |slots|, t, span, slots[j], p);
    TickExactly(slots, |slots|, t, t, HOUR, span, p);
  }

  /** A plan of hour `t` is lost by a schedule of one hour from its start if the first of its lane from there on is later. */
  lemma LostBehindFirst(clocks: seq<Clock>, t: int, zone: int, p: Plan)
    requires Aligned(t) && p in HourPlans(clocks, t, zone) && t <= p.start < t + HOUR
    requires var first := FirstFrom(HourPlans(clocks, t, zone), p);
             first.Some? && p.start < first.value < t + HOUR
    ensures Loses(clocks, p.start, HOUR, zone, p)
  {
    var end := p.start + HOUR;
    hide HourPlans, FirstFrom, Truncated, Dedup, Candidates, SelectedAt, Aligned, InHorizon;
    StartOfHour(p.start, t);
    ProposedFromStart(clocks, t, end, zone, p);
    CandidatesPositive(clocks, t, p.start, end, zone);
    FirstIsKept(Candidates(clocks, t, p.start, end, zone), p);
  }

  lemma ProposedFromStart(clocks: seq<Clock>, t: int, end: int, zone: int, p: Plan)
    requires t < end && p in HourPlans(clocks, t, zone) && p.start < end
    requires var first := FirstFrom(HourPlans(clocks, t, zone), p); first.Some? && first.value < end
    ensures var c := Candidates(clocks, t, p.start, end, zone);
            && p in c && FirstFrom(c, p) == FirstFrom(HourPlans(clocks, t, zone), p)
            && forall q <- c :: p.start <= q.start
  {
    hide HourPlans, InHorizon, FirstFrom, HourAt;
    var hour, c := HourPlans(clocks, t, zone), Candidates(clocks, t, p.start, end, zone);
    forall q <- c ensures p.start <= q.start {
      CandidatesExactly(clocks, t, p.start, end, zone, q);
    }
    FilterFirst(hour, p.start, end, p);
    FilterExactly(hour, p.start, end, p);
    FirstAppend(InHorizon(hour, p.start, end), Candidates(clocks, t + HOUR, p.start, end, zone), p);
  }

  lemma StartOfHour(u: int, t: int)
    requires Aligned(t) && t <= u < t + HOUR
    ensures Truncated(u) == t
  {
  }

  /** For clocks whose slots belong to their hour: no schedule, whatever its start and horizon, ever loses a proposal, if
      and only if every clock that can be selected has its slots in turn, lane by lane. */
  lemma NothingEverLostIff(clocks: seq<Clock>, zone: int)
    requires forall t :: Aligned(t) ==> WithinHour(clocks, t, zone)
    ensures (forall start, horizon, p :: !Loses(clocks, start, horizon, zone, p))
       <==> (forall t :: Aligned(t) ==> HourInTurn(clocks, t, zone))
  {
    hide WithinHour, Loses, HourInTurn, Aligned;
    if forall t :: Aligned(t) ==> HourInTurn(clocks, t, zone) {
      forall start, horizon, p ensures !Loses(clocks, start, horizon, zone, p) {
        NothingLost(clocks, start, horizon, zone, p);
      }
    }
    forall t | Aligned(t) && !HourInTurn(clocks, t, zone)
      ensures exists start, horizon, p :: Loses(clocks, start, horizon, zone, p)
    {
      SomethingLost(clocks, t, zone);
    }
  }

  lemma SomethingLost(clocks: seq<Clock>, t: int, zone: int)
    requires Aligned(t) && WithinHour(clocks, t, zone) && !HourInTurn(clocks, t, zone)
    ensures exists start, horizon, p :: Loses(clocks, start, horizon, zone, p)
  {
    var slots := Sorted(SelectedAt(clocks, t, zone).value.slots);
    var i, j :| 0 <= i < j < |slots| && SameSlotLane(slots[i], slots[j]) && 0 <= slots[j].offset < slots[i].offset
                && !TakenBefore(slots, i, slots[j]);
    hide Loses, SelectedAt, Sorted, WithinHour, Aligned, TakenBefore;
    OvertakenIsLost(clocks, t, zone, i, j);
  }

  // ---------------------------------------------------------------- a clock that loses

  const MINUTE: int := HOUR / 60

  /** Webstreams at 10, 50 and 40 minutes past, in this order of position. */
  const FIRST := Slot("first", 0, 10 * MINUTE, true, 0)
  const LATE := Slot("late", 1, 50 * MINUTE, true, 0)
  const EARLY := Slot("early", 2, 40 * MINUTE, true, 0)
  const BACKWARDS := [Clock(0, 24, [FIRST, LATE, EARLY])]

  lemma {:induction false} AlreadySorted(slots: seq<Slot>)
    requires ByPosition(slots)
    ensures Sorted(slots) == slots
    decreases |slots|
  {
    hide Insert;
    if slots != [] {
      var front, last := slots[..|slots| - 1], slots[|slots| - 1];
      assert slots == front + [last];
      AlreadySorted(front);
      InsertLast(front, last);
    }
  }

  lemma InsertLast(front: seq<Slot>, last: Slot)
    requires ByPosition(front) && forall i :: 0 <= i < |front| ==> front[i].position <= last.position
    ensures Insert(front, last) == front + [last]
  {
  }

  lemma BackwardsSelected()
    ensures SelectedAt(BACKWARDS, 0, 0) == Some(BACKWARDS[0])
  {
    assert LocalHour(0, 0) == 0;
    assert Selected(BACKWARDS, 0, 0) == None;
  }

  /** A webstream at 10 minutes past ends 10 minutes after its window. */
  lemma WebstreamCanOverrun()
    ensures exists p :: p in HourPlans(BACKWARDS, 0, 0) && p.webstream && p.end == Remaining(BACKWARDS[0], 0, 0) + 10 * MINUTE
  {
    hide HourPlans, Sorted, SelectedAt, Remaining, PlanOf, ByPosition, FirstFrom, Applies, AllDay, LocalHour;
    var slots := [FIRST, LATE, EARLY];
    BackwardsInPosition(slots);
    BackwardsSelected();
    AlreadySorted(slots);
    FirstOfHour(BACKWARDS, 0, 0, 0);
    PlanFacts(slots, 0, 0, Remaining(BACKWARDS[0], 0, 0));
    WebstreamOverrun(BACKWARDS, 0, 0, PlanOf(slots, 0, 0, HOUR, Remaining(BACKWARDS[0], 0, 0)));
  }

  /** A schedule that starts at 40 minutes past drops the webstream that starts then, because one that starts later
      comes first by position; nothing emitted covers it. It does not help that no webstream starts before the first. */
  lemma OffsetsAgainstPositionsLose()
    ensures exists clocks: seq<Clock>, start: int, horizon: int, zone: int, p: Plan ::
              && Loses(clocks, start, horizon, zone, p)
              && |clocks| == 1 && clocks[0].slots != [] && clocks[0].slots == Sorted(clocks[0].slots)
              && forall slot <- clocks[0].slots :: slot.webstream && clocks[0].slots[0].offset <= slot.offset
  {
    hide Loses, Sorted, SelectedAt, TakenBefore, Remaining, PlanOf, ByPosition;
    var slots := [FIRST, LATE, EARLY];
    BackwardsInPosition(slots);
    BackwardsSelected();
    AlreadySorted(slots);
    OvertakenIsLost(BACKWARDS, 0, 0, 1, 2);
  }

  lemma BackwardsInPosition(slots: seq<Slot>)
    requires slots == [FIRST, LATE, EARLY]
    ensures ByPosition(slots) && !TakenBefore(slots, 1, slots[2]) && Aligned(0)
  {
  }
}
