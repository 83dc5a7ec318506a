/** The silence bridge running against live feeds, connections and the clock, one shared access at a time.

    The gap test loads the last feed time, then looks at the mount under its lock, then at the clock: three steps.
    The budget test and the emission are two more. Feed bytes may land between any two of them, as they can in
    internal/broadcast/server.go. */
module BridgePacing {
  import opened Seqs
  import opened Mounts
  import opened SilenceBridge

  /** `first` tells the gap test before the inner loop from the one in its condition. */
  datatype Phase =
    | Waiting | Loaded(out: nat)
    | CheckFed(first: bool) | CheckMount(first: bool, fed: real) | CheckClock(first: bool, fed: real)
    | Deciding | Emitting

  /** `silent` and `started` are history. */
  datatype State = State(
    rate: real, slack: real, grace: real, frame: nat,
    clock: real, bytesOut: nat, inputs: nat, clients: nat, lastFed: Option<real>,
    phase: Phase, budget: real, last: real, silent: nat, started: real)

  datatype Action =
    | ClockAdvances(dt: real)
    | FeedStarts | FeedBytes(n: nat) | FeedDated | FeedEnds
    | ClientArrives | ClientLeaves
    | Tick(at: real) | ClampBudget | LoadFed | LookAtMount | LookAtClock | Decide | Emit

  predicate Tuned(s: State)
  {
    0.0 < s.rate && 0.0 <= s.slack && 0 < s.frame
  }

  predicate Starting(s: State)
  {
    Tuned(s) && s.phase == Waiting && s.budget == s.bytesOut as real && s.silent == 0 && s.last == s.started <= s.clock
  }

  predicate Enabled(s: State, a: Action)
  {
    match a
    case ClockAdvances(dt) => dt >= 0.0
    case FeedStarts => true
    case FeedBytes(_) => s.inputs > 0
    case FeedDated => s.inputs > 0
    case FeedEnds => s.inputs > 0
    case ClientArrives => true
    case ClientLeaves => s.clients > 0
    case Tick(at) => s.phase == Waiting && s.last <= at <= s.clock
    case ClampBudget => s.phase.Loaded?
    case LoadFed => s.phase.CheckFed?
    case LookAtMount => s.phase.CheckMount?
    case LookAtClock => s.phase.CheckClock?
    case Decide => s.phase == Deciding
    case Emit => s.phase == Emitting
  }

  function Next(s: State, a: Action): State
    requires Tuned(s) && Enabled(s, a)
  {
    match a
    case ClockAdvances(dt) => s.(clock := s.clock + dt)
    case FeedStarts => s.(inputs := s.inputs + 1)
    case FeedBytes(n) => s.(bytesOut := s.bytesOut + n)
    case FeedDated => s.(lastFed := Some(s.clock))
    case FeedEnds => s.(inputs := s.inputs - 1)
    case ClientArrives => s.(clients := s.clients + 1)
    case ClientLeaves => s.(clients := s.clients - 1)
    case Tick(at) => s.(budget := s.budget + Earned(s.last, at, s.rate), last := at, phase := Loaded(s.bytesOut))
    case ClampBudget => s.(budget := Clamp(s.budget, s.phase.out, s.slack), phase := CheckFed(true))
    case LoadFed => s.(phase := if s.lastFed.Some? then CheckMount(s.phase.first, s.lastFed.value) else Waiting)
    case LookAtMount =>
      s.(phase := if s.inputs == 0 && s.clients > 0 then CheckClock(s.phase.first, s.phase.fed) else Waiting)
    case LookAtClock =>
      s.(phase := if s.clock - s.phase.fed <= s.grace then Waiting else if s.phase.first then CheckFed(false) else Deciding)
    case Decide => s.(phase := if s.bytesOut + s.frame <= Trunc(s.budget) then Emitting else Waiting)
    case Emit => s.(bytesOut := s.bytesOut + s.frame, silent := s.silent + s.frame, phase := CheckFed(false))
  }

  function Step(s: State, a: Action): (r: State)
    requires Tuned(s)
    ensures Tuned(r)
  {
    if Enabled(s, a) then Next(s, a) else s
  }

  function Exec(s: State, acts: seq<Action>): (r: State)
    requires Tuned(s)
    ensures Tuned(r)
    decreases |acts|
  {
    if acts == [] then s else Step(Exec(s, acts[..|acts| - 1]), acts[|acts| - 1])
  }

  /** A frame the budget test has granted but that is not out yet. */
  function Granted(s: State): nat
  {
    if s.phase == Emitting then s.frame else 0
  }

  function Positive(r: real): real { if r > 0.0 then r else 0.0 }

  /** Silence out, silence granted, and the credit left after it. */
  function Potential(s: State): real
  {
    s.silent as real + Granted(s) as real + Positive(s.budget - s.bytesOut as real - Granted(s) as real)
  }

  /** Once clamped, the credit stays within the slack, whatever the feeds do meanwhile. */
  predicate Clamped(s: State)
  {
    && (!s.phase.Loaded? ==> s.budget - s.bytesOut as real <= s.slack)
    && (s.phase.Loaded? ==> s.phase.out <= s.bytesOut)
  }

  lemma EarnedNonNegative(from: real, to: real, rate: real)
    requires from <= to && 0.0 < rate
    ensures 0.0 <= Earned(from, to, rate)
  {
  }

  lemma EarnedAdds(from: real, via: real, to: real, rate: real)
    ensures Earned(from, via, rate) + Earned(via, to, rate) == Earned(from, to, rate)
    ensures Earned(from, from, rate) == 0.0
  {
  }

  lemma ClampedStep(s: State, a: Action)
    requires Tuned(s) && Clamped(s)
    ensures Clamped(Step(s, a))
  {
    hide Earned;
  }

  lemma PotentialEarned(s: State, a: Action)
    requires Tuned(s) && Clamped(s)
    ensures s.last <= Step(s, a).last && Step(s, a).rate == s.rate && Step(s, a).started == s.started
    ensures Potential(Step(s, a)) <= Potential(s) + Earned(s.last, Step(s, a).last, s.rate)
  {
    hide Earned;
    EarnedAdds(s.last, s.last, s.last, s.rate);
    if a.Tick? && Enabled(s, a) {
      EarnedNonNegative(s.last, a.at, s.rate);
    }
  }

  /** The potential grows only with the clock, and no faster than the byte rate. */
  lemma PotentialStep(s: State, a: Action)
    requires Tuned(s) && Clamped(s)
    ensures s.last <= Step(s, a).last && Step(s, a).rate == s.rate && Step(s, a).started == s.started
    ensures Potential(Step(s, a)) <= Potential(s) + (Step(s, a).last - s.last) * s.rate
  {
    hide Step, Potential;
    PotentialEarned(s, a);
    assert Potential(Step(s, a)) <= Potential(s) + Earned(s.last, Step(s, a).last, s.rate);
  }

  lemma {:induction false} PotentialRun(s: State, acts: seq<Action>)
    requires Tuned(s) && Clamped(s)
    ensures var r := Exec(s, acts);
            && Clamped(r) && s.last <= r.last && r.rate == s.rate && r.started == s.started
            && Potential(r) <= Potential(s) + Earned(s.last, r.last, s.rate)
    decreases |acts|
  {
    hide Step, Potential, Clamped, Earned;
    if acts == [] {
      EarnedAdds(s.last, s.last, s.last, s.rate);
    } else {
      var mid := Exec(s, acts[..|acts| - 1]);
      PotentialRun(s, acts[..|acts| - 1]);
      PotentialEarned(mid, acts[|acts| - 1]);
      ClampedStep(mid, acts[|acts| - 1]);
      EarnedAdds(s.last, mid.last, Exec(s, acts).last, s.rate);
    }
  }

  lemma AheadEarned(s: State, acts: seq<Action>)
    requires Starting(s)
    ensures Exec(s, acts).silent as real <= Earned(s.started, Exec(s, acts).last, s.rate)
  {
    hide Earned, Exec;
    PotentialRun(s, acts);
  }

  /** Counted from the start of the bridge, silence never exceeds byteRate times the time elapsed,
      in every interleaving with feeds, connections and the clock. */
  lemma NeverAheadOfRealtime(s: State, acts: seq<Action>, r: State)
    requires Starting(s) && r == Exec(s, acts)
    ensures r.silent as real <= (r.last - s.started) * s.rate
    ensures r.last <= r.clock
  {
    hide Exec;
    AheadEarned(s, acts);
    assert Earned(s.started, r.last, s.rate) == (r.last - s.started) * s.rate;
    TickedInPast(s, acts);
  }

  lemma {:induction false} TickedInPast(s: State, acts: seq<Action>)
    requires Tuned(s) && s.last <= s.clock
    ensures Exec(s, acts).last <= Exec(s, acts).clock
    decreases |acts|
  {
    hide Earned;
    if acts != [] {
      TickedInPast(s, acts[..|acts| - 1]);
    }
  }

  lemma WindowEarned(s: State, before: seq<Action>, a: State, during: seq<Action>, b: State)
    requires Starting(s) && a == Exec(s, before) && b == Exec(a, during)
    requires !a.phase.Loaded? && a.phase != Emitting
    ensures b.silent as real - a.silent as real <= s.slack + Earned(a.last, b.last, s.rate)
  {
    hide Earned, Exec;
    PotentialRun(s, before);
    PotentialRun(a, during);
    SlackConstant(s, before);
  }

  /** Between two polls, silence is bounded by the clamp slack plus byteRate times the time between them. */
  lemma WindowBound(s: State, before: seq<Action>, a: State, during: seq<Action>, b: State)
    requires Starting(s) && a == Exec(s, before) && b == Exec(a, during)
    requires !a.phase.Loaded? && a.phase != Emitting
    ensures b.silent as real - a.silent as real <= s.slack + (b.last - a.last) * s.rate
  {
    hide Exec, Starting;
    WindowEarned(s, before, a, during, b);
    assert Earned(a.last, b.last, s.rate) == (b.last - a.last) * s.rate;
  }

  lemma {:induction false} SlackConstant(s: State, acts: seq<Action>)
    requires Tuned(s)
    ensures Exec(s, acts).slack == s.slack && Exec(s, acts).frame == s.frame
    decreases |acts|
  {
    hide Earned;
    if acts != [] {
      SlackConstant(s, acts[..|acts| - 1]);
    }
  }

  /** Within one poll the inner loop emits at most the slack: it terminates, however feeds interfere. */
  lemma OnePollIsBounded(s: State, before: seq<Action>, a: State, during: seq<Action>, b: State)
    requires Starting(s) && a == Exec(s, before) && b == Exec(a, during)
    requires a.phase == CheckFed(true) && b.last == a.last
    ensures b.silent as real - a.silent as real <= s.slack
  {
    hide Exec, Earned;
    WindowEarned(s, before, a, during, b);
    EarnedAdds(a.last, a.last, a.last, s.rate);
  }

  /** The budget test ends a poll exactly when less than one more frame fits, so the deficit then left is
      under a frame and a byte; and it grants a frame only while delivery is behind the budget. */
  lemma DecideLeavesNoFrame(s: State)
    requires Tuned(s) && s.phase == Deciding
    ensures Step(s, Decide).phase == Waiting ==> s.budget - s.bytesOut as real < s.frame as real + 1.0
    ensures Step(s, Decide).phase == Emitting ==> s.budget > 0.0 && s.bytesOut as real + s.frame as real <= s.budget
    ensures Step(s, Decide).phase == Waiting || Step(s, Decide).phase == Emitting
  {
    hide Earned;
    assert s.budget < 0.0 ==> Trunc(s.budget) <= 0;
  }

  // ---------------------------------------------------------------- a quiet gap, poll after poll

  /** Budget and delivered bytes after one poll in a gap at `to`, the last having been at `from`. */
  function AfterPoll(budget: real, out: nat, from: real, to: real, rate: real, slack: real, frame: nat): (r: (real, nat))
    requires 0 < frame && 0.0 <= slack
  {
    var b := Clamp(budget + (to - from) * rate, out, slack);
    (b, Filled(out, frame, Trunc(b)))
  }

  function LastOf(start: real, ticks: seq<real>): real
  {
    if ticks == [] then start else ticks[|ticks| - 1]
  }

  /** The same after polls at `ticks` in one undisturbed gap, the last before them at `start`. */
  function QuietPolls(budget: real, out: nat, start: real, ticks: seq<real>, rate: real, slack: real, frame: nat): (r: (real, nat))
    requires 0 < frame && 0.0 <= slack
    decreases |ticks|
  {
    if ticks == [] then (budget, out)
    else
      var before := ticks[..|ticks| - 1];
      var (b, o) := QuietPolls(budget, out, start, before, rate, slack, frame);
      AfterPoll(b, o, LastOf(start, before), ticks[|ticks| - 1], rate, slack, frame)
  }

  lemma QuietPoll(budget: real, out: nat, from: real, to: real, rate: real, slack: real, frame: nat)
    requires 0 < frame && 0.0 <= Earned(from, to, rate) && Earned(from, to, rate) + frame as real + 1.0 <= slack
    requires -slack <= budget - out as real < frame as real + 1.0
    ensures var (b, o) := AfterPoll(budget, out, from, to, rate, slack, frame);
            && b == budget + Earned(from, to, rate)
            && -slack <= b - o as real < frame as real + 1.0
            && (o == out || 0.0 <= b - o as real)
  {
  }

  lemma {:induction false} QuietGap(budget: real, out: nat, start: real, ticks: seq<real>, rate: real, slack: real, frame: nat)
    requires 0 < frame && 0.0 < rate && 0.0 <= slack
    requires -slack <= budget - out as real < frame as real + 1.0
    requires forall i :: 0 <= i < |ticks| ==>
               LastOf(start, ticks[..i]) <= ticks[i] && Earned(LastOf(start, ticks[..i]), ticks[i], rate) + frame as real + 1.0 <= slack
    ensures var (b, o) := QuietPolls(budget, out, start, ticks, rate, slack, frame);
            && b == budget + Earned(start, LastOf(start, ticks), rate)
            && -slack <= b - o as real < frame as real + 1.0
            && (o == out || o as real <= b)
    decreases |ticks|
  {
    hide AfterPoll, Earned, LastOf;
    if ticks == [] {
      NoTicks(start);
      EarnedAdds(start, start, start, rate);
    } else {
      var before, from, to := ticks[..|ticks| - 1], LastOf(start, ticks[..|ticks| - 1]), ticks[|ticks| - 1];
      forall i | 0 <= i < |before| ensures before[..i] == ticks[..i] {
      }
      QuietGap(budget, out, start, before, rate, slack, frame);
      var (b, o) := QuietPolls(budget, out, start, before, rate, slack, frame);
      EarnedNonNegative(from, to, rate);
      EarnedAdds(start, from, to, rate);
      QuietPoll(b, o, from, to, rate, slack, frame);
      LastTick(start, ticks);
    }
  }

  lemma NoTicks(start: real)
    ensures LastOf(start, []) == start
  {
  }

  lemma LastTick(start: real, ticks: seq<real>)
    requires ticks != []
    ensures LastOf(start, ticks) == ticks[|ticks| - 1]
  {
  }

  /** While polls come often enough for the slack, a quiet gap is filled at exactly realtime: the bytes
      emitted trail the budget by less than one frame and a byte, and never pass it. */
  lemma QuietGapAtRealtime(budget: real, out: nat, start: real, ticks: seq<real>, rate: real, slack: real, frame: nat)
    requires 0 < frame && 0.0 < rate && 0.0 <= slack
    requires -slack <= budget - out as real < frame as real + 1.0
    requires forall i :: 0 <= i < |ticks| ==>
               LastOf(start, ticks[..i]) <= ticks[i] && (ticks[i] - LastOf(start, ticks[..i])) * rate + frame as real + 1.0 <= slack
    ensures var (b, o) := QuietPolls(budget, out, start, ticks, rate, slack, frame);
            && b == budget + (LastOf(start, ticks) - start) * rate
            && b - frame as real - 1.0 < o as real
            && (o == out || o as real <= b)
            && -slack <= b - o as real
  {
    hide LastOf, QuietPolls;
    QuietGap(budget, out, start, ticks, rate, slack, frame);
    assert QuietPolls(budget, out, start, ticks, rate, slack, frame).0 == budget + Earned(start, LastOf(start, ticks), rate);
  }

  // ---------------------------------------------------------------- what a gap is

  predicate BeforeLook(phase: Phase)
  {
    phase == Waiting || phase.Loaded? || phase.CheckFed? || phase.CheckMount?
  }

  lemma OccupiedStep(s: State, a: Action)
    requires Tuned(s) && BeforeLook(s.phase) && (s.inputs > 0 || s.clients == 0)
    ensures BeforeLook(Step(s, a).phase) && Step(s, a).silent == s.silent
  {
    hide Clamp, Trunc;
  }

  /** No silence goes out while an input is attached or nobody listens, in any interleaving. */
  lemma {:induction false} NoSilenceUnlessIdle(s: State, acts: seq<Action>)
    requires Tuned(s) && BeforeLook(s.phase)
    requires forall k :: 0 <= k <= |acts| ==> Exec(s, acts[..k]).inputs > 0 || Exec(s, acts[..k]).clients == 0
    ensures Exec(s, acts).silent == s.silent && BeforeLook(Exec(s, acts).phase)
    decreases |acts|
  {
    hide Step, BeforeLook;
    if acts != [] {
      var before := acts[..|acts| - 1];
      forall k | 0 <= k <= |before| ensures Exec(s, before[..k]).inputs > 0 || Exec(s, before[..k]).clients == 0 {
        assert before[..k] == acts[..k];
      }
      NoSilenceUnlessIdle(s, before);
      assert acts[..|before|] == before;
      OccupiedStep(Exec(s, before), acts[|acts| - 1]);
    }
  }

  /** Fed at `fed` or later, and the gap test has not seen an earlier time. */
  predicate FedSince(s: State, fed: real)
  {
    && s.lastFed.Some? && fed <= s.lastFed.value && fed <= s.clock
    && (BeforeLook(s.phase) || s.phase.CheckClock?)
    && (s.phase.CheckMount? || s.phase.CheckClock? ==> fed <= s.phase.fed)
  }

  lemma FedSinceStep(s: State, a: Action, fed: real)
    requires Tuned(s) && FedSince(s, fed) && Step(s, a).clock - fed <= s.grace
    ensures FedSince(Step(s, a), fed) && Step(s, a).silent == s.silent
  {
    hide Clamp, Trunc;
  }

  lemma ClockStep(s: State, a: Action)
    requires Tuned(s)
    ensures s.clock <= Step(s, a).clock && Step(s, a).grace == s.grace
  {
    hide Clamp, Trunc;
  }

  lemma {:induction false} FedSinceRun(s: State, acts: seq<Action>, fed: real)
    requires Tuned(s) && FedSince(s, fed) && Exec(s, acts).clock - fed <= s.grace
    ensures FedSince(Exec(s, acts), fed) && Exec(s, acts).silent == s.silent && Exec(s, acts).grace == s.grace
    decreases |acts|
  {
    hide FedSince, Step;
    if acts != [] {
      var before, a := acts[..|acts| - 1], acts[|acts| - 1];
      ClockStep(Exec(s, before), a);
      FedSinceRun(s, before, fed);
      FedSinceStep(Exec(s, before), a, fed);
    }
  }

  lemma {:induction false} NeverFed(s: State, acts: seq<Action>)
    requires Tuned(s) && s.phase == Waiting && Exec(s, acts).lastFed == None
    ensures Exec(s, acts).silent == s.silent
    ensures Exec(s, acts).phase == Waiting || Exec(s, acts).phase.Loaded? || Exec(s, acts).phase.CheckFed?
    decreases |acts|
  {
    hide Clamp, Trunc;
    if acts != [] {
      NeverFed(s, acts[..|acts| - 1]);
    }
  }

  /** Nor before the first feed, nor until the grace after the last one has passed. */
  lemma NoSilenceWithinGrace(s: State, acts: seq<Action>)
    requires Tuned(s) && s.phase == Waiting
    requires var t := Exec(s, acts);
             || t.lastFed == None
             || (s.lastFed.Some? && s.lastFed.value <= s.clock && t.clock - s.lastFed.value <= s.grace)
    ensures Exec(s, acts).silent == s.silent
  {
    hide Exec;
    if Exec(s, acts).lastFed == None {
      NeverFed(s, acts);
    } else {
      FedSinceRun(s, acts, s.lastFed.value);
    }
  }

  predicate InGap(s: State)
  {
    s.lastFed.Some? && s.inputs == 0 && s.clients > 0 && s.clock - s.lastFed.value > s.grace
  }

  lemma {:induction false} ExecConcat(s: State, a: seq<Action>, b: seq<Action>)
    requires Tuned(s)
    ensures Exec(s, a + b) == Exec(Exec(s, a), b)
    decreases |b|
  {
    hide Step;
    if b == [] {
      assert a + b == a;
    } else {
      assert (a + b)[..|a + b| - 1] == a + b[..|b| - 1];
      ExecConcat(s, a, b[..|b| - 1]);
    }
  }

  lemma NoSteps(s: State)
    requires Tuned(s)
    ensures Exec(s, []) == s
  {
  }

  lemma ExecPush(s: State, acts: seq<Action>, a: Action)
    requires Tuned(s)
    ensures Exec(s, acts + [a]) == Step(Exec(s, acts), a)
  {
    assert (acts + [a])[..|acts|] == acts;
  }

  const GAP_TEST: seq<Action> := [LoadFed, LookAtMount, LookAtClock]

  /** In a gap the gap test passes. */
  lemma GapTestPasses(s: State)
    requires Tuned(s) && InGap(s) && s.phase.CheckFed?
    ensures Exec(s, GAP_TEST) == s.(phase := if s.phase.first then CheckFed(false) else Deciding)
  {
    hide Exec, Clamp, Trunc, Earned;
    assert GAP_TEST == [] + [LoadFed] + [LookAtMount] + [LookAtClock];
    ExecPush(s, [], LoadFed);
    ExecPush(s, [] + [LoadFed], LookAtMount);
    ExecPush(s, [] + [LoadFed] + [LookAtMount], LookAtClock);
    NoSteps(s);
  }

  /** `n` rounds of the inner loop. */
  function Rounds(n: nat): seq<Action>
  {
    if n == 0 then [] else GAP_TEST + [Decide] + [Emit] + Rounds(n - 1)
  }

  lemma RoundEmits(s: State)
    requires Tuned(s) && InGap(s) && s.phase == CheckFed(false) && s.bytesOut + s.frame <= Trunc(s.budget)
    ensures Exec(s, GAP_TEST + [Decide] + [Emit]) == s.(bytesOut := s.bytesOut + s.frame, silent := s.silent + s.frame)
  {
    hide Trunc, Exec;
    GapTestPasses(s);
    ExecPush(s, GAP_TEST, Decide);
    ExecPush(s, GAP_TEST + [Decide], Emit);
  }

  /** The inner loop takes as many rounds as frames are due. */
  lemma {:induction false} AllRounds(s: State)
    requires Tuned(s) && InGap(s) && s.phase == CheckFed(false)
    ensures var n, o := FramesDue(s.bytesOut, s.frame, Trunc(s.budget)), Filled(s.bytesOut, s.frame, Trunc(s.budget));
            Exec(s, Rounds(n)) == s.(bytesOut := o, silent := s.silent + o - s.bytesOut)
    decreases Trunc(s.budget) - s.bytesOut
  {
    hide Trunc, Exec, FramesDue, Filled;
    DueStep(s.bytesOut, s.frame, Trunc(s.budget));
    if s.bytesOut + s.frame <= Trunc(s.budget) {
      RoundEmits(s);
      var t := Exec(s, GAP_TEST + [Decide] + [Emit]);
      AllRounds(t);
      ExecConcat(s, GAP_TEST + [Decide] + [Emit], Rounds(FramesDue(t.bytesOut, t.frame, Trunc(t.budget))));
    } else {
      NoSteps(s);
    }
  }

  /** The steps of one poll in which `n` frames go out. */
  function PollSteps(at: real, n: nat): seq<Action>
  {
    [Tick(at)] + [ClampBudget] + GAP_TEST + Rounds(n) + (GAP_TEST + [Decide])
  }

  lemma PollClamps(s: State, at: real)
    requires Tuned(s) && s.phase == Waiting && s.last <= at <= s.clock
    ensures Exec(s, [Tick(at)] + [ClampBudget])
            == s.(budget := Clamp(s.budget + Earned(s.last, at, s.rate), s.bytesOut, s.slack), last := at, phase := CheckFed(true))
  {
    hide Clamp, Exec, Earned;
    assert Step(s, Tick(at)) == s.(budget := s.budget + Earned(s.last, at, s.rate), last := at, phase := Loaded(s.bytesOut));
    NoSteps(s);
    assert [] + [Tick(at)] == [Tick(at)];
    ExecPush(s, [], Tick(at));
    ExecPush(s, [Tick(at)], ClampBudget);
  }

  lemma PollBegins(s: State, at: real)
    requires Tuned(s) && InGap(s) && s.phase == Waiting && s.last <= at <= s.clock
    ensures Exec(s, [Tick(at)] + [ClampBudget] + GAP_TEST)
            == s.(budget := Clamp(s.budget + Earned(s.last, at, s.rate), s.bytesOut, s.slack), last := at, phase := CheckFed(false))
  {
    hide Clamp, Exec, Earned;
    PollClamps(s, at);
    ExecConcat(s, [Tick(at)] + [ClampBudget], GAP_TEST);
    GapTestPasses(Exec(s, [Tick(at)] + [ClampBudget]));
  }

  lemma PollEnds(s: State)
    requires Tuned(s) && InGap(s) && s.phase == CheckFed(false) && Trunc(s.budget) < s.bytesOut + s.frame
    ensures Exec(s, GAP_TEST + [Decide]) == s.(phase := Waiting)
  {
    hide Trunc, Exec;
    GapTestPasses(s);
    ExecPush(s, GAP_TEST, Decide);
  }

  lemma WholePoll(s: State, at: real)
    requires Tuned(s) && InGap(s) && s.phase == Waiting && s.last <= at <= s.clock
    ensures var b := Clamp(s.budget + Earned(s.last, at, s.rate), s.bytesOut, s.slack);
            var n, o := FramesDue(s.bytesOut, s.frame, Trunc(b)), Filled(s.bytesOut, s.frame, Trunc(b));
            Exec(s, PollSteps(at, n)) == s.(budget := b, last := at, bytesOut := o, silent := s.silent + o - s.bytesOut)
  {
    hide Trunc, Exec, FramesDue, Clamp, Filled, Rounds, Earned;
    var begun := [Tick(at)] + [ClampBudget] + GAP_TEST;
    PollBegins(s, at);
    var t := Exec(s, begun);
    var n := FramesDue(t.bytesOut, t.frame, Trunc(t.budget));
    AllRounds(t);
    ExecConcat(s, begun, Rounds(n));
    ExecConcat(s, begun + Rounds(n), GAP_TEST + [Decide]);
    PollEnds(Exec(t, Rounds(n)));
  }

  lemma AfterPollIs(budget: real, out: nat, from: real, to: real, rate: real, slack: real, frame: nat)
    requires 0 < frame && 0.0 <= slack
    ensures var b := Clamp(budget + Earned(from, to, rate), out, slack);
            AfterPoll(budget, out, from, to, rate, slack, frame) == (b, Filled(out, frame, Trunc(b)))
  {
    hide Clamp, Filled, Trunc;
  }

  /** Undisturbed in a gap, the steps of one poll do exactly what a whole poll does: the budget grows by byteRate times
      the time since the last, is clamped, and silence goes out frame by frame until the next would pass it. */
  lemma UndisturbedPoll(s: State, at: real)
    requires Tuned(s) && InGap(s) && s.phase == Waiting && s.last <= at <= s.clock
    ensures var (b, o) := AfterPoll(s.budget, s.bytesOut, s.last, at, s.rate, s.slack, s.frame);
            && s.bytesOut <= o
            && Exec(s, PollSteps(at, FramesDue(s.bytesOut, s.frame, Trunc(b))))
               == s.(budget := b, last := at, bytesOut := o, silent := s.silent + o - s.bytesOut)
  {
    hide Trunc, Exec, FramesDue, Clamp, Filled, PollSteps, InGap, AfterPoll, Earned;
    WholePoll(s, at);
    AfterPollIs(s.budget, s.bytesOut, s.last, at, s.rate, s.slack, s.frame);
  }

  // ---------------------------------------------------------------- the ticker loop

  method PollInGap(bridge: Bridge, now: real, clock: real)
    requires bridge.Valid() && bridge.mount.InGap(clock, bridge.grace)
    modifies bridge`budget, bridge`last, bridge`filling
    modifies bridge.mount`bytesOut, bridge.mount.buffer`pos, bridge.mount.buffer.data, bridge.mount.clients
    ensures bridge.Valid() && bridge.last == now
    ensures (bridge.budget, bridge.mount.bytesOut)
            == AfterPoll(old(bridge.budget), old(bridge.mount.bytesOut), old(bridge.last), now, bridge.byteRate,
                         bridge.slack, |bridge.silentFrame|)
  {
    hide Clamp, Filled, FramesDue, Trunc, Repeat;
    bridge.Poll(now, clock);
  }

  /** The ticker loop of the bridge through one undisturbed gap: polls at `ticks`, each with its clock time. */
  method PollThroughGap(bridge: Bridge, ticks: seq<real>, clocks: seq<real>)
    requires bridge.Valid() && |clocks| == |ticks| && forall i :: 0 <= i < |clocks| ==> bridge.mount.InGap(clocks[i], bridge.grace)
    modifies bridge`budget, bridge`last, bridge`filling
    modifies bridge.mount`bytesOut, bridge.mount.buffer`pos, bridge.mount.buffer.data, bridge.mount.clients
    ensures bridge.Valid() && bridge.last == LastOf(old(bridge.last), ticks)
    ensures (bridge.budget, bridge.mount.bytesOut)
            == QuietPolls(old(bridge.budget), old(bridge.mount.bytesOut), old(bridge.last), ticks,
                          bridge.byteRate, bridge.slack, |bridge.silentFrame|)
  {
    hide AfterPoll;
    ghost var start, budget, out := bridge.last, bridge.budget, bridge.mount.bytesOut;
    for i := 0 to |ticks|
      invariant bridge.Valid() && bridge.last == LastOf(start, ticks[..i])
      invariant (bridge.budget, bridge.mount.bytesOut)
                == QuietPolls(budget, out, start, ticks[..i], bridge.byteRate, bridge.slack, |bridge.silentFrame|)
    {
      assert ticks[..i + 1][..i] == ticks[..i];
      PollInGap(bridge, ticks[i], clocks[i]);
    }
    assert ticks[..|ticks|] == ticks;
  }
}
