/** The streaming loop of ServeHTTP in internal/broadcast/server.go: stall runs, drops and establishment. */
module ServeLoop {
  import opened Seqs

  /** How a write or flush came back; a timeout means the client stopped draining, not that it is gone. */
  datatype Outcome = Success | Timeout | Dead

  /** What the loop's select picked, with the result and time of the I/O it led to. */
  datatype Event =
    | Write(bytes: nat, outcome: Outcome, at: int)
    | Keepalive(deadlineSet: bool, outcome: Outcome, at: int)
    | Cancelled

  /** classifyWriteErr: `None` stands for the zero time of a healthy client. */
  function Classify(outcome: Outcome, stallStart: Option<int>, now: int, maxStall: int): (r: (bool, Option<int>))
  {
    if outcome == Success then (false, None)
    else if outcome == Dead then (true, stallStart)
    else
      var start := if stallStart == None then now else stallStart.value;
      (now - start >= maxStall, Some(start))
  }

  predicate Failed(e: Event) { !e.Cancelled? && e.outcome != Success }

  /** Index of the first failure of the unbroken run of failures that ends at `i`. */
  function RunBegin(events: seq<Event>, i: nat): (j: nat)
    requires i < |events|
    ensures j <= i
  {
    if i > 0 && Failed(events[i - 1]) then RunBegin(events, i - 1) else i
  }

  /** The run is unbroken and cannot be extended to the left. */
  lemma {:induction false} RunBeginIsMaximal(events: seq<Event>, i: nat)
    requires i < |events|
    ensures var j := RunBegin(events, i);
            && (forall k :: j <= k < i ==> Failed(events[k]))
            && (j == 0 || !Failed(events[j - 1]))
    decreases i
  {
    if i > 0 && Failed(events[i - 1]) {
      RunBeginIsMaximal(events, i - 1);
    }
  }

  /** The event ends the connection: cancelled, a dead socket, a deadline that cannot be set, or a timeout
      at least `maxStall` after the first failure of its run. */
  predicate Drops(events: seq<Event>, i: nat, maxStall: int)
    requires i < |events|
    requires forall k :: 0 <= k < i ==> !events[k].Cancelled?
  {
    var e := events[i];
    || e.Cancelled?
    || (e.Keepalive? && !e.deadlineSet)
    || e.outcome == Dead
    || (e.outcome == Timeout && e.at - events[RunBegin(events, i)].at >= maxStall)
  }

  /** Every event from `j` to `i` failed, and none right before. */
  predicate FailingSince(events: seq<Event>, j: nat, i: nat)
    requires j <= i < |events|
  {
    (forall k :: j <= k <= i ==> Failed(events[k])) && (j == 0 || !Failed(events[j - 1]))
  }

  /** A timeout is held against the first failure of its run. */
  lemma DropsIff(events: seq<Event>, i: nat, maxStall: int)
    requires i < |events| && forall k :: 0 <= k < i ==> !events[k].Cancelled?
    requires !events[i].Cancelled? && events[i].outcome == Timeout && (events[i].Keepalive? ==> events[i].deadlineSet)
    ensures Drops(events, i, maxStall)
       <==> exists j :: 0 <= j <= i && FailingSince(events, j, i) && events[i].at - events[j].at >= maxStall
    ensures !Drops(events, i, maxStall)
       <==> exists j :: 0 <= j <= i && FailingSince(events, j, i) && events[i].at - events[j].at < maxStall
  {
    hide RunBegin, FailingSince;
    RunIsFailing(events, i);
    forall j | 0 <= j <= i && FailingSince(events, j, i) ensures j == RunBegin(events, i) {
      OneRun(events, j, RunBegin(events, i), i);
    }
  }

  lemma RunIsFailing(events: seq<Event>, i: nat)
    requires i < |events| && Failed(events[i])
    ensures FailingSince(events, RunBegin(events, i), i)
  {
    RunBeginIsMaximal(events, i);
  }

  lemma OneRun(events: seq<Event>, j: nat, k: nat, i: nat)
    requires j <= i < |events| && k <= i && FailingSince(events, j, i) && FailingSince(events, k, i)
    ensures j == k
  {
    var beforeK, beforeJ := k > 0 && Failed(events[k - 1]), j > 0 && Failed(events[j - 1]);
  }

  function DeliveredBytes(events: seq<Event>, n: nat): nat
    requires n <= |events|
  {
    if n == 0 then 0
    else DeliveredBytes(events, n - 1)
         + if events[n - 1].Write? && events[n - 1].outcome == Success then events[n - 1].bytes else 0
  }

  /** Chunks lost to writes that timed out while the connection was held open. */
  function HeldTimeouts(events: seq<Event>, n: nat): nat
    requires n <= |events|
  {
    if n == 0 then 0
    else HeldTimeouts(events, n - 1) + if events[n - 1].Write? && events[n - 1].outcome == Timeout then 1 else 0
  }

  /** Bytes `0` to `bytes - 1` of the write at `i`. */
  ghost function BytesOf(i: nat, bytes: nat): (r: set<(nat, nat)>)
    ensures |r| == bytes && forall j: nat, b: nat :: (j, b) in r <==> j == i && b < bytes
  {
    if bytes == 0 then {} else BytesOf(i, bytes - 1) + {(i, bytes - 1)}
  }

  predicate Live(events: seq<Event>, i: nat)
    requires i < |events|
  {
    events[i].Write? && events[i].outcome == Success
  }

  ghost function BytesUpTo(events: seq<Event>, n: nat): (r: set<(nat, nat)>)
    requires n <= |events|
    ensures |r| == DeliveredBytes(events, n)
    ensures forall i: nat, b: nat :: (i, b) in r <==> i < n && Live(events, i) && b < events[i].bytes
  {
    if n == 0 then {}
    else if Live(events, n - 1) then
      var r, more := BytesUpTo(events, n - 1), BytesOf(n - 1, events[n - 1].bytes);
      assert r !! more by { assert forall x <- more :: x.0 == n - 1 && (x.0, x.1) !in r; }
      r + more
    else BytesUpTo(events, n - 1)
  }

  /** Delivered bytes, one by one: byte `b` of the write at `i` for every live write that succeeded. */
  lemma DeliveredExactly(events: seq<Event>, n: nat)
    requires n <= |events|
    ensures DeliveredBytes(events, n)
         == |set i: nat, b: nat | i < n && events[i].Write? && events[i].outcome == Success && b < events[i].bytes :: (i, b)|
  {
    hide DeliveredBytes, BytesUpTo;
    var now := set i: nat, b: nat | i < n && events[i].Write? && events[i].outcome == Success && b < events[i].bytes :: (i, b);
    forall x: (nat, nat) ensures x in now <==> x in BytesUpTo(events, n) {
      assert x == (x.0, x.1);
    }
    assert now == BytesUpTo(events, n);
  }

  lemma {:induction false} HeldExactly(events: seq<Event>, n: nat)
    requires n <= |events|
    ensures HeldTimeouts(events, n) == |set i | 0 <= i < n && events[i].Write? && events[i].outcome == Timeout|
    decreases n
  {
    var now := set i | 0 <= i < n && events[i].Write? && events[i].outcome == Timeout;
    if n > 0 {
      var m := n - 1;
      HeldExactly(events, m);
      var was := set i | 0 <= i < m && events[i].Write? && events[i].outcome == Timeout;
      assert now == if events[m].Write? && events[m].outcome == Timeout then was + {m} else was;
    }
  }

  /** Start of the current stall run after `n` events, by definition rather than by bookkeeping. */
  function CurrentStall(events: seq<Event>, n: nat): Option<int>
    requires n <= |events| && forall k :: 0 <= k < n ==> !events[k].Cancelled?
  {
    if n == 0 || events[n - 1].outcome == Success then None else Some(events[RunBegin(events, n - 1)].at)
  }

  predicate Survives(events: seq<Event>, n: nat, maxStall: int)
    requires n <= |events|
  {
    && (forall k :: 0 <= k < n ==> !events[k].Cancelled?)
    && (forall k :: 0 <= k < n ==> !Drops(events, k, maxStall))
  }

  lemma DroppedAt(events: seq<Event>, i: nat, maxStall: int)
    requires i < |events| && (forall k :: 0 <= k < i ==> !events[k].Cancelled?) && Drops(events, i, maxStall)
    ensures var e := events[i];
            || e.Cancelled?
            || (e.Keepalive? && !e.deadlineSet)
            || e.outcome == Dead
            || (&& e.outcome == Timeout
                && exists j :: 0 <= j <= i && FailingSince(events, j, i) && e.at - events[j].at >= maxStall)
  {
    var e := events[i];
    if !e.Cancelled? && e.outcome == Timeout && (e.Keepalive? ==> e.deadlineSet) {
      DropsIff(events, i, maxStall);
    }
  }

  lemma HeldAt(events: seq<Event>, i: nat, maxStall: int)
    requires i < |events| && (forall k :: 0 <= k <= i ==> !events[k].Cancelled?) && !Drops(events, i, maxStall)
    ensures var e := events[i];
            && !(e.Keepalive? && !e.deadlineSet)
            && e.outcome != Dead
            && (e.outcome == Timeout ==>
                  exists j :: 0 <= j <= i && FailingSince(events, j, i) && e.at - events[j].at < maxStall)
  {
    if events[i].outcome == Timeout {
      DropsIff(events, i, maxStall);
    }
  }

  lemma HeldOn(events: seq<Event>, n: nat, maxStall: int)
    requires n <= |events| && Survives(events, n, maxStall)
    ensures forall i :: 0 <= i < n ==>
              var e := events[i];
              && !e.Cancelled?
              && !(e.Keepalive? && !e.deadlineSet)
              && e.outcome != Dead
              && (e.outcome == Timeout ==>
                    exists j :: 0 <= j <= i && FailingSince(events, j, i) && e.at - events[j].at < maxStall)
    ensures var stall := CurrentStall(events, n);
            && (stall.Some? ==> exists j :: 0 <= j < n && FailingSince(events, j, n - 1) && stall.value == events[j].at)
            && (stall == None ==> n == 0 || events[n - 1].outcome == Success)
  {
    hide RunBegin, FailingSince, Drops;
    forall i | 0 <= i < n
      ensures var e := events[i];
              && !(e.Keepalive? && !e.deadlineSet)
              && e.outcome != Dead
              && (e.outcome == Timeout ==>
                    exists j :: 0 <= j <= i && FailingSince(events, j, i) && e.at - events[j].at < maxStall)
    {
      HeldAt(events, i, maxStall);
    }
    if CurrentStall(events, n).Some? {
      RunIsFailing(events, n - 1);
    }
  }

  /** The loop handles events until the first one that drops the client. Meanwhile stallStart is the time of
      the first failure of the current run and nothing after a success, and the client is established
      exactly when its delivered live bytes reach the threshold. */
  method Serve(events: seq<Event>, threshold: nat, writeTimeout: int)
    returns (handled: nat, stallStart: Option<int>, bytesOut: nat, established: bool, skipped: nat)
    requires 0 < threshold
    ensures handled <= |events| && Survives(events, handled, 3 * writeTimeout)
    ensures handled < |events| ==> Drops(events, handled, 3 * writeTimeout)
    ensures handled == |events| ==> stallStart == CurrentStall(events, handled)
    ensures bytesOut == DeliveredBytes(events, handled)
    ensures established <==> bytesOut >= threshold
    ensures skipped == HeldTimeouts(events, handled)
    ensures handled < |events| ==>
              var e := events[handled];
              || e.Cancelled?
              || (e.Keepalive? && !e.deadlineSet)
              || e.outcome == Dead
              || (&& e.outcome == Timeout
                  && exists j :: 0 <= j <= handled && FailingSince(events, j, handled) && e.at - events[j].at >= 3 * writeTimeout)
    ensures forall i :: 0 <= i < handled ==>
              var e := events[i];
              && !e.Cancelled?
              && !(e.Keepalive? && !e.deadlineSet)
              && e.outcome != Dead
              && (e.outcome == Timeout ==>
                    exists j :: 0 <= j <= i && FailingSince(events, j, i) && e.at - events[j].at < 3 * writeTimeout)
    ensures handled == |events| && stallStart.Some? ==>
              exists j :: 0 <= j < |events| && FailingSince(events, j, |events| - 1) && stallStart.value == events[j].at
    ensures handled == |events| && stallStart == None ==> events == [] || events[|events| - 1].outcome == Success
    ensures bytesOut
         == |set i: nat, b: nat | i < handled && events[i].Write? && events[i].outcome == Success && b < events[i].bytes :: (i, b)|
    ensures skipped == |set i | 0 <= i < handled && events[i].Write? && events[i].outcome == Timeout|
  {
    handled, stallStart, bytesOut, established, skipped := 0, None, 0, false, 0;
    while handled < |events|
      invariant handled <= |events| && Survives(events, handled, 3 * writeTimeout)
      invariant stallStart == CurrentStall(events, handled)
      invariant bytesOut == DeliveredBytes(events, handled)
      invariant established <==> bytesOut >= threshold
      invariant skipped == HeldTimeouts(events, handled)
    {
      var e := events[handled];
      match e {
        case Cancelled =>
          break;
        case Write(bytes, outcome, at) =>
          if outcome != Success {
            var (drop, start) := Classify(outcome, stallStart, at, 3 * writeTimeout);
            stallStart := start;
            if drop {
              break;
            }
            skipped := skipped + 1;
          } else {
            stallStart := None;
            bytesOut := bytesOut + bytes;
            if !established && bytesOut >= threshold {
              established := true;
            }
          }
        case Keepalive(deadlineSet, outcome, at) =>
          if !deadlineSet {
            break;
          }
          if outcome != Success {
            var (drop, start) := Classify(outcome, stallStart, at, 3 * writeTimeout);
            stallStart := start;
            if drop {
              break;
            }
          } else {
            stallStart := None;
          }
      }
      handled := handled + 1;
    }
    DeliveredExactly(events, handled);
    HeldExactly(events, handled);
    HeldOn(events, handled, 3 * writeTimeout);
    if handled < |events| {
      DroppedAt(events, handled, 3 * writeTimeout);
    }
  }
}
