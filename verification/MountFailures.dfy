/** Runs of one mount that end in the failures its exact conditions speak of: a cleanup that panics, a Close that
    panics, and a counter left too high. */
module MountFailures {
  import opened Seqs
  import opened Rings
  import opened Mounts
  import opened MountProtocol
  import opened ConnectSeam
  import opened ListenerCount

  /** A schedule extended by one action. */
  lemma Then(s: State, acts: seq<Action>, t: State, a: Action) returns (more: seq<Action>)
    requires Exec(s, acts) == t
    ensures more == acts + [a] && Exec(s, more) == Step(t, a)
  {
    hide Step;
    more := acts + [a];
    assert more[..|acts|] == acts;
  }

  /** Client 7 alone on a fresh mount, in one phase of its serve loop. */
  function Alone(size: nat, threshold: nat, serve: Serve): State
  {
    Init(size, threshold).(conns := map[7 := NEWCOMER.(serve := serve)], registered := {7})
  }

  /** A client connects, its preroll write fails, and it starts to clean up. */
  lemma LeavesAtOnce(size: nat, threshold: nat) returns (acts: seq<Action>)
    ensures Exec(Init(size, threshold), acts) == Alone(size, threshold, Leaving)
  {
    hide Step, Exec;
    var s := Init(size, threshold);
    AttachRun(s);
    var attached := Alone(size, threshold, SendingPreroll);
    acts := Then(s, ATTACH, attached, ByClient(7, PrerollSent(false)));
    ClientDoes(attached, 7, PrerollSent(false));
    assert ClientNext(attached, 7, PrerollSent(false)).conns == Alone(size, threshold, Leaving).conns;
  }

  /** Close arrives before the cleanup: the cleanup closes the channel a second time. */
  lemma CleanupCanPanic(size: nat, threshold: nat)
    ensures exists acts :: At(Exec(Init(size, threshold), acts), 7, Panicked)
  {
    hide Step, Exec;
    var s := Init(size, threshold);
    var acts := LeavesAtOnce(size, threshold);
    var leaving := Alone(size, threshold, Leaving);
    acts := Then(s, acts, leaving, CloseMount);
    CloseIsCloseNext(leaving);
    var closed := CloseNext(leaving);
    acts := Then(s, acts, closed, ByClient(7, CleanupClose));
    ClientDoes(closed, 7, CleanupClose);
  }

  /** Close arrives between the two halves of the cleanup: now Close closes the channel a second time. */
  lemma CloseCanPanic(size: nat, threshold: nat)
    ensures exists acts :: Exec(Init(size, threshold), acts).crashed
  {
    hide Step, Exec;
    var s := Init(size, threshold);
    var acts := LeavesAtOnce(size, threshold);
    var leaving := Alone(size, threshold, Leaving);
    acts := Then(s, acts, leaving, ByClient(7, CleanupClose));
    ClientDoes(leaving, 7, CleanupClose);
    var halfway := ClientNext(leaving, 7, CleanupClose);
    acts := Then(s, acts, halfway, CloseMount);
    CloseIsCloseNext(halfway);
    assert 7 in halfway.registered && halfway.conns[7].chan.closed;
  }

  /** A chunk as long as the threshold goes through the ring into the channel of the one client. */
  lemma OneChunk(s: State, data: Chunk) returns (acts: seq<Action>, r: State)
    requires s == Alone(s.size, s.threshold, Looping) && data != []
    ensures Exec(s, acts) == r
    ensures r == s.(ring := r.ring, hist := [data], conns := map[7 := s.conns[7].(chan := Channel([0], false, 0), offered := [0])])
  {
    hide Step, Exec, LastN;
    acts := [ByFeeder(0, Lock(data)), ByFeeder(0, WriteRing), ByFeeder(0, OfferTo(7)), ByFeeder(0, Unlock)];
    ExecFour(s, acts);
    FeederDoes(s, 0, Lock(data));
    var s1 := FeedNext(s, 0, Lock(data));
    FeederDoes(s1, 0, WriteRing);
    var s2 := FeedNext(s1, 0, WriteRing);
    FeederDoes(s2, 0, OfferTo(7));
    var s3 := FeedNext(s2, 0, OfferTo(7));
    assert {7} - {7} == {};
    assert [] + [0] == [0];
    assert s3.conns == map[7 := s.conns[7].(chan := Channel([0], false, 0), offered := [0])];
    FeederDoes(s3, 0, Unlock);
    r := FeedNext(s3, 0, Unlock);
    assert r.feeds == map[];
  }

  /** A client crosses the threshold, Close drops it, and only then it counts itself: one listener on an empty mount. */
  lemma CounterCanStayHigh(size: nat, threshold: nat)
    requires 0 < threshold
    ensures exists acts :: var s := Exec(Init(size, threshold), acts); s.late > 0 && s.count > |Listeners(s)|
  {
    hide Step, Exec, LastN;
    var s := Init(size, threshold);
    AttachRun(s);
    var attached, looping := Alone(size, threshold, SendingPreroll), Alone(size, threshold, Looping);
    var acts := Then(s, ATTACH, attached, ByClient(7, PrerollSent(true)));
    ClientDoes(attached, 7, PrerollSent(true));
    assert ClientNext(attached, 7, PrerollSent(true)).conns == looping.conns;
    var data := Repeat(0 as byte, threshold);
    var fed, loaded := OneChunk(looping, data);
    ExecSplit(s, acts, fed);
    var crossing := Crosses(loaded, data);
    acts := Then(s, acts + fed, loaded, ByClient(7, Take));
    acts := Then(s, acts, Step(loaded, ByClient(7, Take)), ByClient(7, WriteOk));
    acts := Then(s, acts, crossing, CloseMount);
    CloseIsCloseNext(crossing);
    var closed := CloseNext(crossing);
    acts := Then(s, acts, closed, ByClient(7, Establish));
    ClientDoes(closed, 7, Establish);
    var end := ClientNext(closed, 7, Establish);
    assert Listeners(end) == {};
  }

  lemma Crosses(s: State, data: Chunk) returns (r: State)
    requires At(s, 7, Looping) && !s.crashed && LockFree(s) && s.conns[7].chan == Channel([0], false, 0) && s.registered == {7}
    requires 0 < s.threshold && s.hist == [data] && |data| == s.threshold && !s.conns[7].crossed && s.conns[7].bytes == 0
    ensures r == Step(Step(s, ByClient(7, Take)), ByClient(7, WriteOk))
    ensures r == s.(conns := r.conns) && At(r, 7, Crossing) && !r.conns[7].chan.closed
  {
    hide Step;
    ClientDoes(s, 7, Take);
    var taken := ClientNext(s, 7, Take);
    ClientDoes(taken, 7, WriteOk);
    r := ClientNext(taken, 7, WriteOk);
  }
}
