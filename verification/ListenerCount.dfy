/** The established-listener counter of a mount, over every schedule of MountProtocol, Close included. */
module ListenerCount {
  import opened Seqs
  import opened Mounts
  import opened MountProtocol

  /** Clients the counter is meant to count. */
  function Listeners(s: State): set<ClientId>
  {
    set c | c in s.registered && c in s.conns && s.conns[c].established
  }

  function Where(s: State, p: Serve): set<ClientId>
  {
    set c | c in s.conns && s.conns[c].serve == p
  }

  /** Announcements made or due on either side, with what Close wiped silently. */
  predicate CountOk(s: State)
  {
    && s.count == |Listeners(s)| + s.late
    && s.connects + |Where(s, Announcing)| == s.disconnects + |Where(s, Farewell)| + s.count + s.wiped
  }

  /** One client's relation to the registry; `quiet` means Close has not been called. */
  predicate CalmConn(quiet: bool, listed: bool, conn: Conn)
  {
    && (quiet ==> !conn.cut && (listed <==> Serving(conn.serve) || conn.serve.Leaving? || conn.serve.Closed?))
    && (listed ==> !conn.cut && !Unattached(conn.serve) && !conn.serve.Gone? && !conn.serve.Farewell?)
    && (conn.serve.Panicked? ==> conn.cut)
  }

  predicate CalmOk(s: State)
  {
    && (s.closes == 0 ==> s.late == 0 && s.wiped == 0 && !s.crashed)
    && (forall c <- s.conns :: CalmConn(s.closes == 0, c in s.registered, s.conns[c]))
  }

  lemma SameListeners(s: State, s': State)
    requires s'.registered == s.registered
    requires forall c <- s.registered :: (c in s.conns <==> c in s'.conns)
    requires forall c <- s.registered :: c in s.conns ==> s'.conns[c].established == s.conns[c].established
    ensures Listeners(s') == Listeners(s)
  {
  }

  lemma Patched(a: set<ClientId>, b: set<ClientId>, c: ClientId)
    requires a - {c} == b - {c}
    ensures |b| == |a| + (if c in b then 1 else 0) - (if c in a then 1 else 0)
  {
    assert a == (a - {c}) + if c in a then {c} else {};
    assert b == (b - {c}) + if c in b then {c} else {};
  }

  /** Moving one client between phases moves it between the sets that count phases. */
  lemma MovesOne(s: State, s': State, c: ClientId, p: Serve)
    requires c in s.conns && s'.conns.Keys == s.conns.Keys
    requires forall d <- s.conns :: d != c ==> s'.conns[d] == s.conns[d]
    ensures |Where(s', p)| == |Where(s, p)|
                              + (if s'.conns[c].serve == p then 1 else 0) - (if s.conns[c].serve == p then 1 else 0)
  {
    assert Where(s, p) - {c} == Where(s', p) - {c};
    Patched(Where(s, p), Where(s', p), c);
  }

  lemma CountFeed(s: State, t: Feeder, f: FeedAction)
    requires CountOk(s) && FeedEnabled(s, t, f)
    ensures CountOk(FeedNext(s, t, f))
  {
    hide LastN;
    hide Offer;
    var s' := FeedNext(s, t, f);
    SameListeners(s, s');
    assert Where(s', Announcing) == Where(s, Announcing);
    assert Where(s', Farewell) == Where(s, Farewell);
  }

  /** How a serve step changes membership of the acting client among the listeners. */
  lemma FlagStep(s: State, present: bool, conn: Conn, a: ConnAction)
    requires ConnReady(s.hist, conn, a) && LocalOk(s.hist, s.threshold, conn)
    requires 0 < s.threshold && (present ==> !Unattached(conn.serve))
    ensures ConnAfter(s, present, conn, a).established <==> conn.established || a.Establish?
    ensures a.Establish? ==> !conn.established
    ensures a.Register? ==> !conn.established && !present
  {
    hide LastN;
    hide Conserved;
    assert Unattached(conn.serve) ==> conn.bytes == 0;
  }

  /** How a serve step changes the number of listeners. */
  lemma ClientListeners(s: State, c: ClientId, a: ConnAction)
    requires ClientEnabled(s, c, a) && RegistryOk(s) && LocalsOk(s)
    ensures var s' := ClientNext(s, c, a);
            var gains, loses := a.Establish? && c in s.registered, a.CleanupForget? && c in s.registered && s.conns[c].established;
            |Listeners(s')| == |Listeners(s)| + (if gains then 1 else 0) - (if loses then 1 else 0)
  {
    hide LocalOk;
    assert LocalOk(s.hist, s.threshold, s.conns[c]);
    FlagStep(s, c in s.registered, s.conns[c], a);
    hide ConnAfter;
    var s' := ClientNext(s, c, a);
    assert Listeners(s) - {c} == Listeners(s') - {c};
    Patched(Listeners(s), Listeners(s'), c);
  }

  /** Which serve steps enter and leave the two announcing phases. */
  lemma AnnouncingPhases(s: State, present: bool, conn: Conn, a: ConnAction)
    requires ConnReady(s.hist, conn, a)
    ensures var conn' := ConnAfter(s, present, conn, a);
            && (conn.serve == Announcing <==> a.PublishConnect?) && (conn'.serve == Announcing <==> a.Establish?)
            && (conn.serve == Farewell <==> a.PublishDisconnect?)
            && (conn'.serve == Farewell <==> a.CleanupForget? && present && conn.established)
  {
    hide LastN;
  }

  /** What a serve step does to the shared counters, phase by phase. */
  lemma CountersAfter(s: State, c: ClientId, a: ConnAction)
    requires ClientEnabled(s, c, a)
    ensures var s', conn := ClientNext(s, c, a), s.conns[c];
            var leaves := a.CleanupForget? && c in s.registered && conn.established;
            && s'.conns.Keys == s.conns.Keys && (forall d <- s.conns :: d != c ==> s'.conns[d] == s.conns[d])
            && s'.count == s.count + (if a.Establish? then 1 else 0) - (if leaves then 1 else 0)
            && s'.late == s.late + (if a.Establish? && c !in s.registered then 1 else 0) && s'.wiped == s.wiped
            && s'.connects == s.connects + (if a.PublishConnect? then 1 else 0)
            && s'.disconnects == s.disconnects + (if a.PublishDisconnect? then 1 else 0)
            && (conn.serve == Announcing <==> a.PublishConnect?) && (s'.conns[c].serve == Announcing <==> a.Establish?)
            && (conn.serve == Farewell <==> a.PublishDisconnect?) && (s'.conns[c].serve == Farewell <==> leaves)
  {
    hide ConnAfter;
    AnnouncingPhases(s, c in s.registered, s.conns[c], a);
  }

  lemma CountClient(s: State, c: ClientId, a: ConnAction)
    requires CountOk(s) && RegistryOk(s) && LocalsOk(s) && ClientEnabled(s, c, a)
    ensures CountOk(ClientNext(s, c, a))
  {
    hide LocalsOk;
    hide Listeners;
    hide Where;
    hide ClientNext;
    CountersAfter(s, c, a);
    ClientListeners(s, c, a);
    MovesOne(s, ClientNext(s, c, a), c, Announcing);
    MovesOne(s, ClientNext(s, c, a), c, Farewell);
  }

  lemma CountClose(s: State)
    requires CountOk(s) && RegistryOk(s)
    ensures CountOk(CloseNext(s))
  {
    var s' := CloseNext(s);
    assert Listeners(s') == if s'.conns == s.conns && s'.registered == s.registered then Listeners(s) else {};
    assert Where(s', Announcing) == Where(s, Announcing);
    assert Where(s', Farewell) == Where(s, Farewell);
  }

  // ---------------------------------------------------------------- Close, late flags and panics

  lemma CalmConnStep(s: State, quiet: bool, listed: bool, conn: Conn, a: ConnAction)
    requires CalmConn(quiet, listed, conn) && ClosedBy(conn) && FreshUntilAttached(conn) && ConnReady(s.hist, conn, a)
    ensures CalmConn(quiet, if a.Register? then true else if a.CleanupForget? then false else listed, ConnAfter(s, listed, conn, a))
  {
    hide LastN;
  }

  /** Close is counted, and only a flag set after Close makes a listener late. */
  lemma CloseShape(s: State, a: Action)
    ensures var s' := Step(s, a);
            && s'.closes == s.closes + (if Enabled(s, a) && a == CloseMount then 1 else 0)
            && (!(Enabled(s, a) && a == CloseMount) ==>
                  && s'.wiped == s.wiped && s'.crashed == s.crashed
                  && s'.late == s.late + if Does(s, a, Establish) && a.c !in s.registered then 1 else 0)
  {
    hide ConnAfter;
    hide Offer;
    hide LastN;
  }

  lemma CalmStep(s: State, a: Action)
    requires CalmOk(s) && RegistryOk(s) && LocalsOk(s)
    ensures CalmOk(Step(s, a))
  {
    hide Step;
    hide CalmConn;
    hide ConnReady;
    hide FeedEnabled;
    hide FeedNext;
    StepShape(s, a);
    CloseShape(s, a);
    var s' := Step(s, a);
    if Does(s, a, Establish) {
      EstablishInTime(s, a.c);
    }
    forall c <- s'.conns ensures CalmConn(s'.closes == 0, c in s'.registered, s'.conns[c]) {
      hide LocalOk;
      assert Evolves(s, a, c, s'.conns[c]);
      CalmConnOf(s, a, c);
    }
  }

  lemma EstablishInTime(s: State, c: ClientId)
    requires CalmOk(s) && ClientEnabled(s, c, Establish)
    ensures s.closes == 0 ==> c in s.registered
  {
    assert CalmConn(s.closes == 0, c in s.registered, s.conns[c]);
  }

  lemma CalmConnClosed(s: State, c: ClientId)
    requires CalmOk(s) && RegistryOk(s) && c in CloseNext(s).conns
    ensures var s' := CloseNext(s); CalmConn(s'.closes == 0, c in s'.registered, s'.conns[c])
  {
    assert CalmConn(s.closes == 0, c in s.registered, s.conns[c]);
  }

  lemma CloseIsCloseNext(s: State)
    requires Enabled(s, CloseMount)
    ensures Step(s, CloseMount) == CloseNext(s)
  {
  }

  lemma CalmConnOf(s: State, a: Action, c: ClientId)
    requires CalmOk(s) && RegistryOk(s) && LocalsOk(s)
    requires c in Step(s, a).conns && Evolves(s, a, c, Step(s, a).conns[c])
    ensures var s' := Step(s, a); CalmConn(s'.closes == 0, c in s'.registered, s'.conns[c])
  {
    hide Step;
    hide ConnAfter;
    hide Conserved;
    hide FlagsFollowBytes;
    hide FeedNext;
    hide FeedEnabled;
    hide CloseNext;
    SharedShape(s, a);
    CloseShape(s, a);
    if Enabled(s, a) && a == CloseMount {
      CloseIsCloseNext(s);
      CalmConnClosed(s, c);
    } else if c in s.conns {
      assert CalmConn(s.closes == 0, c in s.registered, s.conns[c]) && LocalOk(s.hist, s.threshold, s.conns[c]);
      if Enabled(s, a) && a.ByClient? && a.c == c {
        CalmConnStep(s, s.closes == 0, c in s.registered, s.conns[c], a.a);
      }
    }
  }

  lemma CountStep(s: State, a: Action)
    requires CountOk(s) && RegistryOk(s) && LocalsOk(s)
    ensures CountOk(Step(s, a))
  {
    hide ConnAfter;
    hide LocalsOk;
    if Enabled(s, a) {
      match a
      case ByFeeder(t, f) => CountFeed(s, t, f);
      case ByClient(c, ca) => CountClient(s, c, ca);
      case CloseMount => CountClose(s);
      case ClearRing =>
        assert Listeners(Step(s, a)) == Listeners(s);
        assert Where(Step(s, a), Announcing) == Where(s, Announcing);
        assert Where(Step(s, a), Farewell) == Where(s, Farewell);
      case Connect(c) =>
        assert Listeners(Step(s, a)) == Listeners(s);
        assert Where(Step(s, a), Announcing) == Where(s, Announcing);
        assert Where(Step(s, a), Farewell) == Where(s, Farewell);
    }
  }

  lemma {:induction false} CountSafety(size: nat, threshold: nat, acts: seq<Action>)
    requires 0 < threshold
    ensures var s := Exec(Init(size, threshold), acts); Inv(s) && CountOk(s) && CalmOk(s)
    decreases |acts|
  {
    Safety(size, threshold, acts);
    if acts != [] {
      hide Step;
      hide CountOk;
      hide CalmOk;
      hide Inv;
      var before := acts[..|acts| - 1];
      CountSafety(size, threshold, before);
      InvParts(Exec(Init(size, threshold), before));
      CountStep(Exec(Init(size, threshold), before), acts[|acts| - 1]);
      CalmStep(Exec(Init(size, threshold), before), acts[|acts| - 1]);
    }
  }

  lemma InvParts(s: State)
    requires Inv(s)
    ensures RegistryOk(s) && LocalsOk(s)
  {
    hide LocalsOk;
  }

  /** The counter is the number of registered established clients, plus the goroutines that crossed
      the threshold after Close had dropped them; so it is right exactly when there were none. */
  lemma CounterMeaning(size: nat, threshold: nat, acts: seq<Action>)
    requires 0 < threshold
    ensures var s := Exec(Init(size, threshold), acts);
            && s.count == |Listeners(s)| + s.late
            && (s.count == |Listeners(s)| <==> s.late == 0)
            && (s.closes == 0 ==> s.late == 0)
  {
    CountSafety(size, threshold, acts);
  }

  /** Before any Close, published connects minus published disconnects is the counter, up to the
      announcements that goroutines still have to make. */
  lemma PublishedBalance(size: nat, threshold: nat, acts: seq<Action>)
    requires 0 < threshold && Exec(Init(size, threshold), acts).closes == 0
    ensures var s := Exec(Init(size, threshold), acts);
            && s.connects + |Where(s, Announcing)| == s.disconnects + |Where(s, Farewell)| + s.count
            && s.count == |Listeners(s)|
  {
    CountSafety(size, threshold, acts);
  }

  /** Outside the crossing itself, a client carries the listener flag exactly when the live chunks
      written to it reach the threshold; the preroll never counts. */
  lemma FlagMeaning(size: nat, threshold: nat, acts: seq<Action>, c: ClientId)
    requires 0 < threshold
    requires var s := Exec(Init(size, threshold), acts); c in s.conns && !s.conns[c].serve.Crossing?
    ensures var s := Exec(Init(size, threshold), acts);
            s.conns[c].established <==> ByteCount(s.hist, s.conns[c].written) >= threshold
  {
    Safety(size, threshold, acts);
    var s := Exec(Init(size, threshold), acts);
    assert LocalOk(s.hist, s.threshold, s.conns[c]);
    ExecConstants(Init(size, threshold), acts);
  }

  /** A serve goroutine's deferred cleanup closes a closed channel, and so panics, exactly when
      Mount.Close dropped that client first; without Close no cleanup ever panics. */
  lemma CleanupPanicsIff(size: nat, threshold: nat, acts: seq<Action>, c: ClientId)
    requires 0 < threshold
    requires var s := Exec(Init(size, threshold), acts); Enabled(s, ByClient(c, CleanupClose))
    ensures var s := Exec(Init(size, threshold), acts);
            && (Step(s, ByClient(c, CleanupClose)).conns[c].serve.Panicked? <==> s.conns[c].cut)
            && (s.conns[c].cut ==> s.closes > 0)
  {
    hide CountOk;
    hide CalmOk;
    hide LocalsOk;
    CountSafety(size, threshold, acts);
    InvParts(Exec(Init(size, threshold), acts));
    hide Inv;
    CleanupOutcome(Exec(Init(size, threshold), acts), c);
  }

  lemma CleanupOutcome(s: State, c: ClientId)
    requires LocalsOk(s) && CalmOk(s) && Enabled(s, ByClient(c, CleanupClose))
    ensures Step(s, ByClient(c, CleanupClose)).conns[c].serve.Panicked? <==> s.conns[c].cut
    ensures s.conns[c].cut ==> s.closes > 0
  {
    hide LastN;
    hide Conserved;
    hide FlagsFollowBytes;
    assert LocalOk(s.hist, s.threshold, s.conns[c]) && CalmConn(s.closes == 0, c in s.registered, s.conns[c]);
  }

  lemma ListedAndClosed(s: State, c: ClientId)
    requires LocalsOk(s) && CalmOk(s) && c in s.registered && c in s.conns
    ensures s.conns[c].chan.closed <==> At(s, c, Closed)
  {
    hide Conserved;
    hide FlagsFollowBytes;
    assert LocalOk(s.hist, s.threshold, s.conns[c]) && CalmConn(s.closes == 0, c in s.registered, s.conns[c]);
  }

  /** Close itself panics exactly when it catches a client between its own two cleanup sections. */
  lemma ClosePanicsIff(size: nat, threshold: nat, acts: seq<Action>)
    requires 0 < threshold
    requires var s := Exec(Init(size, threshold), acts); Enabled(s, CloseMount)
    ensures var s := Exec(Init(size, threshold), acts);
            Step(s, CloseMount).crashed <==> exists c :: c in s.registered && At(s, c, Closed)
  {
    hide LocalsOk;
    hide CalmOk;
    hide CountOk;
    CountSafety(size, threshold, acts);
    var s := Exec(Init(size, threshold), acts);
    InvParts(s);
    forall c | c in s.registered ensures s.conns[c].chan.closed <==> At(s, c, Closed) {
      ListedAndClosed(s, c);
    }
    hide Inv;
    hide Exec;
    CloseCrashes(s);
  }

  lemma CloseCrashes(s: State)
    requires Enabled(s, CloseMount)
    ensures Step(s, CloseMount).crashed <==> exists c :: c in s.registered && c in s.conns && s.conns[c].chan.closed
  {
  }
}
