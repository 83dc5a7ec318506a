/** What a listener connecting to a running mount receives, over every schedule of MountProtocol. */
module ConnectSeam {
  import opened Seqs
  import opened Rings
  import opened Mounts
  import opened MountProtocol

  // ---------------------------------------------------------------- any number of feeders

  /** A registered, open client: each chunk is in the snapshot's past, or was offered once, or is about to be. */
  lemma EveryChunkOnOneSide(size: nat, threshold: nat, acts: seq<Action>, c: ClientId, k: nat)
    requires 0 < threshold
    requires var s := Exec(Init(size, threshold), acts);
             c in s.registered && c in s.conns && !s.conns[c].chan.closed && k < |s.hist|
    ensures var s := Exec(Init(size, threshold), acts);
            var conn := s.conns[c];
            && (k < conn.from <==> k !in conn.offered && !Pending(s, c, k))
            && !(k in conn.offered && Pending(s, c, k))
            && Distinct(conn.offered)
            && conn.base <= conn.from <= |s.hist|
            && conn.preroll == LastN(Repeat(0, size) + Flatten(s.hist[conn.base..conn.from]), |conn.preroll|)
  {
    var s := Exec(Init(size, threshold), acts);
    Safety(size, threshold, acts);
    ExecConstants(Init(size, threshold), acts);
    assert SnapshotOk(s, s.conns[c]) && OffersSound(s, c) && OffersComplete(s, c);
    PrerollIsWindow(s, s.conns[c]);
  }

  lemma PrerollIsWindow(s: State, conn: Conn)
    requires SnapshotOk(s, conn) && !Unsnapped(conn.serve)
    ensures |conn.preroll| <= s.size
    ensures conn.preroll == LastN(Repeat(0, s.size) + Flatten(s.hist[conn.base..conn.from]), |conn.preroll|)
  {
    RingIsHistoryWindow(s.size, s.hist[conn.base..conn.from]);
    WindowOfWindow(Repeat(0, s.size) + Flatten(s.hist[conn.base..conn.from]), s.size, |conn.preroll|);
  }

  lemma WindowOfWindow<T>(x: seq<T>, size: nat, n: nat)
    requires n <= |LastN(x, size)|
    ensures LastN(LastN(x, size), n) == LastN(x, n)
  {
  }

  /** Fan-outs that still owe `c` a chunk. */
  function Owing(s: State, c: ClientId): set<Feeder>
  {
    set t | t in s.feeds && s.feeds[t].Fanning? && c in s.feeds[t].remaining
  }

  function OwedIds(s: State, c: ClientId, ts: set<Feeder>): set<nat>
    requires ts <= Owing(s, c)
  {
    set t | t in ts :: s.feeds[t].id
  }

  lemma {:induction false} OwedOnce(s: State, c: ClientId, ts: set<Feeder>)
    requires RegistryOk(s) && ts <= Owing(s, c)
    ensures |OwedIds(s, c, ts)| == |ts|
    decreases ts
  {
    if ts != {} {
      var t :| t in ts;
      OwedOnce(s, c, ts - {t});
      assert OwedIds(s, c, ts) == OwedIds(s, c, ts - {t}) + {s.feeds[t].id};
    }
  }

  function Range(a: nat, b: nat): (r: seq<nat>)
    requires a <= b
    ensures |r| == b - a && forall i :: 0 <= i < |r| ==> r[i] == a + i
  {
    seq(b - a, i requires 0 <= i => a + i)
  }

  /** Every chunk broadcast since the cut is written, in flight, queued, skipped, or owed by a fan-out
      in progress; what was kept is in offer order; the channel never exceeds its capacity. */
  lemma ChunkConservation(size: nat, threshold: nat, acts: seq<Action>, c: ClientId)
    requires 0 < threshold
    requires var s := Exec(Init(size, threshold), acts);
             c in s.registered && c in s.conns && !s.conns[c].chan.closed && Serving(s.conns[c].serve)
    ensures var s := Exec(Init(size, threshold), acts);
            var conn := s.conns[c];
            && |s.hist| - conn.from
               == |conn.written| + |InFlight(conn.serve)| + |conn.chan.queue| + conn.chan.skipped + |Owing(s, c)|
            && IsSubseq(conn.written + InFlight(conn.serve) + conn.chan.queue, conn.offered)
            && |conn.chan.queue| <= CHANNEL_CAPACITY
  {
    var s := Exec(Init(size, threshold), acts);
    Safety(size, threshold, acts);
    var conn := s.conns[c];
    assert SnapshotOk(s, conn) && LocalOk(s.hist, s.threshold, conn);
    AllAccounted(s, c);
  }

  lemma AllAccounted(s: State, c: ClientId)
    requires RegistryOk(s) && c in s.conns && s.conns[c].from <= |s.hist|
    requires OffersSound(s, c) && OffersComplete(s, c)
    ensures |s.conns[c].offered| + |Owing(s, c)| == |s.hist| - s.conns[c].from
  {
    var conn := s.conns[c];
    var range := Range(conn.from, |s.hist|);
    OfferedOrOwed(s, c);
    OwedOnce(s, c, Owing(s, c));
    DistinctCard(conn.offered);
    DistinctCard(range);
    hide Elements, OwedIds, Owing, OffersComplete, OffersSound, RegistryOk;
    assert |Elements(range)| == |Elements(conn.offered)| + |OwedIds(s, c, Owing(s, c))|;
  }

  lemma OfferedOrOwed(s: State, c: ClientId)
    requires RegistryOk(s) && c in s.conns && s.conns[c].from <= |s.hist|
    requires OffersSound(s, c) && OffersComplete(s, c)
    ensures var offered, owed := Elements(s.conns[c].offered), OwedIds(s, c, Owing(s, c));
            offered !! owed && offered + owed == Elements(Range(s.conns[c].from, |s.hist|))
  {
    var conn := s.conns[c];
    var offered := Elements(conn.offered);
    var owed := OwedIds(s, c, Owing(s, c));
    var range := Range(conn.from, |s.hist|);
    var all := Elements(range);
    forall k | k in all ensures k in offered + owed {
      if k !in conn.offered {
        assert Pending(s, c, k);
        var t :| t in s.feeds && s.feeds[t].Fanning? && s.feeds[t].id == k && c in s.feeds[t].remaining;
        assert t in Owing(s, c);
      }
    }
    forall k | k in offered + owed ensures k in all {
      assert range[k - conn.from] == k;
    }
    assert offered !! owed;
    assert offered + owed == all;
  }

  // ---------------------------------------------------------------- one feeder

  /** Only these feeders broadcast: live feeds, and the silence bridge, which broadcasts as a feeder of its own. */
  predicate FedBy(feeders: set<Feeder>, acts: seq<Action>)
  {
    forall i :: 0 <= i < |acts| && acts[i].ByFeeder? ==> acts[i].t in feeders
  }

  predicate OwedTo(s: State, t: Feeder, c: ClientId)
  {
    t in s.feeds && s.feeds[t].Fanning? && c in s.feeds[t].remaining
  }

  predicate SoloOrder(s: State, t: Feeder, c: ClientId)
    requires c in s.conns
  {
    var upto := if OwedTo(s, t, c) then |s.hist| - 1 else |s.hist|;
    s.conns[c].from <= upto && s.conns[c].offered == Range(s.conns[c].from, upto)
  }

  predicate SoloOk(s: State, t: Feeder)
    requires s.registered <= s.conns.Keys
  {
    && s.feeds.Keys <= {t}
    && (t in s.feeds && s.feeds[t].Fanning? ==> s.feeds[t].id == |s.hist| - 1)
    && (forall c <- s.registered :: !s.conns[c].chan.closed ==> SoloOrder(s, t, c))
  }

  lemma SoloFeed(s: State, t: Feeder, f: FeedAction, c: ClientId)
    requires RegistryOk(s) && SoloOk(s, t) && FeedEnabled(s, t, f)
    requires c in s.registered && !s.conns[c].chan.closed
    ensures SoloOrder(FeedNext(s, t, f), t, c)
  {
    hide LastN;
    hide Offer;
    assert SoloOrder(s, t, c);
    var s' := FeedNext(s, t, f);
    if f == OfferTo(c) {
      assert Range(s.conns[c].from, |s.hist| - 1) + [s.feeds[t].id] == Range(s.conns[c].from, |s.hist|);
    }
  }

  lemma SoloClient(s: State, t: Feeder, a: Action, c: ClientId)
    requires Inv(s) && SoloOk(s, t) && Enabled(s, a) && !a.ByFeeder?
    requires c in Step(s, a).registered && c in Step(s, a).conns && !Step(s, a).conns[c].chan.closed
    ensures SoloOrder(Step(s, a), t, c)
  {
    hide Step, Written, ConnAfter, LocalsOk, SnapshotsOk, OffersOk, LockOk, RingOk, FeedsOk, Offer, ConnReady, FeedEnabled, FeedNext, SoloOrder;
    StepShape(s, a);
    SharedShape(s, a);
    var s' := Step(s, a);
    assert Evolves(s, a, c, s'.conns[c]);
    if a == ByClient(c, Register) {
      CutNow(s, t, c);
      PhaseStep(s, c in s.registered, s.conns[c], a.a);
      SoloMoves(s, s', t, c);
    } else {
      ListedIsCut(s, a, c);
      UncutStep(s, a, c, s'.conns[c]);
      OfferedStays(s, a, c);
      SoloMoves(s, s', t, c);
    }
  }

  /** A registered client has taken its snapshot. */
  lemma ListedIsCut(s: State, a: Action, c: ClientId)
    requires RegistryOk(s) && c in s.registered
    ensures !(Enabled(s, a) && a.ByClient? && a.c == c && a.a.Snapshot?)
  {
    hide FeedsOk;
  }

  /** The order of offers depends on the cut, the offers, the history and the feeds only. */
  lemma SoloMoves(s: State, s': State, t: Feeder, c: ClientId)
    requires c in s.conns && c in s'.conns && SoloOrder(s, t, c)
    requires s'.feeds == s.feeds && s'.hist == s.hist
    requires s'.conns[c].from == s.conns[c].from && s'.conns[c].offered == s.conns[c].offered
    ensures SoloOrder(s', t, c)
  {
  }

  /** What a client's own serve loop, Close and other clients do leaves its offers alone. */
  lemma OfferedStays(s: State, a: Action, c: ClientId)
    requires Enabled(s, a) && !a.ByFeeder? && c in s.conns && c in Step(s, a).conns
    ensures Step(s, a).conns[c].offered == s.conns[c].offered
    ensures s.conns[c].chan.closed ==> Step(s, a).conns[c].chan.closed
  {
    hide Step, ConnAfter, ConnReady, FeedEnabled, FeedNext;
    StepShape(s, a);
    assert Evolves(s, a, c, Step(s, a).conns[c]);
    if a.ByClient? && a.c == c {
      PhaseStep(s, c in s.registered, s.conns[c], a.a);
    }
  }

  /** At registration the cut is the present: nothing was offered yet and nothing is owed. */
  lemma CutNow(s: State, t: Feeder, c: ClientId)
    requires Inv(s) && Enabled(s, ByClient(c, Register))
    ensures c in s.conns && c !in s.registered && SoloOrder(s, t, c)
  {
    hide Written, Conserved, FlagsFollowBytes, OffersOk, LockOk, RingOk;
    assert SnapshotOk(s, s.conns[c]) && LocalOk(s.hist, s.threshold, s.conns[c]);
  }

  lemma SoloStepFeeder(s: State, t: Feeder, f: FeedAction)
    requires RegistryOk(s) && SoloOk(s, t) && FeedEnabled(s, t, f)
    requires FeedNext(s, t, f).registered <= FeedNext(s, t, f).conns.Keys
    ensures SoloOk(FeedNext(s, t, f), t)
  {
    hide Offer, FeedsOk, SoloOrder, LastN;
    var s' := FeedNext(s, t, f);
    forall c <- s'.registered | !s'.conns[c].chan.closed ensures SoloOrder(s', t, c) {
      SoloFeed(s, t, f, c);
    }
  }

  lemma SoloStepOther(s: State, t: Feeder, a: Action)
    requires Inv(s) && SoloOk(s, t) && Enabled(s, a) && !a.ByFeeder?
    requires Step(s, a).registered <= Step(s, a).conns.Keys
    ensures SoloOk(Step(s, a), t)
  {
    hide Step, Enabled, Inv, SoloOrder;
    SharedShape(s, a);
    var s' := Step(s, a);
    forall c <- s'.registered | !s'.conns[c].chan.closed ensures SoloOrder(s', t, c) {
      SoloClient(s, t, a, c);
    }
  }

  lemma SoloStep(s: State, t: Feeder, a: Action)
    requires Inv(s) && SoloOk(s, t) && (a.ByFeeder? ==> a.t == t)
    requires Inv(Step(s, a))
    ensures SoloOk(Step(s, a), t)
  {
    hide LockOk, RingOk, LocalsOk, SnapshotsOk, OffersOk, FeedsOk, FeedEnabled, FeedNext, ClientEnabled, ClientNext, CloseNext, SoloOk;
    if Enabled(s, a) {
      if a.ByFeeder? {
        SoloStepFeeder(s, t, a.f);
      } else {
        SoloStepOther(s, t, a);
      }
    }
  }

  lemma {:induction false} SoloSafety(size: nat, threshold: nat, t: Feeder, acts: seq<Action>)
    requires 0 < threshold && FedBy({t}, acts)
    ensures var s := Exec(Init(size, threshold), acts); Inv(s) && SoloOk(s, t)
    decreases |acts|
  {
    Safety(size, threshold, acts);
    if acts != [] {
      var before := acts[..|acts| - 1];
      hide Inv;
      hide SoloOk;
      SoloSafety(size, threshold, t, before);
      Safety(size, threshold, before);
      SoloStep(Exec(Init(size, threshold), before), t, acts[|acts| - 1]);
    }
  }

  lemma {:induction false} SubseqFull(a: seq<nat>, b: seq<nat>)
    requires IsSubseq(a, b) && |a| == |b|
    ensures a == b
    decreases |b|
  {
    if b != [] {
      var a', b' := a[..|a| - 1], b[..|b| - 1];
      if a[|a| - 1] == b[|b| - 1] {
        SubseqFull(a', b');
        assert a == a' + [a[|a| - 1]] && b == b' + [b[|b| - 1]];
      } else {
        SubseqLength(a, b');
      }
    }
  }

  lemma {:induction false} SubseqLength(a: seq<nat>, b: seq<nat>)
    requires IsSubseq(a, b)
    ensures |a| <= |b|
    decreases |b|
  {
    if a != [] {
      SubseqLength(if a[|a| - 1] == b[|b| - 1] then a[..|a| - 1] else a, b[..|b| - 1]);
    }
  }

  /** The chunks named by `ids`. */
  function Data(hist: seq<Chunk>, ids: seq<nat>): (r: seq<Chunk>)
    requires forall i :: 0 <= i < |ids| ==> ids[i] < |hist|
    ensures |r| == |ids|
  {
    seq(|ids|, i requires 0 <= i < |ids| => hist[ids[i]])
  }

  predicate IsSuffix<T(==)>(a: seq<T>, b: seq<T>)
  {
    |a| <= |b| && b[|b| - |a|..] == a
  }

  lemma SoloFacts(s: State, t: Feeder, c: ClientId)
    requires Inv(s) && SoloOk(s, t)
    requires c in s.registered && c in s.conns && !s.conns[c].chan.closed && Serving(s.conns[c].serve)
    ensures SoloOrder(s, t, c) && SnapshotOk(s, s.conns[c]) && Conserved(s.conns[c]) && !Unsnapped(s.conns[c].serve)
  {
    hide Conserved;
    hide FlagsFollowBytes;
    hide SoloOrder;
    hide SnapshotOk;
    assert LocalOk(s.hist, s.threshold, s.conns[c]);
  }

  /** The preroll followed by everything handed to the client is, byte for byte, the tail of the stream:
      ring-size zeroes, then all audio since the last clear before the cut, up to the newest chunk the
      client has been offered. */
  predicate HearsContiguousTail(s: State, t: Feeder, c: ClientId)
    requires c in s.conns
  {
    var conn := s.conns[c];
    var upto := if OwedTo(s, t, c) then |s.hist| - 1 else |s.hist|;
    && conn.base <= conn.from <= upto
    && |Kept(conn)| == upto - conn.from
    && (forall i :: 0 <= i < |Kept(conn)| ==> Kept(conn)[i] < |s.hist|)
    && IsSuffix(conn.preroll + Flatten(Data(s.hist, Kept(conn))),
                Repeat(0, s.size) + Flatten(s.hist[conn.base..upto]))
  }

  lemma SuffixExtends<T>(x: seq<T>, y: seq<T>, z: seq<T>)
    requires x == LastN(y, |x|)
    ensures IsSuffix(x + z, y + z)
  {
  }

  lemma DataOfRange(hist: seq<Chunk>, from: nat, upto: nat)
    requires from <= upto <= |hist|
    ensures Data(hist, Range(from, upto)) == hist[from..upto]
  {
  }

  lemma Assoc<T>(x: seq<T>, y: seq<T>, z: seq<T>)
    ensures x + y + z == x + (y + z)
  {
  }

  lemma SpliceIsSuffix(size: nat, hist: seq<Chunk>, base: nat, from: nat, upto: nat, preroll: Chunk, ids: seq<nat>)
    requires base <= from <= upto <= |hist| && ids == Range(from, upto)
    requires |preroll| <= size && preroll == LastN(Repeat(0, size) + Flatten(hist[base..from]), |preroll|)
    ensures IsSuffix(preroll + Flatten(Data(hist, ids)), Repeat(0, size) + Flatten(hist[base..upto]))
  {
    hide IsSuffix;
    hide Flatten;
    hide LastN;
    DataOfRange(hist, from, upto);
    SuffixExtends(preroll, Repeat(0 as byte, size) + Flatten(hist[base..from]), Flatten(hist[from..upto]));
    assert hist[base..upto] == hist[base..from] + hist[from..upto];
    FlattenConcat(hist[base..from], hist[from..upto]);
    Assoc(Repeat(0 as byte, size), Flatten(hist[base..from]), Flatten(hist[from..upto]));
  }

  lemma ContiguousFrom(s: State, t: Feeder, c: ClientId)
    requires c in s.conns && SoloOrder(s, t, c) && SnapshotOk(s, s.conns[c]) && !Unsnapped(s.conns[c].serve)
    requires Conserved(s.conns[c]) && s.conns[c].chan.skipped == 0
    ensures HearsContiguousTail(s, t, c)
  {
    hide Flatten, IsSubseq, Kept, IsSuffix, SnapshotOk, Data;
    var conn := s.conns[c];
    var upto := if OwedTo(s, t, c) then |s.hist| - 1 else |s.hist|;
    CutIsBehind(s, conn);
    PrerollIsWindow(s, conn);
    SubseqFull(Kept(conn), conn.offered);
    SpliceIsSuffix(s.size, s.hist, conn.base, conn.from, upto, conn.preroll, Kept(conn));
  }

  lemma CutIsBehind(s: State, conn: Conn)
    requires SnapshotOk(s, conn)
    ensures conn.base <= conn.from <= |s.hist|
  {
    hide Written;
  }

  /** With one feeder the splice at the connect seam is exact if and only if nothing was skipped. */
  lemma SeamIsContiguousIff(size: nat, threshold: nat, t: Feeder, acts: seq<Action>, c: ClientId)
    requires 0 < threshold && FedBy({t}, acts)
    requires var s := Exec(Init(size, threshold), acts);
             c in s.registered && c in s.conns && !s.conns[c].chan.closed && Serving(s.conns[c].serve)
    ensures var s := Exec(Init(size, threshold), acts);
            HearsContiguousTail(s, t, c) <==> s.conns[c].chan.skipped == 0
  {
    hide Inv, SoloOk, HearsContiguousTail, SoloOrder, SnapshotOk, Conserved, Exec;
    var s := Exec(Init(size, threshold), acts);
    SoloSafety(size, threshold, t, acts);
    SoloFacts(s, t, c);
    if s.conns[c].chan.skipped == 0 {
      ContiguousFrom(s, t, c);
    }
    if HearsContiguousTail(s, t, c) {
      NothingSkipped(s, t, c);
    }
  }

  lemma NothingSkipped(s: State, t: Feeder, c: ClientId)
    requires c in s.conns && SoloOrder(s, t, c) && Conserved(s.conns[c]) && HearsContiguousTail(s, t, c)
    ensures s.conns[c].chan.skipped == 0
  {
    hide IsSubseq, IsSuffix, Flatten, Data, Kept;
  }

  // ---------------------------------------------------------------- several feeders

  predicate Ascending(ids: seq<nat>)
  {
    forall i, j :: 0 <= i < j < |ids| ==> ids[i] < ids[j]
  }

  /** Every open registered client was offered its chunks in the order of the ring. */
  predicate InRingOrder(s: State)
  {
    forall c <- s.registered :: c in s.conns && !s.conns[c].chan.closed ==> Ascending(s.conns[c].offered)
  }

  /** With one feeder, order is kept. */
  lemma SoloInRingOrder(size: nat, threshold: nat, t: Feeder, acts: seq<Action>)
    requires 0 < threshold && FedBy({t}, acts)
    ensures InRingOrder(Exec(Init(size, threshold), acts))
  {
    hide Inv, SoloOk, SoloOrder, Ascending, Exec;
    var s := Exec(Init(size, threshold), acts);
    SoloSafety(size, threshold, t, acts);
    InvListed(s);
    forall c <- s.registered | c in s.conns && !s.conns[c].chan.closed ensures Ascending(s.conns[c].offered) {
      SoloListed(s, t, c);
      SoloAscending(s, t, c);
    }
  }

  lemma InvListed(s: State)
    requires Inv(s)
    ensures s.registered <= s.conns.Keys
  {
    hide LockOk, RingOk, LocalsOk, SnapshotsOk, OffersOk, FeedsOk;
  }

  lemma SoloListed(s: State, t: Feeder, c: ClientId)
    requires s.registered <= s.conns.Keys && SoloOk(s, t) && c in s.registered && !s.conns[c].chan.closed
    ensures SoloOrder(s, t, c)
  {
    hide SoloOrder;
  }

  lemma SoloAscending(s: State, t: Feeder, c: ClientId)
    requires c in s.conns && SoloOrder(s, t, c)
    ensures Ascending(s.conns[c].offered)
  {
  }

  /** Whatever a set of feeders does, clients get their chunks in ring order, if and only if there is at most one. */
  lemma RingOrderIff(size: nat, threshold: nat, feeders: set<Feeder>)
    requires 0 < threshold
    ensures (forall acts :: FedBy(feeders, acts) ==> InRingOrder(Exec(Init(size, threshold), acts))) <==> |feeders| <= 1
  {
    hide Exec, InRingOrder, FedBy;
    if |feeders| <= 1 {
      var t := OnlyOne(feeders);
      forall acts | FedBy(feeders, acts) ensures InRingOrder(Exec(Init(size, threshold), acts)) {
        FedByMore(feeders, {t}, acts);
        SoloInRingOrder(size, threshold, t, acts);
      }
    } else {
      var t, u := TwoOf(feeders);
      var acts := TwoFeedersReorder(size, threshold, t, u);
      FedByMore({t, u}, feeders, acts);
    }
  }

  lemma OnlyOne(feeders: set<Feeder>) returns (t: Feeder)
    requires |feeders| <= 1
    ensures feeders <= {t}
  {
    if feeders == {} {
      t := 0;
    } else {
      t :| t in feeders;
      assert |feeders - {t}| == |feeders| - 1;
    }
  }

  lemma TwoOf(feeders: set<Feeder>) returns (t: Feeder, u: Feeder)
    requires |feeders| > 1
    ensures t != u && {t, u} <= feeders
  {
    t :| t in feeders;
    assert |feeders - {t}| == |feeders| - 1;
    u :| u in feeders - {t};
  }

  lemma FedByMore(fewer: set<Feeder>, more: set<Feeder>, acts: seq<Action>)
    requires fewer <= more && FedBy(fewer, acts)
    ensures FedBy(more, acts)
  {
  }

  // ---------------------------------------------------------------- two feeders race

  const ATTACH := [Connect(7), ByClient(7, AttachLock), ByClient(7, Snapshot(0)), ByClient(7, Register)]

  function Race(t: Feeder, u: Feeder): seq<Action>
  {
    [ByFeeder(t, Lock([1])), ByFeeder(u, Lock([2])), ByFeeder(t, WriteRing), ByFeeder(u, WriteRing),
     ByFeeder(u, OfferTo(7)), ByFeeder(t, OfferTo(7))]
  }

  lemma ClientDoes(s: State, c: ClientId, a: ConnAction)
    requires !s.crashed && ClientEnabled(s, c, a)
    ensures Step(s, ByClient(c, a)) == ClientNext(s, c, a)
  {
  }

  lemma FeederDoes(s: State, t: Feeder, f: FeedAction)
    requires !s.crashed && FeedEnabled(s, t, f)
    ensures Step(s, ByFeeder(t, f)) == FeedNext(s, t, f)
  {
  }

  lemma NewcomerArrives(s: State, c: ClientId)
    requires !s.crashed && c !in s.conns
    ensures Step(s, Connect(c)) == s.(conns := s.conns[c := NEWCOMER])
  {
  }

  lemma Attaches(s: State, c: ClientId) returns (r: State)
    requires !s.crashed && LockFree(s) && At(s, c, Connecting)
    ensures r == Step(Step(Step(s, ByClient(c, AttachLock)), ByClient(c, Snapshot(0))), ByClient(c, Register))
    ensures r == s.(registered := s.registered + {c}, conns := s.conns[c := s.conns[c].(
                      serve := SendingPreroll, preroll := [], base := s.cleared, from := |s.hist|)])
  {
    hide Step;
    ClientDoes(s, c, AttachLock);
    var s2 := ClientNext(s, c, AttachLock);
    ClientDoes(s2, c, Snapshot(0));
    var s3 := ClientNext(s2, c, Snapshot(0));
    ClientDoes(s3, c, Register);
    r := ClientNext(s3, c, Register);
    assert LastN(s.ring, 0) == [];
    hide LastN;
  }

  lemma AttachRun(s0: State)
    requires s0 == Init(s0.size, s0.threshold)
    ensures Exec(s0, ATTACH) == s0.(conns := map[7 := NEWCOMER.(serve := SendingPreroll)], registered := {7})
  {
    hide Step;
    hide Exec;
    ExecFour(s0, ATTACH);
    NewcomerArrives(s0, 7);
    var r := Attaches(s0.(conns := map[7 := NEWCOMER]), 7);
    assert r.conns == map[7 := NEWCOMER.(serve := SendingPreroll)];
  }

  /** Two feeders lock, write the ring as 0 then 1, and fan out as 1 then 0. */
  lemma RaceRun(s: State, t: Feeder, u: Feeder)
    requires t != u
    requires s == Init(s.size, s.threshold).(conns := map[7 := NEWCOMER.(serve := SendingPreroll)], registered := {7})
    ensures var r := Exec(s, Race(t, u));
            7 in r.conns && r.conns[7].from == 0 && r.conns[7].offered == r.conns[7].chan.queue == [1, 0]
            && !r.conns[7].chan.closed && r.registered == {7}
  {
    hide LastN, Step;
    ExecSix(s, Race(t, u));
    var s2 := s.(feeds := map[t := Locked([1]), u := Locked([2])]);
    FeederDoes(s, t, Lock([1]));
    FeederDoes(s.(feeds := map[t := Locked([1])]), u, Lock([2]));
    assert Step(Step(s, Race(t, u)[0]), Race(t, u)[1]) == s2;
    var s4 := Fan(s2, t, u);
    var one := s.conns[7].(chan := Channel([1], false, 0), offered := [1]);
    var s5 := s4.(feeds := map[t := Fanning(0, {7}), u := Fanning(1, {})], conns := map[7 := one]);
    FeederDoes(s4, u, OfferTo(7));
    assert {7} - {7} == {};
    assert FeedNext(s4, u, OfferTo(7)).feeds == s5.feeds;
    assert Offered(s.conns[7], 1) == one;
    assert FeedNext(s4, u, OfferTo(7)).conns == s5.conns;
    FeederDoes(s5, t, OfferTo(7));
  }

  lemma Fan(s: State, t: Feeder, u: Feeder) returns (r: State)
    requires t != u && !s.crashed && s.hist == [] && s.registered == {7} && s.feeds == map[t := Locked([1]), u := Locked([2])]
    ensures r == Step(Step(s, ByFeeder(t, WriteRing)), ByFeeder(u, WriteRing))
    ensures r.feeds == map[t := Fanning(0, {7}), u := Fanning(1, {7})] && |r.hist| == 2
    ensures r.conns == s.conns && r.registered == s.registered && !r.crashed
  {
    hide LastN, Step;
    FeederDoes(s, t, WriteRing);
    var s3 := FeedNext(s, t, WriteRing);
    FeederDoes(s3, u, WriteRing);
    r := FeedNext(s3, u, WriteRing);
  }

  /** Two feeds overlapping on a mount can reach a client in the opposite order to the ring. */
  lemma TwoFeedersReorder(size: nat, threshold: nat, t: Feeder, u: Feeder) returns (acts: seq<Action>)
    requires t != u
    ensures FedBy({t, u}, acts) && !InRingOrder(Exec(Init(size, threshold), acts))
    ensures var conns := Exec(Init(size, threshold), acts).conns;
            7 in conns && conns[7].from == 0 && conns[7].chan.queue == [1, 0]
  {
    hide Step, Exec;
    var s := Init(size, threshold);
    acts := ATTACH + Race(t, u);
    AttachRun(s);
    RaceRun(Exec(s, ATTACH), t, u);
    ExecSplit(s, ATTACH, Race(t, u));
    assert !Ascending([1, 0]) by { assert [1, 0][0] > [1, 0][1]; }
  }

  lemma {:induction false} ExecSplit(s: State, a: seq<Action>, b: seq<Action>)
    ensures Exec(s, a + b) == Exec(Exec(s, a), b)
    decreases |b|
  {
    if b == [] {
      assert a + b == a;
    } else {
      assert (a + b)[..|a + b| - 1] == a + b[..|b| - 1];
      ExecSplit(s, a, b[..|b| - 1]);
    }
  }

  lemma ExecTwo(s: State, a: Action, b: Action)
    ensures Exec(s, [a, b]) == Step(Step(s, a), b)
  {
    hide Step;
    assert [a, b][..1] == [a] && [a][..0] == [];
    assert Exec(s, [a]) == Step(Exec(s, []), a);
  }

  lemma ExecFour(s: State, a: seq<Action>)
    requires |a| == 4
    ensures Exec(s, a) == Step(Step(Step(Step(s, a[0]), a[1]), a[2]), a[3])
  {
    hide Step;
    assert a == [a[0], a[1]] + [a[2], a[3]];
    ExecTwo(s, a[0], a[1]);
    ExecTwo(Exec(s, [a[0], a[1]]), a[2], a[3]);
    ExecSplit(s, [a[0], a[1]], [a[2], a[3]]);
  }

  lemma ExecSix(s: State, a: seq<Action>)
    requires |a| == 6
    ensures Exec(s, a) == Step(Step(Step(Step(Step(Step(s, a[0]), a[1]), a[2]), a[3]), a[4]), a[5])
  {
    hide Step;
    assert a == a[..4] + [a[4], a[5]];
    ExecFour(s, a[..4]);
    ExecTwo(Exec(s, a[..4]), a[4], a[5]);
    ExecSplit(s, a[..4], [a[4], a[5]]);
  }
}
