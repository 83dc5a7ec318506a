/** Every interleaving of the goroutines that share one mount of internal/broadcast/server.go.

    Feeders run Broadcast under the read side of the mount lock, connecting clients attach under its
    write side, serve loops take chunks without it, and the ring buffer is cleared without it. Each
    action below is one indivisible access to shared state; chunks are named by their ring-write index. */
module MountProtocol {
  import opened Seqs
  import opened Rings
  import opened Mounts

  type Feeder = nat
  type ClientId = nat

  /** A Broadcast call holding the read lock: before its ring write, then during its fan-out. */
  datatype Feed = Locked(data: Chunk) | Fanning(id: nat, remaining: set<ClientId>)

  /** Where a client's serve goroutine stands. */
  datatype Serve =
    | Connecting | Attaching | Snapshotted | SendingPreroll
    | Looping | Writing(id: nat) | Crossing | Announcing
    | Leaving | Closed | Farewell | Gone | Panicked

  /** `from`, `base`, `offered`, `written` and `cut` are history: no action's guard reads them. */
  datatype Conn = Conn(
    serve: Serve, chan: Channel<nat>, bytes: nat, crossed: bool, established: bool,
    preroll: Chunk, base: nat, from: nat, offered: seq<nat>, written: seq<nat>, cut: bool)

  /** `hist`, `cleared`, `connects`, `disconnects`, `late`, `wiped` and `closes` are history. */
  datatype State = State(
    size: nat, threshold: nat, ring: Chunk, writer: Option<ClientId>,
    feeds: map<Feeder, Feed>, conns: map<ClientId, Conn>, registered: set<ClientId>, count: int, crashed: bool,
    hist: seq<Chunk>, cleared: nat, connects: nat, disconnects: nat, late: nat, wiped: int, closes: nat)

  datatype FeedAction = Lock(data: Chunk) | WriteRing | OfferTo(c: ClientId) | Unlock

  datatype ConnAction =
    | AttachLock | Snapshot(n: nat) | Register | PrerollSent(ok: bool)
    | Take | WriteOk | WriteFailed(drop: bool) | Establish | PublishConnect
    | Hangup | CleanupClose | CleanupForget | PublishDisconnect

  datatype Action =
    | ByFeeder(t: Feeder, f: FeedAction)
    | Connect(c: ClientId)
    | ByClient(c: ClientId, a: ConnAction)
    | ClearRing
    | CloseMount

  function Init(size: nat, threshold: nat): State
  {
    State(size, threshold, Repeat(0, size), None, map[], map[], {}, 0, false, [], 0, 0, 0, 0, 0, 0)
  }

  const NEWCOMER := Conn(Connecting, Channel([], false, 0), 0, false, false, [], 0, 0, [], [], false)

  // ---------------------------------------------------------------- feeders

  predicate FeedEnabled(s: State, t: Feeder, f: FeedAction)
  {
    match f
    case Lock(data) => data != [] && t !in s.feeds && s.writer == None
    case WriteRing => t in s.feeds && s.feeds[t].Locked?
    case OfferTo(c) => t in s.feeds && s.feeds[t].Fanning? && c in s.feeds[t].remaining && c in s.conns
    case Unlock => t in s.feeds && s.feeds[t].Fanning? && s.feeds[t].remaining == {}
  }

  function Offered(conn: Conn, id: nat): Conn
  {
    conn.(chan := Offer(conn.chan, id), offered := if conn.chan.closed then conn.offered else conn.offered + [id])
  }

  function FeedNext(s: State, t: Feeder, f: FeedAction): State
    requires FeedEnabled(s, t, f)
  {
    match f
    case Lock(data) => s.(feeds := s.feeds[t := Locked(data)])
    case WriteRing =>
      var data := s.feeds[t].data;
      s.(ring := LastN(s.ring + data, s.size), hist := s.hist + [data],
         feeds := s.feeds[t := Fanning(|s.hist|, s.registered)])
    case OfferTo(c) =>
      var feed := s.feeds[t];
      s.(feeds := s.feeds[t := feed.(remaining := feed.remaining - {c})],
         conns := s.conns[c := Offered(s.conns[c], feed.id)])
    case Unlock => s.(feeds := s.feeds - {t})
  }

  // ---------------------------------------------------------------- serve loops

  predicate At(s: State, c: ClientId, p: Serve) { c in s.conns && s.conns[c].serve == p }

  predicate LockFree(s: State) { s.writer == None && s.feeds == map[] }

  predicate NeedsLock(a: ConnAction) { a.AttachLock? || a.Establish? || a.CleanupForget? }

  /** The action is the next thing this serve goroutine can do. */
  predicate ConnReady(hist: seq<Chunk>, conn: Conn, a: ConnAction)
  {
    match a
    case AttachLock => conn.serve == Connecting
    case Snapshot(_) => conn.serve == Attaching
    case Register => conn.serve == Snapshotted
    case PrerollSent(_) => conn.serve == SendingPreroll
    case Take => conn.serve == Looping && conn.chan.queue != []
    case WriteOk => conn.serve.Writing? && conn.serve.id < |hist|
    case WriteFailed(_) => conn.serve.Writing?
    case Establish => conn.serve == Crossing
    case PublishConnect => conn.serve == Announcing
    case Hangup => conn.serve == Looping
    case CleanupClose => conn.serve == Leaving
    case CleanupForget => conn.serve == Closed
    case PublishDisconnect => conn.serve == Farewell
  }

  /** delivered(): accumulate a live write and notice the first crossing of the threshold. */
  function Delivered(conn: Conn, id: nat, n: nat, threshold: nat): Conn
  {
    var crossing := !conn.crossed && conn.bytes + n >= threshold;
    conn.(bytes := conn.bytes + n, written := conn.written + [id],
          crossed := conn.crossed || crossing, serve := if crossing then Crossing else Looping)
  }

  /** The goroutine's own record after the action; `present` says whether the mount still lists it. */
  function ConnAfter(s: State, present: bool, conn: Conn, a: ConnAction): Conn
    requires ConnReady(s.hist, conn, a)
  {
    match a
    case AttachLock => conn.(serve := Attaching)
    case Snapshot(n) => conn.(serve := Snapshotted, preroll := LastN(s.ring, n), base := s.cleared, from := |s.hist|)
    case Register => conn.(serve := SendingPreroll)
    case PrerollSent(ok) => conn.(serve := if ok then Looping else Leaving)
    case Take => conn.(serve := Writing(conn.chan.queue[0]), chan := conn.chan.(queue := conn.chan.queue[1..]))
    case WriteOk => Delivered(conn, conn.serve.id, |s.hist[conn.serve.id]|, s.threshold)
    case WriteFailed(drop) =>
      if drop then conn.(serve := Leaving)
      else conn.(serve := Looping, chan := conn.chan.(skipped := conn.chan.skipped + 1))
    case Establish => conn.(serve := Announcing, established := true)
    case PublishConnect => conn.(serve := Looping)
    case Hangup => conn.(serve := Leaving)
    case CleanupClose =>
      if conn.chan.closed then conn.(serve := Panicked)
      else conn.(serve := Closed, chan := conn.chan.(closed := true))
    case CleanupForget => conn.(serve := if present && conn.established then Farewell else Gone)
    case PublishDisconnect => conn.(serve := Gone)
  }

  predicate ClientEnabled(s: State, c: ClientId, a: ConnAction)
  {
    c in s.conns && ConnReady(s.hist, s.conns[c], a) && (NeedsLock(a) ==> LockFree(s))
  }

  function ClientNext(s: State, c: ClientId, a: ConnAction): (r: State)
    requires ClientEnabled(s, c, a)
  {
    var present, conn := c in s.registered, s.conns[c];
    var s' := s.(conns := s.conns[c := ConnAfter(s, present, conn, a)]);
    match a
    case AttachLock => s'.(writer := Some(c))
    case Register => s'.(registered := s.registered + {c}, writer := None)
    case Establish => s'.(count := s.count + 1, late := s.late + if present then 0 else 1)
    case PublishConnect => s'.(connects := s.connects + 1)
    case CleanupForget =>
      s'.(registered := s.registered - {c}, count := s.count - if present && conn.established then 1 else 0)
    case PublishDisconnect => s'.(disconnects := s.disconnects + 1)
    case _ => s'
  }

  // ---------------------------------------------------------------- the mount

  function Cut(conn: Conn): Conn { conn.(chan := conn.chan.(closed := true), cut := true) }

  /** Mount.Close closes every registered client's done channel; closing one twice panics. */
  function CloseNext(s: State): State
  {
    if exists c :: c in s.registered && c in s.conns && s.conns[c].chan.closed then
      s.(crashed := true, closes := s.closes + 1)
    else
      s.(conns := map c | c in s.conns :: if c in s.registered then Cut(s.conns[c]) else s.conns[c],
         registered := {}, count := 0, late := 0, wiped := s.wiped + s.count, closes := s.closes + 1)
  }

  predicate Enabled(s: State, a: Action)
  {
    !s.crashed &&
    match a
    case ByFeeder(t, f) => FeedEnabled(s, t, f)
    case Connect(c) => c !in s.conns
    case ByClient(c, ca) => ClientEnabled(s, c, ca)
    case ClearRing => true
    case CloseMount => LockFree(s)
  }

  /** A disabled action is a no-op, so every action sequence is a schedule. */
  function Step(s: State, a: Action): State
  {
    if !Enabled(s, a) then s else
    match a
    case ByFeeder(t, f) => FeedNext(s, t, f)
    case Connect(c) => s.(conns := s.conns[c := NEWCOMER])
    case ByClient(c, ca) => ClientNext(s, c, ca)
    case ClearRing => s.(ring := Repeat(0, s.size), cleared := |s.hist|)
    case CloseMount => CloseNext(s)
  }

  function Exec(s: State, acts: seq<Action>): State
    decreases |acts|
  {
    if acts == [] then s else Step(Exec(s, acts[..|acts| - 1]), acts[|acts| - 1])
  }

  // ---------------------------------------------------------------- what one serve goroutine keeps

  predicate Unattached(p: Serve) { p.Connecting? || p.Attaching? || p.Snapshotted? }

  predicate Unsnapped(p: Serve) { p.Connecting? || p.Attaching? }

  predicate HoldsWriter(p: Serve) { p.Attaching? || p.Snapshotted? }

  /** Serving: attached and not yet on its way out. */
  predicate Serving(p: Serve)
  {
    p.SendingPreroll? || p.Looping? || p.Writing? || p.Crossing? || p.Announcing?
  }

  function InFlight(p: Serve): (r: seq<nat>)
    ensures |r| <= 1
  {
    if p.Writing? then [p.id] else []
  }

  function ByteCount(hist: seq<Chunk>, ids: seq<nat>): nat
  {
    if ids == [] then 0
    else ByteCount(hist, ids[..|ids| - 1]) + if ids[|ids| - 1] < |hist| then |hist[ids[|ids| - 1]]| else 0
  }

  /** What the client got or will still get: written, in flight, queued. */
  function Kept(conn: Conn): seq<nat>
  {
    conn.written + InFlight(conn.serve) + conn.chan.queue
  }

  /** Chunks offered = written + in flight + queued + skipped, and the kept ones are in offer order. */
  predicate Conserved(conn: Conn)
  {
    && IsSubseq(Kept(conn), conn.offered)
    && |conn.offered| == |Kept(conn)| + conn.chan.skipped
    && |conn.chan.queue| <= CHANNEL_CAPACITY
  }

  /** The listener flag follows live bytes: set once the threshold of written chunks was reached. */
  predicate FlagsFollowBytes(hist: seq<Chunk>, threshold: nat, conn: Conn)
  {
    && conn.bytes == ByteCount(hist, conn.written)
    && (forall i :: 0 <= i < |conn.written| ==> conn.written[i] < |hist|)
    && (conn.crossed <==> conn.bytes >= threshold)
    && (conn.established ==> conn.crossed)
    && (conn.serve.Crossing? ==> conn.crossed && !conn.established)
    && (conn.crossed && !conn.serve.Crossing? ==> conn.established)
  }

  /** The done channel is closed by this goroutine's own cleanup or by Mount.Close. */
  predicate ClosedBy(conn: Conn)
  {
    conn.chan.closed <==> conn.cut || conn.serve.Closed? || conn.serve.Farewell? || conn.serve.Gone?
  }

  predicate FreshUntilAttached(conn: Conn)
  {
    Unattached(conn.serve) ==> conn.offered == [] && conn.written == [] && conn.chan == Channel([], false, 0)
  }

  predicate LocalOk(hist: seq<Chunk>, threshold: nat, conn: Conn)
  {
    && FreshUntilAttached(conn)
    && (Unattached(conn.serve) || Serving(conn.serve) ==> Conserved(conn))
    && FlagsFollowBytes(hist, threshold, conn)
    && ClosedBy(conn)
  }

  lemma {:induction false} ByteCountGrow(hist: seq<Chunk>, more: seq<Chunk>, ids: seq<nat>)
    requires forall i :: 0 <= i < |ids| ==> ids[i] < |hist|
    ensures ByteCount(hist + more, ids) == ByteCount(hist, ids)
    decreases |ids|
  {
    if ids != [] {
      ByteCountGrow(hist, more, ids[..|ids| - 1]);
    }
  }

  lemma ByteCountPush(hist: seq<Chunk>, ids: seq<nat>, id: nat)
    requires id < |hist|
    ensures ByteCount(hist, ids + [id]) == ByteCount(hist, ids) + |hist[id]|
  {
    assert (ids + [id])[..|ids|] == ids;
  }

  /** Except for a failed write, a serve step only moves chunks between queue, flight and written. */
  lemma KeptStep(s: State, present: bool, conn: Conn, a: ConnAction)
    requires ConnReady(s.hist, conn, a) && FreshUntilAttached(conn)
    requires !a.WriteFailed? && !a.Hangup?
    ensures var conn' := ConnAfter(s, present, conn, a);
            && Kept(conn') == Kept(conn)
            && conn'.offered == conn.offered && conn'.chan.skipped == conn.chan.skipped
            && |conn'.chan.queue| <= |conn.chan.queue|
  {
    hide LastN;
  }

  /** A timed-out write gives up the chunk in flight and counts it as skipped. */
  lemma FailedWriteStep(s: State, present: bool, conn: Conn)
    requires conn.serve.Writing? && Conserved(conn)
    ensures Conserved(ConnAfter(s, present, conn, WriteFailed(false)))
  {
    SubseqDelete(conn.written, conn.serve.id, conn.chan.queue, conn.offered);
    assert conn.written + [] + conn.chan.queue == conn.written + conn.chan.queue;
  }

  lemma ConservedStep(s: State, present: bool, conn: Conn, a: ConnAction)
    requires ConnReady(s.hist, conn, a) && FreshUntilAttached(conn)
    requires Unattached(conn.serve) || Serving(conn.serve) ==> Conserved(conn)
    requires !a.Hangup? && a != WriteFailed(true)
    requires Unattached(conn.serve) || Serving(conn.serve)
    ensures Conserved(ConnAfter(s, present, conn, a))
  {
    if a.WriteFailed? {
      FailedWriteStep(s, present, conn);
    } else {
      KeptStep(s, present, conn, a);
    }
  }

  lemma FlagsOnWrite(hist: seq<Chunk>, threshold: nat, conn: Conn, id: nat)
    requires id < |hist| && conn.serve.Writing? && FlagsFollowBytes(hist, threshold, conn)
    ensures FlagsFollowBytes(hist, threshold, Delivered(conn, id, |hist[id]|, threshold))
  {
    ByteCountPush(hist, conn.written, id);
    hide ByteCount;
  }

  lemma FlagsStep(s: State, present: bool, conn: Conn, a: ConnAction)
    requires ConnReady(s.hist, conn, a) && FlagsFollowBytes(s.hist, s.threshold, conn)
    ensures FlagsFollowBytes(s.hist, s.threshold, ConnAfter(s, present, conn, a))
  {
    hide ByteCount;
    hide LastN;
    if a.WriteOk? {
      hide Delivered;
      FlagsOnWrite(s.hist, s.threshold, conn, conn.serve.id);
    }
  }

  lemma LocalStep(s: State, present: bool, conn: Conn, a: ConnAction)
    requires ConnReady(s.hist, conn, a) && LocalOk(s.hist, s.threshold, conn)
    ensures LocalOk(s.hist, s.threshold, ConnAfter(s, present, conn, a))
  {
    hide Conserved;
    hide FlagsFollowBytes;
    hide LastN;
    if !a.Hangup? && a != WriteFailed(true) && (Unattached(conn.serve) || Serving(conn.serve)) {
      ConservedStep(s, present, conn, a);
    }
    FlagsStep(s, present, conn, a);
  }

  // ---------------------------------------------------------------- what every step of every goroutine keeps

  predicate LockOk(s: State)
  {
    && (s.writer.Some? ==> s.feeds == map[])
    && (forall c <- s.conns :: HoldsWriter(s.conns[c].serve) ==> s.writer == Some(c))
  }

  predicate RingOk(s: State)
  {
    s.cleared <= |s.hist| && s.ring == Written(s.size, s.hist[s.cleared..])
  }

  predicate RegistryOk(s: State)
  {
    && s.registered <= s.conns.Keys
    && (forall c <- s.registered :: !Unattached(s.conns[c].serve))
    && FeedsOk(s.feeds, |s.hist|, s.registered)
  }

  /** Fan-outs are of different written chunks and owe them to listed clients only. */
  predicate FeedsOk(feeds: map<Feeder, Feed>, written: nat, registered: set<ClientId>)
  {
    && (forall t <- feeds :: feeds[t].Fanning? ==> feeds[t].id < written && feeds[t].remaining <= registered)
    && (forall t <- feeds, u <- feeds :: t != u && feeds[t].Fanning? && feeds[u].Fanning? ==> feeds[t].id != feeds[u].id)
  }

  /** The snapshot is the window of the ring at the moment the client was cut in. */
  predicate SnapshotOk(s: State, conn: Conn)
  {
    && conn.base <= conn.from <= |s.hist|
    && (!Unsnapped(conn.serve) ==>
          conn.preroll == LastN(Written(s.size, s.hist[conn.base..conn.from]), |conn.preroll|))
    && (conn.serve.Snapshotted? ==> conn.from == |s.hist|)
  }

  predicate LocalsOk(s: State)
  {
    0 < s.threshold && forall c <- s.conns :: LocalOk(s.hist, s.threshold, s.conns[c])
  }

  predicate SnapshotsOk(s: State)
  {
    forall c <- s.conns :: SnapshotOk(s, s.conns[c])
  }

  /** Some fan-out still has chunk `k` to offer to `c`. */
  predicate Pending(s: State, c: ClientId, k: nat)
  {
    exists t <- s.feeds :: s.feeds[t].Fanning? && s.feeds[t].id == k && c in s.feeds[t].remaining
  }

  /** Offers lie after the cut and never repeat; pending ones are still to come. */
  predicate OffersSound(s: State, c: ClientId)
    requires c in s.conns
  {
    var conn := s.conns[c];
    && Distinct(conn.offered)
    && (forall k <- conn.offered :: conn.from <= k < |s.hist|)
    && (forall t <- s.feeds :: s.feeds[t].Fanning? && c in s.feeds[t].remaining ==>
          conn.from <= s.feeds[t].id && s.feeds[t].id !in conn.offered)
  }

  /** Nothing after the cut is forgotten while the channel is open. */
  predicate OffersComplete(s: State, c: ClientId)
    requires c in s.conns
  {
    forall k :: s.conns[c].from <= k < |s.hist| ==> k in s.conns[c].offered || Pending(s, c, k)
  }

  predicate OffersOk(s: State)
    requires s.registered <= s.conns.Keys
  {
    && (forall c <- s.conns :: OffersSound(s, c))
    && (forall c <- s.registered :: !s.conns[c].chan.closed ==> OffersComplete(s, c))
  }

  predicate Inv(s: State)
  {
    LockOk(s) && RingOk(s) && RegistryOk(s) && LocalsOk(s) && SnapshotsOk(s) && OffersOk(s)
  }

  /** What one action does to one client's record. */
  predicate Evolves(s: State, a: Action, c: ClientId, conn': Conn)
  {
    if Enabled(s, a) && a == Connect(c) then conn' == NEWCOMER
    else
      c in s.conns &&
      if Enabled(s, a) && a.ByClient? && a.c == c then conn' == ConnAfter(s, c in s.registered, s.conns[c], a.a)
      else if Enabled(s, a) && a.ByFeeder? && a.f == OfferTo(c) then conn' == Offered(s.conns[c], s.feeds[a.t].id)
      else if Enabled(s, a) && a == CloseMount && c in s.registered then conn' == s.conns[c] || conn' == Cut(s.conns[c])
      else conn' == s.conns[c]
  }

  /** Every record evolves by one of those rules; history only grows by the chunk written to the ring. */
  lemma StepShape(s: State, a: Action)
    ensures var s' := Step(s, a);
            && s'.size == s.size && s'.threshold == s.threshold
            && s.conns.Keys <= s'.conns.Keys
            && s.hist <= s'.hist
            && forall c <- s'.conns :: Evolves(s, a, c, s'.conns[c])
  {
    hide ConnAfter;
    hide Offer;
    hide ConnReady;
  }

  predicate Does(s: State, a: Action, ca: ConnAction) { Enabled(s, a) && a.ByClient? && a.a == ca }

  /** What one action does to the state the goroutines share. */
  lemma SharedShape(s: State, a: Action)
    ensures var s' := Step(s, a);
            && s'.writer == (if Does(s, a, AttachLock) then Some(a.c) else if Does(s, a, Register) then None else s.writer)
            && s'.feeds == (if Enabled(s, a) && a.ByFeeder? then FeedNext(s, a.t, a.f).feeds else s.feeds)
            && s'.hist == (if Enabled(s, a) && a.ByFeeder? && a.f.WriteRing? then s.hist + [s.feeds[a.t].data] else s.hist)
            && (Enabled(s, a) && a == CloseMount ==> s'.registered == s.registered || s'.registered == {})
            && (!(Enabled(s, a) && a == CloseMount) ==>
                  s'.registered == if Does(s, a, Register) then s.registered + {a.c}
                                   else if Does(s, a, CleanupForget) then s.registered - {a.c} else s.registered)
  {
    hide ConnAfter;
    hide Offer;
    hide LastN;
  }

  /** Only AttachLock enters the critical section, only Register leaves it, and attaching is for good. */
  lemma PhaseStep(s: State, present: bool, conn: Conn, a: ConnAction)
    requires ConnReady(s.hist, conn, a)
    ensures var conn' := ConnAfter(s, present, conn, a);
            && (HoldsWriter(conn'.serve) <==> a.AttachLock? || (HoldsWriter(conn.serve) && !a.Register?))
            && (Unattached(conn'.serve) <==> Unattached(conn.serve) && !a.Register?)
            && (!a.Snapshot? ==> conn'.base == conn.base && conn'.from == conn.from && conn'.preroll == conn.preroll)
            && (conn'.serve.Snapshotted? <==> a.Snapshot?)
            && (Unsnapped(conn'.serve) <==> Unsnapped(conn.serve) && !a.Snapshot?)
            && conn'.offered == conn.offered
            && (conn'.chan.closed <==> conn.chan.closed || a.CleanupClose?)
  {
    hide LastN;
  }

  lemma LockStep(s: State, a: Action)
    requires LockOk(s)
    ensures LockOk(Step(s, a))
  {
    hide Step;
    hide Offer;
    hide ConnAfter;
    StepShape(s, a);
    SharedShape(s, a);
    var s' := Step(s, a);
    forall c <- s'.conns | HoldsWriter(s'.conns[c].serve) ensures s'.writer == Some(c) {
      assert Evolves(s, a, c, s'.conns[c]);
      if Enabled(s, a) && a.ByClient? && a.c == c {
        PhaseStep(s, c in s.registered, s.conns[c], a.a);
      }
    }
  }

  /** Writing one chunk advances the ring exactly as it advances the history it stands for. */
  lemma RingAppend(size: nat, hist: seq<Chunk>, cleared: nat, data: Chunk)
    requires cleared <= |hist|
    ensures Written(size, (hist + [data])[cleared..]) == LastN(Written(size, hist[cleared..]) + data, size)
  {
    hide LastN;
    assert (hist + [data])[cleared..] == hist[cleared..] + [data];
    assert (hist[cleared..] + [data])[..|hist| - cleared] == hist[cleared..];
  }

  lemma RingStep(s: State, a: Action)
    requires RingOk(s)
    ensures RingOk(Step(s, a))
  {
    hide LastN;
    hide Offer;
    hide ConnAfter;
    if a == ClearRing {
      assert s.hist[|s.hist|..] == [];
    } else if a.ByFeeder? && a.f.WriteRing? && Enabled(s, a) {
      RingAppend(s.size, s.hist, s.cleared, s.feeds[a.t].data);
      hide Written;
    }
  }

  lemma LocalGrows(hist: seq<Chunk>, hist': seq<Chunk>, threshold: nat, conn: Conn)
    requires hist <= hist' && LocalOk(hist, threshold, conn)
    ensures LocalOk(hist', threshold, conn)
  {
    hide IsSubseq;
    assert hist' == hist + hist'[|hist|..];
    ByteCountGrow(hist, hist'[|hist|..], conn.written);
  }

  lemma OfferedOk(hist: seq<Chunk>, threshold: nat, conn: Conn, id: nat)
    requires LocalOk(hist, threshold, conn) && !Unattached(conn.serve)
    ensures LocalOk(hist, threshold, Offered(conn, id))
  {
    if !conn.chan.closed && Serving(conn.serve) {
      SubseqGrow(Kept(conn), conn.offered, id);
      SubseqPush(Kept(conn), conn.offered, id);
      hide IsSubseq;
      assert Kept(conn) + [id] == conn.written + InFlight(conn.serve) + (conn.chan.queue + [id]);
    }
  }

  lemma LocalsStep(s: State, a: Action)
    requires LocalsOk(s) && RegistryOk(s)
    ensures LocalsOk(Step(s, a))
  {
    hide Step;
    hide ConnAfter;
    hide LocalOk;
    StepShape(s, a);
    var s' := Step(s, a);
    forall c <- s'.conns ensures LocalOk(s'.hist, s'.threshold, s'.conns[c]) {
      var conn' := s'.conns[c];
      assert Evolves(s, a, c, conn');
      if Enabled(s, a) && a == Connect(c) {
        NewcomerOk(s.hist, s.threshold);
      } else if conn' == s.conns[c] {
      } else if a.ByClient? {
        LocalStep(s, c in s.registered, s.conns[c], a.a);
      } else if a.ByFeeder? {
        OfferedOk(s.hist, s.threshold, s.conns[c], s.feeds[a.t].id);
      } else {
        CutOk(s.hist, s.threshold, s.conns[c]);
      }
      LocalGrows(s.hist, s'.hist, s.threshold, conn');
    }
  }

  lemma NewcomerOk(hist: seq<Chunk>, threshold: nat)
    requires 0 < threshold
    ensures LocalOk(hist, threshold, NEWCOMER)
  {
  }

  lemma CutOk(hist: seq<Chunk>, threshold: nat, conn: Conn)
    requires LocalOk(hist, threshold, conn) && !Unattached(conn.serve)
    ensures LocalOk(hist, threshold, Cut(conn))
  {
    hide IsSubseq;
  }

  lemma FeedsStep(s: State, a: Action)
    requires LockOk(s) && RegistryOk(s)
    ensures var s' := Step(s, a); FeedsOk(s'.feeds, |s'.hist|, s'.registered)
  {
    hide Step;
    hide Offer;
    hide ConnAfter;
    hide LastN;
    SharedShape(s, a);
  }

  lemma RegistryStep(s: State, a: Action)
    requires LockOk(s) && RegistryOk(s)
    ensures RegistryOk(Step(s, a))
  {
    hide Step;
    hide FeedNext;
    hide FeedEnabled;
    hide FeedsOk;
    hide ConnAfter;
    FeedsStep(s, a);
    StepShape(s, a);
    SharedShape(s, a);
    var s' := Step(s, a);
    forall c <- s'.registered ensures c in s'.conns && !Unattached(s'.conns[c].serve) {
      assert c in s'.conns && Evolves(s, a, c, s'.conns[c]);
      if Enabled(s, a) && a.ByClient? && a.c == c {
        PhaseStep(s, c in s.registered, s.conns[c], a.a);
      }
    }
  }

  /** While a client holds the write lock between snapshot and registration, no chunk reaches the ring. */
  lemma HistHeld(s: State, a: Action, c: ClientId)
    requires LockOk(s) && At(s, c, Snapshotted)
    ensures Step(s, a).hist == s.hist
  {
    hide Step;
    SharedShape(s, a);
  }

  lemma TakeSnapshot(s: State, conn: Conn, n: nat)
    requires RingOk(s) && conn.serve == Attaching
    ensures SnapshotOk(s, ConnAfter(s, false, conn, Snapshot(n)))
  {
    hide Written;
    assert s.hist[s.cleared..] == s.hist[s.cleared..|s.hist|];
  }

  lemma SnapshotsStep(s: State, a: Action)
    requires LockOk(s) && RegistryOk(s) && RingOk(s) && SnapshotsOk(s)
    ensures SnapshotsOk(Step(s, a))
  {
    hide Step;
    hide Offer;
    hide Written;
    hide ConnAfter;
    StepShape(s, a);
    var s' := Step(s, a);
    forall c <- s'.conns ensures SnapshotOk(s', s'.conns[c]) {
      var conn' := s'.conns[c];
      assert Evolves(s, a, c, conn');
      if Enabled(s, a) && a.ByClient? && a.c == c && a.a.Snapshot? {
        TakeSnapshot(s, s.conns[c], a.a.n);
        SharedShape(s, a);
        assert c !in s.registered;
        assert s'.hist == s.hist;
      } else if c in s.conns {
        UncutStep(s, a, c, conn');
        if conn'.serve.Snapshotted? {
          HistHeld(s, a, c);
        }
        assert s'.hist[conn'.base..conn'.from] == s.hist[conn'.base..conn'.from];
      }
    }
  }

  /** Apart from its own snapshot, nothing moves a client's cut. */
  lemma UncutStep(s: State, a: Action, c: ClientId, conn': Conn)
    requires c in s.conns && Evolves(s, a, c, conn')
    requires !(Enabled(s, a) && a.ByClient? && a.c == c && a.a.Snapshot?)
    ensures var conn := s.conns[c];
            && conn'.base == conn.base && conn'.from == conn.from && conn'.preroll == conn.preroll
            && (conn'.serve.Snapshotted? ==> conn.serve.Snapshotted?)
            && (Unsnapped(conn'.serve) <==> Unsnapped(conn.serve))
  {
    hide ConnAfter;
    if Enabled(s, a) && a.ByClient? && a.c == c {
      PhaseStep(s, c in s.registered, s.conns[c], a.a);
    }
  }

  lemma FeedOffersSound(s: State, t: Feeder, f: FeedAction, c: ClientId)
    requires RegistryOk(s) && SnapshotsOk(s) && FeedEnabled(s, t, f)
    requires c in s.conns && OffersSound(s, c)
    ensures c in FeedNext(s, t, f).conns && OffersSound(FeedNext(s, t, f), c)
  {
    hide Written;
    hide LastN;
    assert SnapshotOk(s, s.conns[c]);
  }

  lemma ClientOffersSound(s: State, a: Action, c: ClientId)
    requires LockOk(s) && RegistryOk(s) && LocalsOk(s) && Enabled(s, a) && !a.ByFeeder?
    requires c in s.conns ==> OffersSound(s, c)
    requires c in Step(s, a).conns
    ensures OffersSound(Step(s, a), c)
  {
    hide Step;
    hide Written;
    hide ConnAfter;
    hide Offer;
    hide FlagsFollowBytes;
    hide Conserved;
    StepShape(s, a);
    SharedShape(s, a);
    var conn' := Step(s, a).conns[c];
    assert Evolves(s, a, c, conn');
    if c in s.conns && a.ByClient? && a.c == c {
      PhaseStep(s, c in s.registered, s.conns[c], a.a);
      if a.a.Snapshot? {
        assert LocalOk(s.hist, s.threshold, s.conns[c]);
        assert c !in s.registered;
      } else {
        UncutStep(s, a, c, conn');
      }
    }
  }

  lemma FeedOffersComplete(s: State, t: Feeder, f: FeedAction, c: ClientId)
    requires RegistryOk(s) && FeedEnabled(s, t, f)
    requires c in s.registered && !s.conns[c].chan.closed && OffersComplete(s, c)
    ensures OffersComplete(FeedNext(s, t, f), c)
  {
    hide LastN;
    hide Offer;
    var s' := FeedNext(s, t, f);
    forall k | s'.conns[c].from <= k < |s'.hist| ensures k in s'.conns[c].offered || Pending(s', c, k) {
      if k == |s.hist| {
        assert s'.feeds[t].Fanning? && s'.feeds[t].id == k && c in s'.feeds[t].remaining;
      } else if k !in s.conns[c].offered {
        assert Pending(s, c, k);
        var u :| u in s.feeds && s.feeds[u].Fanning? && s.feeds[u].id == k && c in s.feeds[u].remaining;
        if u == t {
          assert f.OfferTo?;
          assert f.c != c ==> s'.feeds[u].Fanning? && s'.feeds[u].id == k && c in s'.feeds[u].remaining;
        } else {
          assert s'.feeds[u] == s.feeds[u];
        }
      }
    }
  }

  lemma ClientOffersComplete(s: State, a: Action, c: ClientId)
    requires LockOk(s) && RegistryOk(s) && SnapshotsOk(s) && Enabled(s, a) && !a.ByFeeder?
    requires c in s.registered && !s.conns[c].chan.closed ==> OffersComplete(s, c)
    requires c in Step(s, a).registered && c in Step(s, a).conns && !Step(s, a).conns[c].chan.closed
    ensures OffersComplete(Step(s, a), c)
  {
    hide Step;
    hide Written;
    hide ConnAfter;
    StepShape(s, a);
    SharedShape(s, a);
    var s' := Step(s, a);
    assert Evolves(s, a, c, s'.conns[c]);
    assert c in s.conns;
    if a.ByClient? && a.c == c {
      PhaseStep(s, c in s.registered, s.conns[c], a.a);
      if a.a.Register? {
        assert SnapshotOk(s, s.conns[c]);
      } else {
        assert c in s.registered && !Unattached(s.conns[c].serve);
        UncutStep(s, a, c, s'.conns[c]);
      }
    }
    forall k | s'.conns[c].from <= k < |s'.hist| ensures k in s'.conns[c].offered || Pending(s', c, k) {
      assert k in s.conns[c].offered || Pending(s, c, k);
    }
  }

  lemma OffersStep(s: State, a: Action)
    requires Inv(s)
    requires Step(s, a).registered <= Step(s, a).conns.Keys
    ensures OffersOk(Step(s, a))
  {
    hide OffersSound;
    hide OffersComplete;
    hide Offer;
    hide ConnAfter;
    hide LocalsOk;
    hide SnapshotsOk;
    if Enabled(s, a) {
      var s' := Step(s, a);
      forall c <- s'.conns ensures OffersSound(s', c) {
        if a.ByFeeder? {
          FeedOffersSound(s, a.t, a.f, c);
        } else {
          ClientOffersSound(s, a, c);
        }
      }
      forall c <- s'.registered | !s'.conns[c].chan.closed ensures OffersComplete(s', c) {
        if a.ByFeeder? {
          FeedOffersComplete(s, a.t, a.f, c);
        } else {
          ClientOffersComplete(s, a, c);
        }
      }
    }
  }

  lemma InvStep(s: State, a: Action)
    requires Inv(s)
    ensures Inv(Step(s, a))
  {
    hide LockOk;
    hide RingOk;
    hide LocalsOk;
    hide SnapshotsOk;
    hide OffersOk;
    hide Step;
    LockStep(s, a);
    RingStep(s, a);
    RegistryStep(s, a);
    LocalsStep(s, a);
    SnapshotsStep(s, a);
    OffersStep(s, a);
  }

  lemma InvInit(size: nat, threshold: nat)
    requires 0 < threshold
    ensures Inv(Init(size, threshold))
  {
    assert Init(size, threshold).hist[0..] == [];
  }

  /** Whatever the schedule, the mount keeps its invariant. */
  lemma {:induction false} Safety(size: nat, threshold: nat, acts: seq<Action>)
    requires 0 < threshold
    ensures Inv(Exec(Init(size, threshold), acts))
    decreases |acts|
  {
    if acts == [] {
      InvInit(size, threshold);
    } else {
      Safety(size, threshold, acts[..|acts| - 1]);
      InvStep(Exec(Init(size, threshold), acts[..|acts| - 1]), acts[|acts| - 1]);
    }
  }

  /** In every run, a client that asks for `n` bytes is cut in with the newest `n` bytes written since the last clear,
      or with the whole ring if it is smaller. */
  lemma SnapshotInFull(size: nat, threshold: nat, acts: seq<Action>, c: ClientId, n: nat)
    requires 0 < threshold && Enabled(Exec(Init(size, threshold), acts), ByClient(c, Snapshot(n)))
    ensures var s := Exec(Init(size, threshold), acts);
            var t := Step(s, ByClient(c, Snapshot(n)));
            && c in t.conns && s.cleared <= |s.hist|
            && t.conns[c].preroll == LastN(Repeat(0, size) + Flatten(s.hist[s.cleared..]), if n < size then n else size)
            && |t.conns[c].preroll| == if n < size then n else size
  {
    hide Exec, Flatten, Written;
    Safety(size, threshold, acts);
    ExecConstants(Init(size, threshold), acts);
    var s := Exec(Init(size, threshold), acts);
    RingIsHistoryWindow(size, s.hist[s.cleared..]);
  }

  lemma {:induction false} ExecConstants(s: State, acts: seq<Action>)
    ensures Exec(s, acts).size == s.size && Exec(s, acts).threshold == s.threshold
    decreases |acts|
  {
    if acts != [] {
      hide Step;
      ExecConstants(s, acts[..|acts| - 1]);
      StepShape(Exec(s, acts[..|acts| - 1]), acts[|acts| - 1]);
    }
  }
}
