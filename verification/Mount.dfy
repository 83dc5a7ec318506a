/** One audio mount of internal/broadcast/server.go: byte ring, bounded per-client channels, listener count. */
module Mounts {
  import opened Seqs
  import opened Rings

  type Chunk = seq<byte>

  const CHANNEL_CAPACITY: nat := 256

  /** A client's bounded channel together with its drop counter. */
  datatype Channel<T> = Channel(queue: seq<T>, closed: bool, skipped: nat)

  /** Non-blocking send: queued while there is room, counted as skipped otherwise, nothing once closed. */
  function Offer<T>(c: Channel<T>, x: T): (r: Channel<T>)
    ensures |c.queue| <= CHANNEL_CAPACITY ==> |r.queue| <= CHANNEL_CAPACITY
    ensures r.closed == c.closed
    ensures c.closed ==> r == c
    ensures !c.closed ==> |r.queue| + r.skipped == |c.queue| + c.skipped + 1
  {
    if c.closed then c
    else if |c.queue| < CHANNEL_CAPACITY then c.(queue := c.queue + [x])
    else c.(skipped := c.skipped + 1)
  }

  function OfferAll<T>(c: Channel<T>, xs: seq<T>): (r: Channel<T>)
  {
    if xs == [] then c else Offer(OfferAll(c, xs[..|xs| - 1]), xs[|xs| - 1])
  }

  /** A burst fills the channel with its oldest chunks and skips exactly the overflow. */
  lemma {:induction false} BurstOverflow<T>(c: Channel<T>, xs: seq<T>)
    requires !c.closed && |c.queue| <= CHANNEL_CAPACITY
    ensures var room := CHANNEL_CAPACITY - |c.queue|;
            var kept := if |xs| <= room then |xs| else room;
            OfferAll(c, xs) == Channel(c.queue + xs[..kept], false, c.skipped + |xs| - kept)
    decreases |xs|
  {
    if xs == [] {
      assert c.queue + xs[..0] == c.queue;
    } else {
      var rest := xs[..|xs| - 1];
      BurstOverflow(c, rest);
      if |xs| <= CHANNEL_CAPACITY - |c.queue| {
        assert c.queue + rest[..|rest|] + [xs[|xs| - 1]] == c.queue + xs[..|xs|];
      } else {
        assert rest[..CHANNEL_CAPACITY - |c.queue|] == xs[..CHANNEL_CAPACITY - |c.queue|];
      }
    }
  }

  /** Delivered bytes once no further whole frame fits under `limit`. */
  function Filled(out: nat, frame: nat, limit: int): (r: nat)
    requires 0 < frame
    ensures out <= r && limit < r + frame
    ensures out < r ==> r <= limit
    decreases limit - out
  {
    if out + frame <= limit then Filled(out + frame, frame, limit) else out
  }

  /** How many frames that takes. */
  function FramesDue(out: nat, frame: nat, limit: int): (n: nat)
    requires 0 < frame
    decreases limit - out
  {
    if out + frame <= limit then 1 + FramesDue(out + frame, frame, limit) else 0
  }

  lemma DueStep(out: nat, frame: nat, limit: int)
    requires 0 < frame
    ensures out + frame <= limit ==>
              && Filled(out, frame, limit) == Filled(out + frame, frame, limit)
              && FramesDue(out, frame, limit) == 1 + FramesDue(out + frame, frame, limit)
    ensures limit < out + frame ==> Filled(out, frame, limit) == out && FramesDue(out, frame, limit) == 0
  {
  }

  lemma {:induction false} FilledInWholeFrames(out: nat, frame: nat, limit: int)
    requires 0 < frame
    ensures Filled(out, frame, limit) == out + FramesDue(out, frame, limit) * frame
    decreases limit - out
  {
    if out + frame <= limit {
      FilledInWholeFrames(out + frame, frame, limit);
    }
  }

  class Client {
    var queue: seq<Chunk>
    var closed: bool
    var skipped: nat
    var established: bool

    constructor ()
      ensures Chan() == Channel([], false, 0) && !established
    {
      queue, closed, skipped, established := [], false, 0, false;
    }

    function Chan(): Channel<Chunk>
      reads this
    {
      Channel(queue, closed, skipped)
    }

    /** The per-client section of Broadcast: send without blocking, or count a skip. */
    method TrySend(data: Chunk)
      modifies this`queue, this`skipped
      ensures Chan() == Offer(old(Chan()), data)
    {
      if !closed {
        if |queue| < CHANNEL_CAPACITY {
          queue := queue + [data];
        } else {
          skipped := skipped + 1;
        }
      }
    }
  }

  class Mount {
    const bitrate: int
    const buffer: RingBuffer
    const bridged: bool          // the mount's format has a silent frame
    var clients: set<Client>
    var inputCount: int
    var inputDone: bool          // the channel of that name is closed
    var baseline: Option<nat>    // where the silence bridge starts its budget, once it runs
    var lastFedAt: Option<real>
    var establishedCount: int
    var bytesOut: nat

    ghost predicate Valid()
      reads buffer, buffer.data
    {
      buffer.Valid()
    }

    constructor (bitrate: int, bridged: bool)
      ensures Valid() && fresh(buffer) && fresh(buffer.data)
      ensures this.bridged == bridged && !inputDone && baseline == None
      ensures this.bitrate == bitrate && clients == {} && inputCount == 0 && lastFedAt == None
      ensures establishedCount == 0 && bytesOut == 0
      ensures buffer.size == (if bitrate < 32 then 20000 else bitrate * 625) && buffer.Recent() == Repeat(0, buffer.size)
    {
      this.bitrate, this.bridged, inputDone, baseline := bitrate, bridged, false, None;
      var bufferSize := bitrate * 1000 / 8 * 5;
      if bufferSize < 20000 {
        bufferSize := 20000;
      }
      buffer := new RingBuffer(bufferSize);
      clients, inputCount, lastFedAt, establishedCount, bytesOut := {}, 0, None, 0, 0;
    }

    /** One chunk reaches the ring and every registered client, each in its own channel. */
    method Broadcast(data: Chunk)
      requires Valid()
      modifies this`bytesOut, buffer`pos, buffer.data, clients
      ensures Valid()
      ensures bytesOut == old(bytesOut) + |data|
      ensures buffer.Recent() == LastN(old(buffer.Recent()) + data, buffer.size)
      ensures forall c <- clients :: c.established == old(c.established)
      ensures forall c <- clients :: c.Chan() == if data == [] then old(c.Chan()) else Offer(old(c.Chan()), data)
    {
      if |data| == 0 {
        assert buffer.Recent() + data == buffer.Recent();
        return;
      }
      bytesOut := bytesOut + |data|;
      buffer.Write(data);
      hide LastN;
      hide Offer;
      var remaining := clients;
      while remaining != {}
        modifies clients
        invariant remaining <= clients
        invariant forall c <- clients :: c.established == old(c.established)
        invariant forall c <- clients :: c.Chan() == if c in remaining then old(c.Chan()) else Offer(old(c.Chan()), data)
        decreases remaining
      {
        var c :| c in remaining;
        c.TrySend(data);
        remaining := remaining - {c};
      }
    }

    /** Snapshot of recent audio and registration as one critical section. */
    method AttachClient(c: Client, prerollBytes: int) returns (preroll: Chunk, connections: nat)
      requires Valid()
      modifies this`clients
      ensures Valid()
      ensures preroll == LastN(buffer.Recent(), if prerollBytes > 0 then prerollBytes else 0)
      ensures clients == old(clients) + {c} && connections == |clients|
    {
      preroll := [];
      if prerollBytes > 0 {
        var copied := buffer.GetRecent(prerollBytes);
        preroll := copied[..];
      }
      clients := clients + {c};
      connections := |clients|;
    }

    ghost function Channels(): map<Client, Channel<Chunk>>
      reads this`clients, clients
    {
      map c | c in clients :: c.Chan()
    }

    /** Since the ring held `was` and the channels `start`, exactly the chunks `sent` went out. */
    ghost predicate Carried(was: Chunk, start: map<Client, Channel<Chunk>>, sent: seq<Chunk>)
      requires Valid()
      reads this`clients, buffer, buffer.data, clients
    {
      && buffer.Recent() == LastN(was + Flatten(sent), buffer.size)
      && clients == start.Keys
      && forall c <- clients :: c.Chan() == OfferAll(start[c], sent)
    }

    /** Broadcast one more non-empty chunk of a longer transmission. */
    method Carry(data: Chunk, ghost was: Chunk, ghost start: map<Client, Channel<Chunk>>, ghost sent: seq<Chunk>)
      requires Valid() && data != [] && Carried(was, start, sent)
      modifies this`bytesOut, buffer`pos, buffer.data, clients
      ensures Valid() && Carried(was, start, sent + [data])
      ensures bytesOut == old(bytesOut) + |data|
    {
      Broadcast(data);
      FeedOne(sent, was, data, buffer.size);
    }

    lemma RingCarried(was: Chunk, start: map<Client, Channel<Chunk>>, sent: seq<Chunk>)
      requires Valid() && Carried(was, start, sent)
      ensures buffer.Recent() == LastN(was + Flatten(sent), buffer.size)
    {
    }

    lemma NothingCarried()
      requires Valid()
      ensures Carried(buffer.Recent(), Channels(), [])
    {
      assert LastN(buffer.Recent() + Flatten([]), buffer.size) == buffer.Recent();
    }

    /** Audio read by one feed until its reader ends. The first feed ever starts the bridge at the bytes delivered before
        its own; the last to end closes the done channel. */
    method FeedFrom(input: seq<(Chunk, real)>)
      requires Valid()
      modifies this`bytesOut, this`inputCount, this`lastFedAt, this`inputDone, this`baseline, buffer`pos, buffer.data, clients
      ensures Valid() && inputCount == old(inputCount)
      ensures inputDone <==> inputCount == 0 || old(inputDone)
      ensures baseline == if bridged && old(baseline) == None then Some(old(bytesOut)) else old(baseline)
      ensures Carried(old(buffer.Recent()), old(Channels()), Heard(input, |input|))
      ensures bytesOut == old(bytesOut) + |Flatten(Reads(input))|
      ensures buffer.Recent() == LastN(old(buffer.Recent()) + Flatten(Reads(input)), buffer.size)
      ensures forall j :: 0 <= j < |input| && LastData(input, j) ==> lastFedAt == Some(input[j].1)
      ensures (forall j :: 0 <= j < |input| ==> input[j].0 == []) ==> lastFedAt == old(lastFedAt)
    {
      hide Carried, Heard, LastHeardAt, Flatten, OfferAll, LastN, LastData, Reads;
      if bridged && baseline == None {
        baseline := Some(bytesOut);
      }
      inputCount := inputCount + 1;
      if inputCount == 1 {
        inputDone := false;
      }
      ghost var was, start, before := buffer.Recent(), Channels(), lastFedAt;
      ReadAll(input);
      HeardInFull(input, |input|);
      assert Reads(input)[..|input|] == Reads(input);
      RingCarried(was, start, Heard(input, |input|));
      HeardWhen(before, input);
      inputCount := inputCount - 1;
      if inputCount == 0 && !inputDone {
        inputDone := true;
      }
    }

    /** The read loop: every non-empty read is broadcast and dates the feed. */
    method ReadAll(input: seq<(Chunk, real)>)
      requires Valid()
      modifies this`bytesOut, this`lastFedAt, buffer`pos, buffer.data, clients
      ensures Valid()
      ensures Carried(old(buffer.Recent()), old(Channels()), Heard(input, |input|))
      ensures bytesOut == old(bytesOut) + |Flatten(Heard(input, |input|))|
      ensures lastFedAt == LastHeardAt(old(lastFedAt), input, |input|)
    {
      hide Carried, OfferAll, LastN;
      ghost var was, start, fed := buffer.Recent(), Channels(), [];
      NothingCarried();
      assert Flatten(fed) == [];
      for i := 0 to |input|
        invariant Valid()
        invariant fed == Heard(input, i) && lastFedAt == LastHeardAt(old(lastFedAt), input, i)
        invariant Carried(was, start, fed)
        invariant bytesOut == old(bytesOut) + |Flatten(fed)|
      {
        var data := input[i].0;
        if |data| > 0 {
          Carry(data, was, start, fed);
          lastFedAt := Some(input[i].1);
          FlattenPush(fed, data);
          fed := fed + [data];
        }
      }
    }

    ghost function Listeners(): set<Client>
      reads this`clients, clients
    {
      set c | c in clients && c.established
    }

    /** How far the counter is from the number of listed flagged clients: zero when it is right. */
    ghost function Excess(): int
      reads this`clients, this`establishedCount, clients
    {
      establishedCount - |Listeners()|
    }

    /** The client has drained the threshold: it now counts as a listener. A client that is listed and counted for the
        first time keeps the counter right; one that Close has dropped, or that counts twice, makes it one too high. */
    method Establish(c: Client) returns (listeners: int)
      modifies this`establishedCount, c`established
      ensures c.established && listeners == establishedCount == old(establishedCount) + 1
      ensures Excess() == old(Excess()) + if c in clients && !old(c.established) then 0 else 1
    {
      assert c in clients && !c.established ==> c !in Listeners();
      ghost var was := Listeners();
      c.established := true;
      establishedCount := establishedCount + 1;
      listeners := establishedCount;
      assert Listeners() == if c in clients then was + {c} else was;
    }

    /** Deferred cleanup after the channel was closed; reports whether a disconnect must be published. */
    method Forget(c: Client) returns (wasEstablished: bool)
      modifies this`clients, this`establishedCount
      ensures clients == old(clients) - {c}
      ensures wasEstablished <==> c in old(clients) && c.established
      ensures establishedCount == old(establishedCount) - (if wasEstablished then 1 else 0)
      ensures Excess() == old(Excess())
    {
      var present := c in clients;
      ghost var was := Listeners();
      clients := clients - {c};
      wasEstablished := present && c.established;
      if wasEstablished {
        establishedCount := establishedCount - 1;
        assert was == Listeners() + {c} && c !in Listeners();
      } else {
        assert was == Listeners();
      }
    }

    method ClearBuffer()
      requires Valid()
      modifies buffer`pos, buffer.data
      ensures Valid() && buffer.Recent() == Repeat(0, buffer.size)
    {
      buffer.Clear();
    }

    /** A gap the silence bridge may fill: fed once, no live input, someone connected, grace elapsed. */
    predicate InGap(now: real, grace: real)
      reads this`lastFedAt, this`inputCount, this`clients
    {
      lastFedAt.Some? && inputCount == 0 && clients != {} && now - lastFedAt.value > grace
    }

    /** The bridge's inner loop: emit silence while in a gap and a whole frame still fits under `limit`. */
    method FillGap(frame: Chunk, limit: int, now: real, grace: real) returns (emitted: bool)
      requires Valid() && frame != [] && InGap(now, grace)
      modifies this`bytesOut, buffer`pos, buffer.data, clients
      ensures Valid()
      ensures bytesOut == Filled(old(bytesOut), |frame|, limit)
      ensures Carried(old(buffer.Recent()), old(Channels()), Repeat(frame, FramesDue(old(bytesOut), |frame|, limit)))
      ensures emitted <==> FramesDue(old(bytesOut), |frame|, limit) > 0
    {
      emitted := false;
      ghost var out, was, sent, start := bytesOut, buffer.Recent(), [], Channels();
      NothingCarried();
      hide Carried;
      hide Filled;
      hide FramesDue;
      while InGap(now, grace) && bytesOut + |frame| <= limit
        invariant Valid() && Carried(was, start, sent)
        invariant Filled(bytesOut, |frame|, limit) == Filled(out, |frame|, limit)
        invariant FramesDue(out, |frame|, limit) == |sent| + FramesDue(bytesOut, |frame|, limit)
        invariant forall i :: 0 <= i < |sent| ==> sent[i] == frame
        invariant emitted <==> sent != []
        decreases limit - bytesOut
      {
        DueStep(bytesOut, |frame|, limit);
        Carry(frame, was, start, sent);
        sent := sent + [frame];
        emitted := true;
      }
      DueStep(bytesOut, |frame|, limit);
      assert sent == Repeat(frame, |sent|);
    }
  }

  lemma FlattenPush(sent: seq<Chunk>, data: Chunk)
    ensures Flatten(sent + [data]) == Flatten(sent) + data
  {
    assert (sent + [data])[..|sent|] == sent;
  }

  /** One more chunk in every summary a feed keeps. */
  lemma FeedOne(fed: seq<Chunk>, was: Chunk, data: Chunk, size: nat)
    ensures Flatten(fed + [data]) == Flatten(fed) + data
    ensures LastN(LastN(was + Flatten(fed), size) + data, size) == LastN(was + Flatten(fed + [data]), size)
    ensures forall c: Channel<Chunk> {:trigger OfferAll(c, fed)} :: OfferAll(c, fed + [data]) == Offer(OfferAll(c, fed), data)
  {
    assert (fed + [data])[..|fed|] == fed;
    LastNAppend(was + Flatten(fed), data, size);
    assert was + Flatten(fed) + data == was + Flatten(fed + [data]);
  }

  /** The chunks among the first `n` reads that carried data. */
  function Heard(input: seq<(Chunk, real)>, n: nat): (r: seq<Chunk>)
    requires n <= |input|
  {
    if n == 0 then []
    else if |input[n - 1].0| > 0 then Heard(input, n - 1) + [input[n - 1].0]
    else Heard(input, n - 1)
  }

  /** When data was last heard, starting from `before`. */
  function LastHeardAt(before: Option<real>, input: seq<(Chunk, real)>, n: nat): Option<real>
    requires n <= |input|
  {
    if n == 0 then before
    else if |input[n - 1].0| > 0 then Some(input[n - 1].1)
    else LastHeardAt(before, input, n - 1)
  }

  function Reads(input: seq<(Chunk, real)>): (r: seq<Chunk>)
    ensures |r| == |input| && forall i :: 0 <= i < |input| ==> r[i] == input[i].0
  {
    seq(|input|, i requires 0 <= i < |input| => input[i].0)
  }

  /** Read `j` carried data and no later one did. */
  predicate LastData(input: seq<(Chunk, real)>, j: nat)
    requires j < |input|
  {
    input[j].0 != [] && forall k :: j < k < |input| ==> input[k].0 == []
  }

  /** Nothing read is left out. */
  lemma {:induction false} HeardInFull(input: seq<(Chunk, real)>, n: nat)
    requires n <= |input|
    ensures Flatten(Heard(input, n)) == Flatten(Reads(input)[..n])
    decreases n
  {
    if n > 0 {
      HeardInFull(input, n - 1);
      assert Reads(input)[..n] == Reads(input)[..n - 1] + [input[n - 1].0];
      FlattenPush(Reads(input)[..n - 1], input[n - 1].0);
      FlattenPush(Heard(input, n - 1), input[n - 1].0);
    }
  }

  /** The chunks that go out are the non-empty reads, each as often as it was read and in the order they were read. */
  lemma {:induction false} HeardExactly(input: seq<(Chunk, real)>, n: nat, x: Chunk)
    requires n <= |input|
    ensures IsSubseq(Heard(input, n), Reads(input)[..n])
    ensures multiset(Heard(input, n))[x] == if x == [] then 0 else multiset(Reads(input)[..n])[x]
    decreases n
  {
    hide IsSubseq;
    if n == 0 {
      NothingIsSubseq(Reads(input)[..n]);
    } else {
      var last := input[n - 1].0;
      HeardExactly(input, n - 1, x);
      assert Reads(input)[..n] == Reads(input)[..n - 1] + [last];
      SubseqStep(Heard(input, n - 1), Heard(input, n), Reads(input)[..n - 1], Reads(input)[..n], last);
    }
  }

  lemma {:induction false} HeardLast(before: Option<real>, input: seq<(Chunk, real)>, n: nat, j: nat)
    requires j < n <= |input| && input[j].0 != [] && forall k :: j < k < n ==> input[k].0 == []
    ensures LastHeardAt(before, input, n) == Some(input[j].1)
    decreases n
  {
    if j < n - 1 {
      HeardLast(before, input, n - 1, j);
    }
  }

  lemma {:induction false} HeardNothing(before: Option<real>, input: seq<(Chunk, real)>, n: nat)
    requires n <= |input| && forall k :: 0 <= k < n ==> input[k].0 == []
    ensures LastHeardAt(before, input, n) == before
    decreases n
  {
    if n > 0 {
      HeardNothing(before, input, n - 1);
    }
  }

  lemma HeardWhen(before: Option<real>, input: seq<(Chunk, real)>)
    ensures forall j :: 0 <= j < |input| && LastData(input, j) ==> LastHeardAt(before, input, |input|) == Some(input[j].1)
    ensures (forall j :: 0 <= j < |input| ==> input[j].0 == []) ==> LastHeardAt(before, input, |input|) == before
  {
    hide LastHeardAt;
    forall j | 0 <= j < |input| && LastData(input, j) ensures LastHeardAt(before, input, |input|) == Some(input[j].1) {
      HeardLast(before, input, |input|, j);
    }
    if forall j :: 0 <= j < |input| ==> input[j].0 == [] {
      HeardNothing(before, input, |input|);
    }
  }
}
