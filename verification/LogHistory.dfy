/** What the log buffer remembers of everything ever added to it. */
module LogHistory {
  import opened Seqs
  import opened LogQueries
  import opened LogBuffers

  datatype Op = Add(e: Entry) | Clear

  /** Mirroring is switched on before the first entry. */
  function Start(capacity: nat, stationCapacity: nat, maxStations: int): State
  {
    WithStations(State(capacity, [], map[], 0, 0), stationCapacity, maxStations)
  }

  function Applied(s: State, op: Op): State
  {
    match op
    case Add(e) => Added(s, e)
    case Clear => s.(main := [])
  }

  function Run(s: State, ops: seq<Op>): State
    decreases |ops|
  {
    if ops == [] then s
    else
      Applied(Run(s, ops[..|ops| - 1]), ops[|ops| - 1])
  }

  /** Entries added since the last Clear. */
  function SinceClear(ops: seq<Op>): seq<Entry>
  {
    if ops == [] then []
    else if ops[|ops| - 1].Clear? then []
    else SinceClear(ops[..|ops| - 1]) + [ops[|ops| - 1].e]
  }

  /** All entries of one station, cleared or not. */
  function OfStation(ops: seq<Op>, sid: string): (r: seq<Entry>)
  {
    if ops == [] then []
    else
      var last := ops[|ops| - 1];
      OfStation(ops[..|ops| - 1], sid) + if last.Add? && last.e.station == sid then [last.e] else []
  }

  /** The stations that logged something, in order of first appearance. */
  function StationOrder(ops: seq<Op>): (r: seq<string>)
    ensures Distinct(r)
    ensures "" !in r
  {
    if ops == [] then []
    else
      var before, last := StationOrder(ops[..|ops| - 1]), ops[|ops| - 1];
      if last.Add? && last.e.station != "" && last.e.station !in before then before + [last.e.station] else before
  }

  lemma {:induction false} OrderIsWhoLogged(ops: seq<Op>, sid: string)
    requires sid != ""
    ensures sid in StationOrder(ops) <==> OfStation(ops, sid) != []
    decreases |ops|
  {
    if ops != [] {
      OrderIsWhoLogged(ops[..|ops| - 1], sid);
    }
  }

  /** The main ring is a window on what was added since the last Clear. */
  lemma {:induction false} MainIsRecentHistory(capacity: nat, stationCapacity: nat, maxStations: int, ops: seq<Op>)
    ensures var s := Run(Start(capacity, stationCapacity, maxStations), ops);
            s.capacity == capacity && s.main == LastN(SinceClear(ops), capacity)
    decreases |ops|
  {
    if ops != [] {
      MainIsRecentHistory(capacity, stationCapacity, maxStations, ops[..|ops| - 1]);
      if ops[|ops| - 1].Add? {
        LastNAppend(SinceClear(ops[..|ops| - 1]), [ops[|ops| - 1].e], capacity);
      }
    }
  }

  /** The first `n` stations to log. */
  function FirstStations(ops: seq<Op>, n: nat): (r: set<string>)
  {
    var order := StationOrder(ops);
    Elements(order[..if |order| < n then |order| else n])
  }

  lemma FirstCount(order: seq<string>, n: nat)
    requires Distinct(order) && n <= |order|
    ensures |Elements(order[..n])| == n
  {
    hide Elements;
    DistinctCard(order[..n]);
  }

  /** Who is served after one more entry: the same, plus a newcomer while there is room. */
  lemma FirstStationsStep(ops: seq<Op>, n: nat)
    requires ops != []
    ensures var before, last := ops[..|ops| - 1], ops[|ops| - 1];
            && |FirstStations(before, n)| == (if |StationOrder(before)| < n then |StationOrder(before)| else n)
            && FirstStations(ops, n)
               == if last.Add? && last.e.station != "" && last.e.station !in StationOrder(before) && |StationOrder(before)| < n
                  then FirstStations(before, n) + {last.e.station} else FirstStations(before, n)
  {
    var before, last := ops[..|ops| - 1], ops[|ops| - 1];
    var order := StationOrder(before);
    FirstCount(order, if |order| < n then |order| else n);
    if last.Add? {
      FirstPush(order, last.e.station, n);
    }
    hide Elements;
  }

  lemma FirstPush(order: seq<string>, sid: string, n: nat)
    ensures var longer := order + [sid];
            Elements(longer[..if |longer| < n then |longer| else n])
            == if |order| < n then Elements(order[..if |order| < n then |order| else n]) + {sid}
               else Elements(order[..if |order| < n then |order| else n])
  {
    var longer := order + [sid];
    if |order| < n {
      assert longer[..|longer|] == order[..|order|] + [sid];
    } else {
      assert longer[..n] == order[..n];
    }
  }

  /** A station is mirrored exactly if it was among the first `maxStations` to log, and its mirror is a window on
      all its entries, whatever the main ring evicted or Clear removed. */
  predicate MirrorsHistory(s: State, stationCapacity: nat, maxStations: nat, ops: seq<Op>)
  {
    && s.stationCapacity == stationCapacity && s.maxStations == maxStations
    && s.mirrors.Keys == FirstStations(ops, maxStations)
    && (forall sid <- s.mirrors :: s.mirrors[sid] == Mirror(stationCapacity, LastN(OfStation(ops, sid), stationCapacity)))
  }

  lemma {:induction false} MirrorsAreHistory(capacity: nat, stationCapacity: nat, maxStations: nat, ops: seq<Op>)
    requires 0 < stationCapacity && 0 < maxStations
    ensures MirrorsHistory(Run(Start(capacity, stationCapacity, maxStations), ops), stationCapacity, maxStations, ops)
    decreases |ops|
  {
    if ops == [] {
      assert FirstStations(ops, maxStations) == {};
    } else {
      var before := ops[..|ops| - 1];
      MirrorsAreHistory(capacity, stationCapacity, maxStations, before);
      MirrorStep(Run(Start(capacity, stationCapacity, maxStations), before), stationCapacity, maxStations, ops);
    }
  }

  lemma MirrorStep(s: State, stationCapacity: nat, maxStations: nat, ops: seq<Op>)
    requires 0 < stationCapacity && 0 < maxStations && ops != []
    requires MirrorsHistory(s, stationCapacity, maxStations, ops[..|ops| - 1])
    ensures MirrorsHistory(Applied(s, ops[|ops| - 1]), stationCapacity, maxStations, ops)
  {
    hide FirstStations;
    hide StationOrder;
    var before, last := ops[..|ops| - 1], ops[|ops| - 1];
    var s' := Applied(s, last);
    FirstStationsStep(ops, maxStations);
    assert |s.mirrors| == |s.mirrors.Keys|;
    if last.Add? && last.e.station != "" {
      OrderIsWhoLogged(before, last.e.station);
      ServedHaveLogged(before, maxStations, last.e.station);
    }
    assert s'.mirrors.Keys == FirstStations(ops, maxStations);
    forall sid | sid in s'.mirrors ensures s'.mirrors[sid] == Mirror(stationCapacity, LastN(OfStation(ops, sid), stationCapacity)) {
      OneMirror(s, stationCapacity, maxStations, ops, sid);
    }
  }

  /** One mirror after one operation. */
  lemma OneMirror(s: State, stationCapacity: nat, maxStations: nat, ops: seq<Op>, sid: string)
    requires 0 < stationCapacity && 0 < maxStations && ops != []
    requires MirrorsHistory(s, stationCapacity, maxStations, ops[..|ops| - 1])
    requires sid in Applied(s, ops[|ops| - 1]).mirrors
    ensures Applied(s, ops[|ops| - 1]).mirrors[sid] == Mirror(stationCapacity, LastN(OfStation(ops, sid), stationCapacity))
  {
    hide FirstStations;
    hide StationOrder;
    hide LastN;
    var before, last := ops[..|ops| - 1], ops[|ops| - 1];
    ServedHaveLogged(before, maxStations, sid);
    if last.Add? && last.e.station == sid {
      LastNAppend(OfStation(before, sid), [last.e], stationCapacity);
      if sid !in s.mirrors {
        assert |s.mirrors| == |s.mirrors.Keys|;
        ServedCount(before, maxStations);
        OrderIsWhoLogged(before, sid);
        assert OfStation(ops, sid) == [last.e];
      } else {
        assert OfStation(ops, sid) == OfStation(before, sid) + [last.e];
      }
    } else {
      assert OfStation(ops, sid) == OfStation(before, sid);
    }
  }

  lemma ServedCount(ops: seq<Op>, n: nat)
    ensures |FirstStations(ops, n)| == if |StationOrder(ops)| < n then |StationOrder(ops)| else n
  {
    FirstCount(StationOrder(ops), if |StationOrder(ops)| < n then |StationOrder(ops)| else n);
  }

  lemma ServedHaveLogged(ops: seq<Op>, n: nat, sid: string)
    ensures sid in FirstStations(ops, n) ==> sid in StationOrder(ops)
    ensures sid in StationOrder(ops) && |StationOrder(ops)| < n ==> sid in FirstStations(ops, n)
  {
    assert StationOrder(ops)[..|StationOrder(ops)|] == StationOrder(ops);
  }

  /** A query for a mirrored station answers from that station's own history: filter, then order, then limit, over its
      last `stationCapacity` entries ever added. */
  lemma StationQuery(capacity: nat, stationCapacity: nat, maxStations: nat, ops: seq<Op>, p: Params)
    requires 0 < stationCapacity && 0 < maxStations && p.station in FirstStations(ops, maxStations)
    ensures var (entries, q) := Source(Run(Start(capacity, stationCapacity, maxStations), ops), p);
            Answer(entries, q) == Answer(LastN(OfStation(ops, p.station), stationCapacity), p)
  {
    hide Run;
    MirrorsAreHistory(capacity, stationCapacity, maxStations, ops);
    ServedHaveLogged(ops, maxStations, p.station);
    var h := LastN(OfStation(ops, p.station), stationCapacity);
    forall i | 0 <= i < |h| ensures h[i].station == p.station {
      assert h[i] in h && h[i] in OfStation(ops, p.station);
      AllOfStation(ops, p.station);
    }
    StationFilterRedundant(h, p);
    hide FirstStations;
    hide Filtered;
  }

  lemma {:induction false} AllOfStation(ops: seq<Op>, sid: string)
    ensures forall e <- OfStation(ops, sid) :: e.station == sid
    decreases |ops|
  {
    if ops != [] {
      AllOfStation(ops[..|ops| - 1], sid);
    }
  }

  /** In entries of one station the station filter drops nothing. */
  lemma {:induction false} StationFilterRedundant(s: seq<Entry>, p: Params)
    requires forall i :: 0 <= i < |s| ==> s[i].station == p.station
    ensures Filtered(s, p.(station := "")) == Filtered(s, p)
    decreases |s|
  {
    hide Found;
    if s != [] {
      StationFilterRedundant(s[..|s| - 1], p);
    }
  }

  /** Any other query, for a station without a mirror included, sees the main ring only. */
  lemma OtherQuery(capacity: nat, stationCapacity: nat, maxStations: nat, ops: seq<Op>, p: Params)
    requires 0 < stationCapacity && 0 < maxStations && p.station !in FirstStations(ops, maxStations)
    ensures Source(Run(Start(capacity, stationCapacity, maxStations), ops), p) == (LastN(SinceClear(ops), capacity), p)
  {
    hide Run;
    MirrorsAreHistory(capacity, stationCapacity, maxStations, ops);
    MainIsRecentHistory(capacity, stationCapacity, maxStations, ops);
    hide FirstStations;
  }

  // ---------------------------------------------------------------- Clear and the mirrors

  /** Entries of one station added since the last Clear. */
  function SinceClearOf(ops: seq<Op>, sid: string): seq<Entry>
  {
    if ops == [] then []
    else
      var last := ops[|ops| - 1];
      if last.Clear? then []
      else SinceClearOf(ops[..|ops| - 1], sid) + if last.e.station == sid then [last.e] else []
  }

  /** Entries of one station that the last Clear was meant to remove. */
  function ClearedOf(ops: seq<Op>, sid: string): seq<Entry>
  {
    if ops == [] then []
    else if ops[|ops| - 1].Clear? then OfStation(ops[..|ops| - 1], sid)
    else ClearedOf(ops[..|ops| - 1], sid)
  }

  lemma {:induction false} ClearSplits(ops: seq<Op>, sid: string)
    ensures OfStation(ops, sid) == ClearedOf(ops, sid) + SinceClearOf(ops, sid)
    decreases |ops|
  {
    if ops != [] {
      ClearSplits(ops[..|ops| - 1], sid);
    }
  }

  lemma WindowForgetsIff<T>(cleared: seq<T>, since: seq<T>, n: nat)
    ensures LastN(cleared + since, n) == LastN(since, n) <==> n <= |since| || cleared == []
  {
    if cleared == [] {
      assert cleared + since == since;
    } else if n <= |since| {
      assert (cleared + since)[|cleared + since| - n..] == since[|since| - n..];
    } else {
      assert |LastN(cleared + since, n)| > |since|;
    }
  }

  /** A mirror shows the station's entries since the last Clear if and only if the station has refilled it since then, or
      had logged nothing before. Otherwise it still holds cleared entries. */
  lemma MirrorForgetsIff(capacity: nat, stationCapacity: nat, maxStations: nat, ops: seq<Op>, sid: string)
    requires 0 < stationCapacity && 0 < maxStations && sid in FirstStations(ops, maxStations)
    ensures var s := Run(Start(capacity, stationCapacity, maxStations), ops);
            && sid in s.mirrors
            && (s.mirrors[sid].entries == LastN(SinceClearOf(ops, sid), stationCapacity)
                <==> stationCapacity <= |SinceClearOf(ops, sid)| || ClearedOf(ops, sid) == [])
  {
    hide Run, FirstStations, LastN, OfStation, SinceClearOf, ClearedOf;
    MirrorsAreHistory(capacity, stationCapacity, maxStations, ops);
    ClearSplits(ops, sid);
    WindowForgetsIff(ClearedOf(ops, sid), SinceClearOf(ops, sid), stationCapacity);
  }

  /** Clear does not reach a mirror: the station's query still answers with what was logged before. */
  lemma ClearedEntriesAnswer(capacity: nat, stationCapacity: nat, maxStations: nat, e: Entry)
    requires 0 < stationCapacity && 0 < maxStations && e.station != ""
    ensures var p := Params("", "", e.station, "", None, 0, false);
            var (entries, q) := Source(Run(Start(capacity, stationCapacity, maxStations), [Add(e), Clear]), p);
            SinceClear([Add(e), Clear]) == [] && Answer(entries, q) == [e]
  {
    hide Run, Answer, Source, FirstStations;
    var ops, p := [Add(e), Clear], Params("", "", e.station, "", None, 0, false);
    LoggedOnce(e, maxStations, stationCapacity);
    StationQuery(capacity, stationCapacity, maxStations, ops, p);
    AnswerAll(e, p);
  }

  lemma LoggedOnce(e: Entry, maxStations: nat, stationCapacity: nat)
    requires 0 < stationCapacity && 0 < maxStations && e.station != ""
    ensures var ops := [Add(e), Clear];
            && SinceClear(ops) == [] && LastN(OfStation(ops, e.station), stationCapacity) == [e]
            && e.station in FirstStations(ops, maxStations)
  {
    var ops := [Add(e), Clear];
    assert ops[..1] == [Add(e)] && ops[..1][..0] == [];
    assert OfStation(ops[..1], e.station) == [e];
    assert StationOrder(ops[..1]) == [e.station];
    assert StationOrder(ops) == [e.station] && [e.station][..1] == [e.station];
  }

  lemma AnswerAll(e: Entry, p: Params)
    requires p == Params("", "", e.station, "", None, 0, false)
    ensures Answer([e], p) == [e]
  {
    assert [e][..0] == [];
    assert Filtered([e], p) == Filtered([], p) + [e];
  }
}
