/** The log buffer of internal/logbuffer/buffer.go: a ring of entries, mirrored into per-station rings. */
module LogBuffers {
  import opened Seqs
  import opened LogQueries
  import Rings

  class Ring {
    const capacity: nat
    const entries: array<Entry>
    var head: nat
    var count: nat

    ghost predicate Valid()
      reads this
    {
      && 0 < capacity == entries.Length && head < capacity && count <= capacity
      && (count < capacity ==> head == count)
    }

    /** Oldest to newest. */
    ghost function Contents(): (r: seq<Entry>)
      requires Valid()
      reads this, entries
      ensures |r| == count
    {
      if count < capacity then entries[..count] else entries[head..] + entries[..head]
    }

    constructor (capacity: int)
      ensures Valid() && Contents() == [] && fresh(entries)
      ensures this.capacity == if capacity <= 0 then 10000 else capacity
    {
      var c := if capacity <= 0 then 10000 else capacity;
      this.capacity := c;
      entries := new Entry[c];
      head, count := 0, 0;
    }

    /** The newest entry displaces the oldest once the ring is full. */
    method Add(e: Entry)
      requires Valid()
      modifies this`head, this`count, entries
      ensures Valid() && Contents() == LastN(old(Contents()) + [e], capacity)
    {
      ghost var was := Contents();
      entries[head] := e;
      head := Rings.Wrap(head + 1, capacity);
      if count < capacity {
        count := count + 1;
      }
      assert Contents() == if |was| < capacity then was + [e] else was[1..] + [e];
    }

    method GetAll() returns (result: array<Entry>)
      requires Valid()
      ensures fresh(result) && result[..] == Contents()
    {
      result := new Entry[count];
      var start := if count == capacity then head else 0;
      for i := 0 to count
        invariant forall k :: 0 <= k < i ==> result[k] == Contents()[k]
      {
        result[i] := entries[Rings.Wrap(start + i, capacity)];
      }
    }

    method Clear()
      requires Valid()
      modifies this`head, this`count
      ensures Valid() && Contents() == []
    {
      head, count := 0, 0;
    }
  }

  // ---------------------------------------------------------------- the buffer as a value

  datatype Mirror = Mirror(capacity: nat, entries: seq<Entry>)

  datatype State = State(capacity: nat, main: seq<Entry>, mirrors: map<string, Mirror>, stationCapacity: nat, maxStations: int)

  function Mirrored(s: State, e: Entry): State
  {
    if e.station == "" then s
    else if e.station in s.mirrors then
      var m := s.mirrors[e.station];
      s.(mirrors := s.mirrors[e.station := m.(entries := LastN(m.entries + [e], m.capacity))])
    else if s.stationCapacity > 0 && (s.maxStations <= 0 || |s.mirrors| < s.maxStations) then
      s.(mirrors := s.mirrors[e.station := Mirror(s.stationCapacity, LastN([e], s.stationCapacity))])
    else s
  }

  function Added(s: State, e: Entry): State
  {
    Mirrored(s.(main := LastN(s.main + [e], s.capacity)), e)
  }

  function WithStations(s: State, stationCapacity: int, maxStations: int): State
  {
    if stationCapacity <= 0 then s
    else s.(stationCapacity := stationCapacity, maxStations := if maxStations <= 0 then 200 else maxStations)
  }

  /** The entries a query looks through, and the parameters it then applies: a station's own mirror needs no
      station filter. */
  function Source(s: State, p: Params): (r: (seq<Entry>, Params))
  {
    if p.station != "" && p.station in s.mirrors then (s.mirrors[p.station].entries, p.(station := ""))
    else (s.main, p)
  }

  /** No two rings, and no two backing arrays, are shared. */
  ghost predicate Apart(ring: Ring, stations: map<string, Ring>)
  {
    && (forall s <- stations :: stations[s] != ring && stations[s].entries != ring.entries)
    && (forall s <- stations, t <- stations :: s != t ==> stations[s] != stations[t] && stations[s].entries != stations[t].entries)
  }

  lemma ApartFrom(ring: Ring, stations: map<string, Ring>, k: string)
    requires Apart(ring, stations) && k in stations
    ensures stations[k] in stations.Values && stations[k] != ring && stations[k].entries != ring.entries
    ensures forall s <- stations :: s != k ==> stations[s] != stations[k] && stations[s].entries != stations[k].entries
  {
  }

  lemma ApartPush(ring: Ring, m: map<string, Ring>, k: string, r: Ring)
    requires Apart(ring, m) && r != ring && r.entries != ring.entries
    requires forall s <- m :: m[s] != r && m[s].entries != r.entries
    ensures Apart(ring, m[k := r])
  {
  }

  ghost predicate Shows(r: Ring, m: Mirror)
    reads r, r.entries
  {
    r.Valid() && m == Mirror(r.capacity, r.Contents())
  }

  /** Each station's ring holds its mirror. */
  ghost predicate AllShow(stations: map<string, Ring>, mirrors: map<string, Mirror>)
    reads stations.Values, set r | r in stations.Values :: r.entries
  {
    mirrors.Keys == stations.Keys && forall s <- stations :: stations[s] in stations.Values && Shows(stations[s], mirrors[s])
  }

  lemma Shown(stations: map<string, Ring>, mirrors: map<string, Mirror>, k: string)
    requires AllShow(stations, mirrors) && k in stations
    ensures k in mirrors && stations[k].Valid() && mirrors[k] == Mirror(stations[k].capacity, stations[k].Contents())
  {
  }

  lemma ShowsContents(r: Ring)
    requires r.Valid()
    ensures Shows(r, Mirror(r.capacity, r.Contents()))
  {
  }

  lemma AllShown(stations: map<string, Ring>, mirrors: map<string, Mirror>)
    ensures AllShow(stations, mirrors)
            <==> mirrors.Keys == stations.Keys && forall s <- stations :: Shows(stations[s], mirrors[s])
  {
    hide Shows;
    assert forall s <- stations :: stations[s] in stations.Values;
  }

  lemma ShowPush(stations: map<string, Ring>, mirrors: map<string, Mirror>, k: string, r: Ring, m: Mirror)
    requires AllShow(stations, mirrors) && Shows(r, m) && k !in stations
    ensures AllShow(stations[k := r], mirrors[k := m])
  {
    hide Shows;
    ValuesPush(stations, k, r);
  }

  lemma ValuesPush(m: map<string, Ring>, k: string, r: Ring)
    requires k !in m
    ensures m[k := r].Values == m.Values + {r}
  {
    assert m[k := r][k] == r;
    assert forall s <- m :: m[k := r][s] == m[s];
  }

  class Buffer {
    const ring: Ring
    var stations: map<string, Ring>
    var stationCapacity: nat
    var maxStations: int
    ghost var view: State

    ghost function AllRings(): set<Ring>
      reads this`stations
    {
      {ring} + stations.Values
    }

    ghost function Arrays(): set<array<Entry>>
      reads this`stations
    {
      set r | r in AllRings() :: r.entries
    }

    /** The value `view` is what the rings hold. */
    ghost predicate Valid()
      reads this, AllRings(), Arrays()
    {
      && Apart(ring, stations)
      && Shows(ring, Mirror(view.capacity, view.main))
      && AllShow(stations, view.mirrors)
      && stationCapacity == view.stationCapacity && maxStations == view.maxStations
    }

    constructor (capacity: int)
      ensures Valid() && fresh(AllRings()) && fresh(Arrays())
      ensures view == State(if capacity <= 0 then 10000 else capacity, [], map[], 0, 0)
    {
      ring := new Ring(capacity);
      stations, stationCapacity, maxStations := map[], 0, 0;
      view := State(if capacity <= 0 then 10000 else capacity, [], map[], 0, 0);
    }

    method EnableStationBuffers(stationCapacity: int, maxStations: int)
      requires Valid()
      modifies this`stationCapacity, this`maxStations, this`view
      ensures Valid() && view == WithStations(old(view), stationCapacity, maxStations)
      ensures stationCapacity <= 0 ==> view == old(view)
      ensures 0 < stationCapacity ==>
                && view.stationCapacity == stationCapacity
                && view.maxStations == if maxStations <= 0 then 200 else maxStations
      ensures view.main == old(view.main) && view.mirrors == old(view.mirrors) && view.capacity == old(view.capacity)
    {
      if stationCapacity <= 0 {
        return;
      }
      this.stationCapacity := stationCapacity;
      this.maxStations := if maxStations <= 0 then 200 else maxStations;
      view := WithStations(view, stationCapacity, maxStations);
    }

    /** Only the main ring is emptied; the station mirrors keep their entries. */
    method Clear()
      requires Valid()
      modifies ring, this`view
      ensures Valid() && view == old(view).(main := [])
    {
      ring.Clear();
      view := view.(main := []);
    }

    method Add(e: Entry)
      requires Valid()
      modifies this`stations, this`view, AllRings(), Arrays()
      ensures Valid() && fresh(AllRings() - old(AllRings())) && fresh(Arrays() - old(Arrays()))
      ensures view == Added(old(view), e)
    {
      hide Valid, Apart, Shows, AllShow, LastN;
      AddToMain(e);
      AddToMirror(e);
    }

    method AddToMain(e: Entry)
      requires Valid()
      modifies this`view, ring, ring.entries
      ensures Valid() && view == old(view).(main := LastN(old(view).main + [e], old(view).capacity))
    {
      ring.Add(e);
      view := view.(main := LastN(view.main + [e], view.capacity));
    }

    method AddToMirror(e: Entry)
      requires Valid()
      modifies this`stations, this`view, AllRings(), Arrays()
      ensures Valid() && fresh(AllRings() - old(AllRings())) && fresh(Arrays() - old(Arrays()))
      ensures view == Mirrored(old(view), e)
    {
      var sid := e.station;
      if sid == "" {
        return;
      }
      assert |stations.Keys| == |view.mirrors.Keys|;
      if sid in stations {
        AppendToMirror(sid, e);
      } else if stationCapacity > 0 && (maxStations <= 0 || |stations| < maxStations) {
        OpenMirror(sid, e);
      }
    }

    method AppendToMirror(sid: string, e: Entry)
      requires Valid() && sid in stations
      modifies this`view, stations[sid], stations[sid].entries
      ensures Valid()
      ensures var m := old(view).mirrors[sid];
              view == old(view).(mirrors := old(view).mirrors[sid := m.(entries := LastN(m.entries + [e], m.capacity))])
    {
      hide LastN, Apart, Shows, AllShow;
      var stationBuf := stations[sid];
      ghost var mirrors := view.mirrors;
      ApartFrom(ring, stations, sid);
      Shown(stations, mirrors, sid);
      AllShown(stations, mirrors);
      stationBuf.Add(e);
      var m := view.mirrors[sid];
      view := view.(mirrors := view.mirrors[sid := m.(entries := LastN(m.entries + [e], m.capacity))]);
      ShowsContents(stationBuf);
      forall s <- stations ensures Shows(stations[s], view.mirrors[s]) {
        assert s != sid ==> Shows(stations[s], mirrors[s]);
      }
      AllShown(stations, view.mirrors);
    }

    method OpenMirror(sid: string, e: Entry)
      requires Valid() && sid !in stations && stationCapacity > 0
      modifies this`stations, this`view
      ensures Valid() && fresh(AllRings() - old(AllRings())) && fresh(Arrays() - old(Arrays()))
      ensures view == old(view).(mirrors := old(view).mirrors[sid := Mirror(stationCapacity, LastN([e], stationCapacity))])
    {
      hide LastN, Shows, Apart;
      var stationBuf := NewMirror(e);
      Install(sid, stationBuf, Mirror(stationCapacity, LastN([e], stationCapacity)));
    }

    method Install(sid: string, stationBuf: Ring, ghost m: Mirror)
      requires Valid() && sid !in stations && Shows(stationBuf, m)
      requires stationBuf !in AllRings() && stationBuf.entries !in Arrays()
      modifies this`stations, this`view
      ensures Valid() && view == old(view).(mirrors := old(view).mirrors[sid := m])
      ensures AllRings() == old(AllRings()) + {stationBuf} && Arrays() == old(Arrays()) + {stationBuf.entries}
    {
      hide Shows, Apart, AllShow;
      ghost var before, mirrors := stations, view.mirrors;
      assert forall s <- before :: before[s] in before.Values && before[s] in AllRings() && before[s].entries in Arrays();
      ShowPush(before, mirrors, sid, stationBuf, m);
      ApartPush(ring, before, sid, stationBuf);
      ValuesPush(before, sid, stationBuf);
      stations := stations[sid := stationBuf];
      view := view.(mirrors := view.mirrors[sid := m]);
    }

    /** A fresh station ring holding its first entry. */
    method NewMirror(e: Entry) returns (r: Ring)
      requires Valid() && stationCapacity > 0
      ensures fresh(r) && fresh(r.entries) && Shows(r, Mirror(stationCapacity, LastN([e], stationCapacity)))
    {
      r := new Ring(stationCapacity);
      r.Add(e);
      assert [] + [e] == [e];
    }

    method GetAll() returns (result: array<Entry>)
      requires Valid()
      ensures fresh(result) && result[..] == view.main
    {
      result := ring.GetAll();
    }

    method Query(p: Params) returns (result: seq<Entry>)
      requires Valid()
      ensures result == Answer(Source(view, p).0, Source(view, p).1)
      ensures forall e <- result :: e in if p.station != "" && p.station in view.mirrors then view.mirrors[p.station].entries else view.main
      ensures forall e <- result :: p.level != "" ==> e.level == p.level
      ensures forall e <- result :: p.component != "" ==> e.component == p.component
      ensures forall e <- result :: p.station != "" && p.station !in view.mirrors ==> e.station == p.station
      ensures forall e <- result :: p.since.Some? ==> p.since.value <= e.timestamp
      ensures forall e <- result :: p.search != "" ==>
                Occurs(e.message, p.search) || Occurs(e.component, p.search) || exists v <- e.fields :: Occurs(v, p.search)
      ensures 0 < p.limit ==> |result| <= p.limit
    {
      hide Answer, Occurs;
      if p.station != "" && p.station in stations {
        var mirrored := stations[p.station].GetAll();
        result := Select(mirrored[..], p.(station := ""));
      } else {
        var all := ring.GetAll();
        result := Select(all[..], p);
      }
    }
  }
}
