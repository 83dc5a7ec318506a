/** The station distributor of internal/executor/distributor.go. The hash is an arbitrary function of the key. */
module Distributors {
  import opened HashRing
  import opened Seqs

  /** Ring contents: virtual-node hashes in order, repetitions included, and the owner of each hash. */
  datatype Ring = Ring(hashes: seq<u32>, owner: map<u32, string>)

  /** A Go map lookup: the empty string when absent. */
  function OwnerAt(owner: map<u32, string>, h: u32): string
  {
    if h in owner then owner[h] else ""
  }

  predicate WellFormed(r: Ring)
  {
    Ascending(r.hashes) && Elements(r.hashes) == r.owner.Keys
  }

  function Claimed(id: string, vnodes: seq<u32>): (m: map<u32, string>)
    ensures m.Keys == Elements(vnodes)
  {
    map h | h in vnodes :: id
  }

  /** AddInstance: every virtual node is appended, even if present, and claimed for the instance. */
  function Added(r: Ring, id: string, vnodes: seq<u32>): Ring
  {
    Ring(SortHashes(r.hashes + vnodes), r.owner + Claimed(id, vnodes))
  }

  /** RemoveInstance after its first `n` hashes: an owned hash is dropped and its owner forgotten, so a second
      copy of the same hash no longer looks owned. */
  function RemovedUpTo(r: Ring, id: string, n: nat): (q: Ring)
    requires n <= |r.hashes|
  {
    if n == 0 then Ring([], r.owner)
    else
      var q, h := RemovedUpTo(r, id, n - 1), r.hashes[n - 1];
      if OwnerAt(q.owner, h) != id then q.(hashes := q.hashes + [h])
      else q.(owner := q.owner - {h})
  }

  function Removed(r: Ring, id: string): Ring { RemovedUpTo(r, id, |r.hashes|) }

  ghost function Assigned(r: Ring, key: u32): string
    requires r.hashes != []
  {
    assert r.hashes[0] in Elements(r.hashes);
    OwnerOf(Elements(r.hashes), r.owner, key)
  }

  class Distributor {
    var ring: seq<u32>
    var ringMap: map<u32, string>
    const virtualNodes: nat
    const hash: string -> u32
    const vnodeKey: (string, nat) -> string

    ghost predicate Valid()
      reads this
    {
      Ascending(ring) && 0 < virtualNodes
    }

    function Contents(): Ring
      reads this
    {
      Ring(ring, ringMap)
    }

    function Vnodes(id: string, n: nat): (r: seq<u32>)
      ensures |r| == n && forall i :: 0 <= i < n ==> r[i] == hash(vnodeKey(id, i))
    {
      seq(n, i requires 0 <= i => hash(vnodeKey(id, i)))
    }

    constructor (virtualNodes: int, hash: string -> u32, vnodeKey: (string, nat) -> string)
      ensures Valid() && Contents() == Ring([], map[])
      ensures this.virtualNodes == (if virtualNodes <= 0 then 500 else virtualNodes)
      ensures this.hash == hash && this.vnodeKey == vnodeKey
    {
      this.virtualNodes := if virtualNodes <= 0 then 500 else virtualNodes;
      this.hash, this.vnodeKey, ring, ringMap := hash, vnodeKey, [], map[];
    }

    method AddInstance(id: string)
      requires Valid()
      modifies this
      ensures Valid() && Contents() == Added(old(Contents()), id, Vnodes(id, virtualNodes))
    {
      hide Claimed;
      ClaimNone(ringMap, id, Vnodes(id, 0));
      for i := 0 to virtualNodes
        invariant ring == old(ring) + Vnodes(id, i)
        invariant ringMap == old(ringMap) + Claimed(id, Vnodes(id, i))
      {
        var h := hash(vnodeKey(id, i));
        ring := ring + [h];
        ringMap := ringMap[h := id];
        assert Vnodes(id, i + 1) == Vnodes(id, i) + [h];
        ClaimOne(old(ringMap), id, Vnodes(id, i), h);
      }
      ring := SortHashes(ring);
    }

    method RemoveInstance(id: string)
      requires Valid()
      modifies this
      ensures Valid() && Contents() == Removed(old(Contents()), id)
    {
      var newRing := [];
      for k := 0 to |ring|
        invariant ring == old(ring)
        invariant Ring(newRing, ringMap) == RemovedUpTo(old(Contents()), id, k)
      {
        if OwnerAt(ringMap, ring[k]) != id {
          newRing := newRing + [ring[k]];
        } else {
          ringMap := ringMap - {ring[k]};
        }
      }
      RemovedAscending(Contents().(hashes := ring, owner := old(ringMap)), id, |ring|);
      ring := newRing;
    }

    /** The owner of the virtual node nearest clockwise from the station's hash; an error on an empty ring. */
    method GetInstance(stationID: string) returns (ok: bool, id: string)
      requires Valid()
      ensures ok <==> ring != []
      ensures ok ==> id == Assigned(Contents(), hash(stationID))
      ensures ok ==> exists h :: Nearest(Elements(ring), hash(stationID), h) && id == OwnerAt(ringMap, h)
    {
      if |ring| == 0 {
        return false, "";
      }
      var h := FindNode(ring, hash(stationID));
      return true, OwnerAt(ringMap, h);
    }

    /** The stations assigned to `id`, in the order listed. */
    method GetInstanceStations(id: string, stations: seq<string>) returns (mine: seq<string>)
      requires Valid()
      ensures mine == AssignedTo(Contents(), hash, id, stations, |stations|)
      ensures IsSubseq(mine, stations)
      ensures forall s :: multiset(mine)[s] == if ring != [] && Assigned(Contents(), hash(s)) == id then multiset(stations)[s] else 0
    {
      hide Assigned, IsSubseq;
      mine := [];
      for k := 0 to |stations|
        invariant mine == AssignedTo(Contents(), hash, id, stations, k)
      {
        var ok, owner := GetInstance(stations[k]);
        if ok && owner == id {
          mine := mine + [stations[k]];
        }
      }
      assert stations[..|stations|] == stations;
      AssignedToInOrder(Contents(), hash, id, stations, |stations|);
      forall s ensures multiset(mine)[s] == if ring != [] && Assigned(Contents(), hash(s)) == id then multiset(stations)[s] else 0 {
        AssignedToExactly(Contents(), hash, id, stations, |stations|, s);
      }
    }

    method GetAllAssignments(stations: seq<string>) returns (assignments: map<string, string>)
      requires Valid()
      ensures assignments == Assignments(Contents(), hash, stations)
      ensures forall s :: s in assignments <==> s in stations && ring != []
      ensures forall s <- assignments :: assignments[s] == Assigned(Contents(), hash(s))
    {
      assignments := map[];
      for k := 0 to |stations|
        invariant assignments == Assignments(Contents(), hash, stations[..k])
      {
        var ok, owner := GetInstance(stations[k]);
        if ok {
          assignments := assignments[stations[k] := owner];
        }
        AssignmentsPush(Contents(), hash, stations[..k], stations[k]);
        assert stations[..k + 1] == stations[..k] + [stations[k]];
      }
      assert stations[..|stations|] == stations;
    }

    /** The share of listed stations that an operation would move, found by trying it on a copy. */
    method CalculateChurn(stations: seq<string>, operation: string, id: string) returns (churn: real)
      requires Valid()
      ensures churn ==
              var after := Operated(Contents(), operation, id, Vnodes(id, virtualNodes));
              if after == None || stations == [] then 0.0
              else |Movers(Contents(), after.value, hash, stations)| as real / |stations| as real
      ensures operation == "add" ==>
                churn ==
                ShareOf((set s | s in stations && ring != [] && Assigned(Contents(), hash(s)) != id
                                 && AssignedIfAny(Added(Contents(), id, Vnodes(id, virtualNodes)), hash(s)) == id), stations)
      ensures operation == "remove" && WellFormed(Contents()) && id != "" && WellFormed(Removed(Contents(), id)) ==>
                churn ==
                ShareOf((set s | s in stations && ring != [] && Assigned(Contents(), hash(s)) == id), stations)
      ensures operation != "add" && operation != "remove" ==> churn == 0.0
    {
      hide Added, Removed, Assigned, Assignments, Movers, Ascending, WellFormed, AssignedIfAny;
      var before := GetAllAssignments(stations);
      var test := new Distributor(virtualNodes, hash, vnodeKey);
      test.ring, test.ringMap := ring, ringMap;
      assert test.Vnodes(id, test.virtualNodes) == Vnodes(id, virtualNodes);
      if operation == "add" {
        test.AddInstance(id);
      } else if operation == "remove" {
        test.RemoveInstance(id);
      } else {
        return 0.0;
      }
      var after := test.GetAllAssignments(stations);
      var changed := Changed(before, after);
      ChangedIsMovers(Contents(), test.Contents(), hash, stations);
      if operation == "add" {
        AddChurns(Contents(), id, Vnodes(id, virtualNodes), hash, stations);
      } else if WellFormed(Contents()) && id != "" && WellFormed(Removed(Contents(), id)) {
        RemoveChurns(Contents(), id, hash, stations);
      }
      if |stations| == 0 {
        return 0.0;
      }
      return |changed| as real / |stations| as real;
    }
  }

  ghost function Assignments(r: Ring, hash: string -> u32, stations: seq<string>): map<string, string>
  {
    if r.hashes == [] then map[] else map s | s in stations :: Assigned(r, hash(s))
  }

  lemma AssignmentsPush(r: Ring, hash: string -> u32, stations: seq<string>, s: string)
    ensures Assignments(r, hash, stations + [s])
         == if r.hashes == [] then map[] else Assignments(r, hash, stations)[s := Assigned(r, hash(s))]
  {
    hide Assigned;
    assert forall x :: x in stations + [s] <==> x in stations || x == s;
  }

  function Operated(r: Ring, operation: string, id: string, vnodes: seq<u32>): Option<Ring>
  {
    if operation == "add" then Some(Added(r, id, vnodes))
    else if operation == "remove" then Some(Removed(r, id))
    else None
  }

  /** The share of the listed stations that are in `some`, repetitions in the list included. */
  ghost function ShareOf(some: set<string>, stations: seq<string>): (share: real)
    ensures share * |stations| as real == if stations == [] then 0.0 else |some| as real
  {
    if stations == [] then 0.0 else |some| as real / |stations| as real
  }

  /** The listed stations that are assigned before and not to the same instance after. */
  ghost function Movers(before: Ring, after: Ring, hash: string -> u32, stations: seq<string>): set<string>
  {
    set s | s in stations && before.hashes != [] && AssignedIfAny(after, hash(s)) != Assigned(before, hash(s))
  }

  function Changed(before: map<string, string>, after: map<string, string>): set<string>
  {
    set s | s in before && before[s] != if s in after then after[s] else ""
  }

  lemma ChangedIsMovers(before: Ring, after: Ring, hash: string -> u32, stations: seq<string>)
    ensures Changed(Assignments(before, hash, stations), Assignments(after, hash, stations))
         == Movers(before, after, hash, stations)
  {
    hide Assigned;
  }

  ghost function AssignedIfAny(r: Ring, key: u32): string
  {
    if r.hashes == [] then "" else Assigned(r, key)
  }

  ghost function AssignedTo(r: Ring, hash: string -> u32, id: string, stations: seq<string>, n: nat): seq<string>
    requires n <= |stations|
  {
    if n == 0 then []
    else
      AssignedTo(r, hash, id, stations, n - 1)
      + if r.hashes != [] && Assigned(r, hash(stations[n - 1])) == id then [stations[n - 1]] else []
  }

  /** An instance is listed with the stations whose assignment it is, each as often as it is listed. */
  lemma {:induction false} AssignedToExactly(r: Ring, hash: string -> u32, id: string, stations: seq<string>, n: nat, s: string)
    requires n <= |stations|
    ensures multiset(AssignedTo(r, hash, id, stations, n))[s]
         == if r.hashes != [] && Assigned(r, hash(s)) == id then multiset(stations[..n])[s] else 0
    decreases n
  {
    hide Assigned;
    if n > 0 {
      AssignedToExactly(r, hash, id, stations, n - 1, s);
      assert stations[..n] == stations[..n - 1] + [stations[n - 1]];
    }
  }

  lemma {:induction false} AssignedToInOrder(r: Ring, hash: string -> u32, id: string, stations: seq<string>, n: nat)
    requires n <= |stations|
    ensures IsSubseq(AssignedTo(r, hash, id, stations, n), stations[..n])
    decreases n
  {
    hide Assigned, IsSubseq;
    if n == 0 {
      NothingIsSubseq(stations[..n]);
    } else {
      AssignedToInOrder(r, hash, id, stations, n - 1);
      assert stations[..n] == stations[..n - 1] + [stations[n - 1]];
      SubseqStep(AssignedTo(r, hash, id, stations, n - 1), AssignedTo(r, hash, id, stations, n),
                 stations[..n - 1], stations[..n], stations[n - 1]);
    }
  }

  /** On a ring with nodes every listed station is on the list of exactly one instance, the one the map gives it. */
  lemma StationsArePartitioned(r: Ring, hash: string -> u32, stations: seq<string>, s: string, id: string)
    requires r.hashes != [] && s in stations
    ensures s in Assignments(r, hash, stations)
    ensures s in AssignedTo(r, hash, id, stations, |stations|) <==> id == Assignments(r, hash, stations)[s]
  {
    hide Assigned;
    assert stations[..|stations|] == stations && s in multiset(stations);
    AssignedToExactly(r, hash, id, stations, |stations|, s);
    assert s in AssignedTo(r, hash, id, stations, |stations|) <==> s in multiset(AssignedTo(r, hash, id, stations, |stations|));
  }

  lemma ClaimNone(owner: map<u32, string>, id: string, vnodes: seq<u32>)
    requires vnodes == []
    ensures owner + Claimed(id, vnodes) == owner
  {
  }

  lemma ClaimOne(owner: map<u32, string>, id: string, vnodes: seq<u32>, h: u32)
    ensures owner + Claimed(id, vnodes + [h]) == (owner + Claimed(id, vnodes))[h := id]
  {
  }

  // ---------------------------------------------------------------- adding

  lemma AddedElements(r: Ring, id: string, vnodes: seq<u32>)
    ensures Elements(Added(r, id, vnodes).hashes) == Elements(r.hashes) + Elements(vnodes)
    ensures Ascending(Added(r, id, vnodes).hashes)
    ensures WellFormed(r) ==> WellFormed(Added(r, id, vnodes))
  {
    SameElements(SortHashes(r.hashes + vnodes), r.hashes + vnodes);
    assert forall h :: h in r.hashes + vnodes <==> h in r.hashes || h in vnodes;
  }

  /** Adding an instance moves a key only to that instance; no assumption on hashes or owners. */
  lemma AddMovesOnlyToNew(r: Ring, id: string, vnodes: seq<u32>, key: u32)
    requires r.hashes != []
    ensures Added(r, id, vnodes).hashes != []
    ensures Assigned(Added(r, id, vnodes), key) == id || Assigned(Added(r, id, vnodes), key) == Assigned(r, key)
  {
    AddedElements(r, id, vnodes);
    var q := Added(r, id, vnodes);
    assert r.hashes[0] in Elements(q.hashes);
    var h := NearestHash(Elements(q.hashes), key);
    NearestAfterAdding(Elements(r.hashes), Elements(vnodes), key, h);
    assert h in vnodes ==> q.owner[h] == id;
    assert h !in vnodes ==> OwnerAt(q.owner, h) == OwnerAt(r.owner, h);
  }

  /** A newcomer gets the keys that fall on its own virtual nodes, whoever had them. */
  lemma NewcomerOwnsItsNodes(r: Ring, id: string, vnodes: seq<u32>, i: nat)
    requires i < |vnodes|
    ensures Added(r, id, vnodes).hashes != [] && Assigned(Added(r, id, vnodes), vnodes[i]) == id
  {
    var q, h := Added(r, id, vnodes), vnodes[i];
    AddedElements(r, id, vnodes);
    assert h in Elements(vnodes) && h in Elements(q.hashes);
    assert Nearest(Elements(q.hashes), h, h);
    OwnerOfNearest(q, h, h);
  }

  /** An addition moves exactly the stations that the new instance gains. */
  lemma AddChurns(r: Ring, id: string, vnodes: seq<u32>, hash: string -> u32, stations: seq<string>)
    ensures Movers(r, Added(r, id, vnodes), hash, stations)
         == set s | s in stations && r.hashes != []
                    && Assigned(r, hash(s)) != id && AssignedIfAny(Added(r, id, vnodes), hash(s)) == id
  {
    forall s | s in stations && r.hashes != []
      ensures AssignedIfAny(Added(r, id, vnodes), hash(s)) in {id, Assigned(r, hash(s))}
    {
      AddMovesOnlyToNew(r, id, vnodes, hash(s));
    }
    hide Added, Assigned;
  }

  // ---------------------------------------------------------------- removing

  lemma {:induction false} RemovedAscending(r: Ring, id: string, n: nat)
    requires Ascending(r.hashes) && n <= |r.hashes|
    ensures var q := RemovedUpTo(r, id, n);
            Ascending(q.hashes) && forall h <- q.hashes :: exists k :: 0 <= k < n && r.hashes[k] == h
    decreases n
  {
    if n > 0 {
      RemovedAscending(r, id, n - 1);
      var q := RemovedUpTo(r, id, n - 1);
      forall i | 0 <= i < |q.hashes| ensures q.hashes[i] <= r.hashes[n - 1] {
        assert q.hashes[i] in q.hashes;
      }
      assert r.hashes[n - 1] == r.hashes[n - 1];
    }
  }

  predicate Repeated(hashes: seq<u32>, n: nat, h: u32)
    requires n <= |hashes|
  {
    exists i, j :: 0 <= i < j < n && hashes[i] == hashes[j] == h
  }

  /** Hashes of other instances all survive with their owners. */
  lemma {:induction false} ForeignSurvive(r: Ring, id: string, n: nat, h: u32)
    requires n <= |r.hashes| && OwnerAt(r.owner, h) != id
    ensures var q := RemovedUpTo(r, id, n);
            OwnerAt(q.owner, h) == OwnerAt(r.owner, h) && (h in q.owner <==> h in r.owner) && (h in q.hashes <==> h in r.hashes[..n])
    decreases n
  {
    if n > 0 {
      ForeignSurvive(r, id, n - 1, h);
      assert r.hashes[..n] == r.hashes[..n - 1] + [r.hashes[n - 1]];
    }
  }

  /** A hash of the removed instance loses its owner, and survives ownerless exactly if it is repeated. */
  lemma {:induction false} OwnGoUnlessRepeated(r: Ring, id: string, n: nat, h: u32)
    requires n <= |r.hashes| && id != "" && h in r.owner && r.owner[h] == id
    ensures var q := RemovedUpTo(r, id, n);
            && (h in q.owner <==> h !in r.hashes[..n]) && (h in q.owner ==> q.owner[h] == id)
            && (h in q.hashes <==> Repeated(r.hashes, n, h))
    decreases n
  {
    if n > 0 {
      OwnGoUnlessRepeated(r, id, n - 1, h);
      assert r.hashes[..n] == r.hashes[..n - 1] + [r.hashes[n - 1]];
      RepeatedStep(r.hashes, n, h);
      hide Repeated;
    }
  }

  lemma RepeatedStep(hashes: seq<u32>, n: nat, h: u32)
    requires 0 < n <= |hashes|
    ensures Repeated(hashes, n, h) <==> Repeated(hashes, n - 1, h) || (hashes[n - 1] == h && h in hashes[..n - 1])
  {
    if hashes[n - 1] == h && h in hashes[..n - 1] {
      var i :| 0 <= i < n - 1 && hashes[..n - 1][i] == h;
      assert hashes[i] == hashes[n - 1] == h;
    }
    if Repeated(hashes, n, h) {
      var i, j :| 0 <= i < j < n && hashes[i] == hashes[j] == h;
      assert j == n - 1 ==> hashes[..n - 1][i] == h;
    }
  }

  lemma SurvivingHash(r: Ring, id: string, h: u32)
    requires WellFormed(r) && id != ""
    ensures var q := Removed(r, id);
            && (h in q.hashes <==> h in r.hashes && (r.owner[h] != id || Repeated(r.hashes, |r.hashes|, h)))
            && (h in q.owner <==> h in r.hashes && r.owner[h] != id)
            && (h in q.owner ==> q.owner[h] == r.owner[h])
  {
    assert r.hashes[..|r.hashes|] == r.hashes;
    assert h in r.hashes <==> h in Elements(r.hashes);
    if OwnerAt(r.owner, h) == id {
      OwnGoUnlessRepeated(r, id, |r.hashes|, h);
    } else {
      ForeignSurvive(r, id, |r.hashes|, h);
    }
  }

  /** Removing an instance leaves every other instance's keys where they were, repeated hashes or not. */
  lemma RemoveMovesOnlyOwn(r: Ring, id: string, key: u32)
    requires WellFormed(r) && id != "" && r.hashes != [] && Assigned(r, key) != id
    ensures Removed(r, id).hashes != [] && Assigned(Removed(r, id), key) == Assigned(r, key)
  {
    var q := Removed(r, id);
    assert r.hashes[0] in Elements(r.hashes);
    var h := NearestHash(Elements(r.hashes), key);
    SurvivingHash(r, id, h);
    assert Elements(q.hashes) <= Elements(r.hashes) by {
      forall g | g in q.hashes ensures g in r.hashes { SurvivingHash(r, id, g); }
    }
    NearestAfterRemoving(Elements(r.hashes), Elements(q.hashes), key, h);
  }

  /** The ring stays usable, every hash owned, exactly if none of the removed instance's hashes was repeated:
      a second copy stays behind without an owner. */
  lemma RemoveWellFormedIff(r: Ring, id: string)
    requires WellFormed(r) && id != ""
    ensures WellFormed(Removed(r, id))
       <==> forall h <- r.hashes :: r.owner[h] == id ==> !Repeated(r.hashes, |r.hashes|, h)
  {
    var q := Removed(r, id);
    RemovedAscending(r, id, |r.hashes|);
    forall h ensures h in q.hashes <==> h in r.hashes && (r.owner[h] != id || Repeated(r.hashes, |r.hashes|, h))
             ensures h in q.owner <==> h in r.hashes && r.owner[h] != id
    {
      SurvivingHash(r, id, h);
    }
    hide Repeated;
    forall h | h in r.hashes ensures h in r.owner { assert h in Elements(r.hashes); }
    if WellFormed(q) {
      forall h | h in r.hashes && r.owner[h] == id ensures !Repeated(r.hashes, |r.hashes|, h) {
        assert h in q.hashes <==> h in Elements(q.hashes);
      }
    }
  }

  /** A repeated hash of the removed instance stays on the ring without an owner. */
  lemma StaleAt(a: Ring, id: string, h: u32)
    requires WellFormed(a) && id != "" && h in a.owner && a.owner[h] == id && Repeated(a.hashes, |a.hashes|, h)
    ensures var q := Removed(a, id);
            h in q.hashes && !WellFormed(q) && Assigned(q, h) == ""
  {
    hide Removed, Repeated, Ascending;
    assert h in Elements(a.hashes);
    SurvivingHash(a, id, h);
    OwnerlessAt(Removed(a, id), h);
  }

  lemma OwnerlessAt(q: Ring, h: u32)
    requires h in q.hashes && h !in q.owner
    ensures !WellFormed(q) && Assigned(q, h) == ""
  {
    assert h in Elements(q.hashes);
    assert Nearest(Elements(q.hashes), h, h);
  }

  /** Nothing stops an instance from being added twice. Removed once, it leaves all its virtual nodes on the ring without
      an owner, and keys that fall on them get the empty one. */
  lemma StaleHashRemains(r: Ring, id: string, vnodes: seq<u32>, i: nat)
    requires WellFormed(r) && id != "" && i < |vnodes|
    ensures var twice := Added(Added(r, id, vnodes), id, vnodes);
            var left := Removed(twice, id);
            WellFormed(twice) && !WellFormed(left) && vnodes[i] in left.hashes && Assigned(left, vnodes[i]) == ""
  {
    hide WellFormed, Added, Removed, Assigned;
    var once, h := Added(r, id, vnodes), vnodes[i];
    AddedElements(r, id, vnodes);
    AddedElements(once, id, vnodes);
    assert h in Elements(once.hashes);
    AddedClaims(once, id, vnodes, h);
    CountInAdded(once, id, vnodes, h);
    assert h in multiset(once.hashes) && h in multiset(vnodes);
    TwiceRepeated(Added(once, id, vnodes).hashes, h);
    StaleAt(Added(once, id, vnodes), id, h);
  }

  lemma AddedClaims(r: Ring, id: string, vnodes: seq<u32>, h: u32)
    requires h in vnodes
    ensures h in Added(r, id, vnodes).owner && Added(r, id, vnodes).owner[h] == id
  {
  }

  /** With no repeated hash of its own, a removed instance owns nothing any more: its keys move to others. */
  lemma RemovedOwnsNothing(r: Ring, id: string, key: u32)
    requires WellFormed(r) && id != "" && WellFormed(Removed(r, id)) && Removed(r, id).hashes != []
    ensures Assigned(Removed(r, id), key) != id && Assigned(Removed(r, id), key) in r.owner.Values
  {
    var q := Removed(r, id);
    assert q.hashes[0] in Elements(q.hashes);
    var h := NearestHash(Elements(q.hashes), key);
    SurvivingHash(r, id, h);
    assert h in r.owner;
  }

  /** With no repeated hash of its own, a removal moves exactly the stations that the instance had. */
  lemma RemoveChurns(r: Ring, id: string, hash: string -> u32, stations: seq<string>)
    requires WellFormed(r) && id != "" && WellFormed(Removed(r, id))
    ensures Movers(r, Removed(r, id), hash, stations) == set s | s in stations && r.hashes != [] && Assigned(r, hash(s)) == id
  {
    forall s | s in stations && r.hashes != []
      ensures AssignedIfAny(Removed(r, id), hash(s)) != Assigned(r, hash(s)) <==> Assigned(r, hash(s)) == id
    {
      if Assigned(r, hash(s)) != id {
        RemoveMovesOnlyOwn(r, id, hash(s));
      } else if Removed(r, id).hashes != [] {
        RemovedOwnsNothing(r, id, hash(s));
      }
    }
    hide Removed, Assigned, WellFormed;
  }

  // ---------------------------------------------------------------- adding and removing again

  /** One removal step keeps the count of a foreign hash in step with the hashes seen. */
  lemma CopiesStep(q: Ring, seen: seq<u32>, x: u32, id: string, h: u32)
    requires OwnerAt(q.owner, h) != id && Copies(q.hashes, h) == Copies(seen, h)
    ensures Copies(if OwnerAt(q.owner, x) != id then q.hashes + [x] else q.hashes, h) == Copies(seen + [x], h)
  {
    CountPush(seen, x, h);
    CountPush(q.hashes, x, h);
    hide Copies;
  }

  lemma {:induction false} SurvivingCopies(r: Ring, id: string, n: nat, h: u32)
    requires n <= |r.hashes| && OwnerAt(r.owner, h) != id
    ensures Copies(RemovedUpTo(r, id, n).hashes, h) == Copies(r.hashes[..n], h)
    decreases n
  {
    hide Copies;
    hide OwnerAt;
    if n == 0 {
      assert r.hashes[..n] == [];
    } else {
      var m := n - 1;
      SurvivingCopies(r, id, m, h);
      ForeignSurvive(r, id, m, h);
      CopiesStep(RemovedUpTo(r, id, m), r.hashes[..m], r.hashes[m], id, h);
      assert r.hashes[..n] == r.hashes[..m] + [r.hashes[m]];
    }
  }

  predicate FreshFor(r: Ring, id: string, vnodes: seq<u32>)
    requires WellFormed(r)
  {
    && (forall h <- r.owner :: r.owner[h] != id)
    && (forall h <- vnodes :: h !in r.owner)
    && Distinct(vnodes)
  }

  lemma {:induction false} DistinctCount(s: seq<u32>, h: u32)
    requires Distinct(s)
    ensures multiset(s)[h] == if h in s then 1 else 0
    decreases |s|
  {
    if s != [] {
      assert s == s[..|s| - 1] + [s[|s| - 1]];
      DistinctCount(s[..|s| - 1], h);
    }
  }

  lemma RepeatedTwice(s: seq<u32>, n: nat, h: u32)
    requires n == |s| && Repeated(s, n, h)
    ensures multiset(s)[h] >= 2
  {
    var i, j :| 0 <= i < j < n && s[i] == s[j] == h;
    assert s == s[..j] + [h] + s[j + 1..];
    assert s[..j][i] == h && h in s[..j];
    assert multiset(s) == multiset(s[..j]) + multiset{h} + multiset(s[j + 1..]);
  }

  lemma CountInAdded(r: Ring, id: string, vnodes: seq<u32>, h: u32)
    ensures multiset(Added(r, id, vnodes).hashes)[h] == multiset(r.hashes)[h] + multiset(vnodes)[h]
  {
  }

  /** One hash, when nothing clashes: gone if it was the instance's, unchanged otherwise. */
  lemma RestoredAt(r: Ring, id: string, vnodes: seq<u32>, h: u32)
    requires WellFormed(r) && id != "" && FreshFor(r, id, vnodes)
    ensures var q := Removed(Added(r, id, vnodes), id);
            Copies(q.hashes, h) == Copies(r.hashes, h) && SameOwner(q.owner, r.owner, h)
  {
    var a := Added(r, id, vnodes);
    AddedElements(r, id, vnodes);
    SurvivingHash(a, id, h);
    CountInAdded(r, id, vnodes, h);
    DistinctCount(vnodes, h);
    assert h in r.hashes <==> h in Elements(r.hashes);
    assert h in a.hashes <==> h in Elements(a.hashes);
    assert h in r.hashes <==> h in multiset(r.hashes);
    if h in vnodes {
      if Repeated(a.hashes, |a.hashes|, h) {
        RepeatedTwice(a.hashes, |a.hashes|, h);
      }
      assert h !in Removed(a, id).hashes;
    } else {
      assert OwnerAt(a.owner, h) != id;
      SurvivingCopies(a, id, |a.hashes|, h);
      assert a.hashes[..|a.hashes|] == a.hashes;
    }
  }

  predicate SameOwner(m: map<u32, string>, n: map<u32, string>, h: u32)
  {
    (h in m <==> h in n) && (h in m ==> m[h] == n[h])
  }

  lemma SameRing(q: Ring, r: Ring)
    requires Ascending(q.hashes) && Ascending(r.hashes)
    requires forall h: u32 :: Copies(q.hashes, h) == Copies(r.hashes, h)
    requires forall h: u32 :: SameOwner(q.owner, r.owner, h)
    ensures q == r
  {
    forall h: u32 ensures multiset(q.hashes)[h] == multiset(r.hashes)[h] {
      assert Copies(q.hashes, h) == Copies(r.hashes, h);
    }
    AscendingUnique(q.hashes, r.hashes);
    forall h: u32 ensures h in q.owner <==> h in r.owner {
      assert SameOwner(q.owner, r.owner, h);
    }
    forall h | h in q.owner ensures q.owner[h] == r.owner[h] {
      assert SameOwner(q.owner, r.owner, h);
    }
    assert q.owner == r.owner;
  }

  lemma FreshRestores(r: Ring, id: string, vnodes: seq<u32>)
    requires WellFormed(r) && id != "" && FreshFor(r, id, vnodes)
    ensures Removed(Added(r, id, vnodes), id) == r
  {
    AddedElements(r, id, vnodes);
    RemovedAscending(Added(r, id, vnodes), id, |Added(r, id, vnodes).hashes|);
    var q := Removed(Added(r, id, vnodes), id);
    assert Ascending(q.hashes) && Ascending(r.hashes);
    hide FreshFor, WellFormed, Removed, Added, Copies, SameOwner;
    forall h: u32 ensures Copies(q.hashes, h) == Copies(r.hashes, h) && SameOwner(q.owner, r.owner, h) {
      RestoredAt(r, id, vnodes, h);
    }
    SameRing(q, r);
  }

  lemma RepeatedVnode(r: Ring, id: string, vnodes: seq<u32>, i: nat, j: nat)
    requires i < j < |vnodes| && vnodes[i] == vnodes[j]
    ensures var a := Added(r, id, vnodes);
            && vnodes[i] in a.owner && a.owner[vnodes[i]] == id
            && Repeated(a.hashes, |a.hashes|, vnodes[i])
  {
    var h := vnodes[i];
    assert Repeated(vnodes, |vnodes|, h);
    RepeatedTwice(vnodes, |vnodes|, h);
    CountInAdded(r, id, vnodes, h);
    TwiceRepeated(Added(r, id, vnodes).hashes, h);
  }

  lemma RestoredIsFresh(r: Ring, id: string, vnodes: seq<u32>)
    requires WellFormed(r) && id != "" && Removed(Added(r, id, vnodes), id) == r
    ensures FreshFor(r, id, vnodes)
  {
    var a := Added(r, id, vnodes);
    AddedElements(r, id, vnodes);
    forall h | h in a.owner ensures h in a.hashes && (a.owner[h] == id ==> h !in r.owner && !Repeated(a.hashes, |a.hashes|, h)) {
      assert h in Elements(a.hashes);
      SurvivingHash(a, id, h);
      assert h in r.hashes <==> h in Elements(r.hashes);
    }
    forall i, j | 0 <= i < j < |vnodes| ensures vnodes[i] != vnodes[j] {
      if vnodes[i] == vnodes[j] {
        RepeatedVnode(r, id, vnodes, i, j);
      }
    }
    forall h | h in r.owner ensures r.owner[h] != id {
      assert h in a.owner && (a.owner[h] == id || a.owner[h] == r.owner[h]);
    }
  }

  lemma {:induction false} TwiceRepeated(s: seq<u32>, h: u32)
    requires multiset(s)[h] >= 2
    ensures Repeated(s, |s|, h)
    decreases |s|
  {
    var rest, last := s[..|s| - 1], s[|s| - 1];
    assert s == rest + [last];
    if last == h {
      assert h in multiset(rest);
      var i :| 0 <= i < |rest| && rest[i] == h;
      assert s[i] == s[|s| - 1] == h;
    } else {
      TwiceRepeated(rest, h);
      var i, j :| 0 <= i < j < |rest| && rest[i] == rest[j] == h;
      assert s[i] == s[j] == h;
    }
  }

  /** Adding an instance and removing it again restores the ring, repetitions and owners included, exactly if
      the instance was absent and its virtual nodes were distinct and new to the ring. */
  lemma AddThenRemoveRestoresIff(r: Ring, id: string, vnodes: seq<u32>)
    requires WellFormed(r) && id != ""
    ensures Removed(Added(r, id, vnodes), id) == r <==> FreshFor(r, id, vnodes)
  {
    if FreshFor(r, id, vnodes) {
      FreshRestores(r, id, vnodes);
    } else if Removed(Added(r, id, vnodes), id) == r {
      RestoredIsFresh(r, id, vnodes);
    }
  }

  /** Both rings are empty, or both give every key the same owner. */
  ghost predicate SameAssignments(r: Ring, q: Ring)
  {
    (r.hashes == [] <==> q.hashes == []) && (r.hashes != [] && q.hashes != [] ==> forall key: u32 :: Assigned(q, key) == Assigned(r, key))
  }

  lemma AssignedIs(r: Ring, key: u32, h: u32)
    requires WellFormed(r) && r.hashes != [] && Nearest(Elements(r.hashes), key, h)
    ensures h in r.owner && Assigned(r, key) == r.owner[h]
  {
  }

  lemma NodeOwnsItself(r: Ring, h: u32)
    requires WellFormed(r) && h in r.owner
    ensures r.hashes != [] && Nearest(Elements(r.hashes), h, h) && Assigned(r, h) == r.owner[h]
  {
    assert h in Elements(r.hashes);
    assert Nearest(Elements(r.hashes), h, h);
    AssignedIs(r, h, h);
  }

  /** A key that lands on a stale hash tells the rings apart. */
  lemma StaleDiffers(r: Ring, a: Ring, id: string, h: u32)
    requires WellFormed(r) && (forall x <- r.owner :: r.owner[x] != "")
    requires WellFormed(a) && id != "" && h in a.owner && a.owner[h] == id && Repeated(a.hashes, |a.hashes|, h)
    ensures !SameAssignments(r, Removed(a, id))
  {
    hide Removed, Repeated, Assigned, WellFormed;
    StaleAt(a, id, h);
    if r.hashes != [] {
      assert r.hashes[0] in Elements(r.hashes);
      AssignedIs(r, h, NearestHash(Elements(r.hashes), h));
    }
  }

  lemma OwnNodeDiffers(r: Ring, a: Ring, id: string, h: u32)
    requires WellFormed(r) && WellFormed(a) && id != "" && h in r.owner && r.owner[h] == id
    ensures !SameAssignments(r, Removed(a, id))
  {
    hide Removed, Assigned, Repeated;
    NodeOwnsItself(r, h);
    var q := Removed(a, id);
    if q.hashes != [] {
      assert q.hashes[0] in Elements(q.hashes);
      var g := NearestHash(Elements(q.hashes), h);
      SurvivingHash(a, id, g);
      OwnerOfNearest(q, h, g);
    }
  }

  lemma OwnerOfNearest(q: Ring, key: u32, g: u32)
    requires q.hashes != [] && Nearest(Elements(q.hashes), key, g)
    ensures Assigned(q, key) == OwnerAt(q.owner, g)
  {
  }

  /** Every assignment is restored under exactly the same condition, as long as every instance on the ring has a name. */
  lemma AddThenRemoveAssignsIff(r: Ring, id: string, vnodes: seq<u32>)
    requires WellFormed(r) && id != "" && forall h <- r.owner :: r.owner[h] != ""
    ensures SameAssignments(r, Removed(Added(r, id, vnodes), id)) <==> FreshFor(r, id, vnodes)
  {
    hide Added, Removed, WellFormed, SameAssignments, Assigned, Repeated;
    var a := Added(r, id, vnodes);
    AddedElements(r, id, vnodes);
    if FreshFor(r, id, vnodes) {
      FreshRestores(r, id, vnodes);
      SameAsItself(r);
    } else if h :| h in r.owner && r.owner[h] == id {
      OwnNodeDiffers(r, a, id, h);
    } else if h :| h in vnodes && h in r.owner {
      TakenOverTwice(r, id, vnodes, h);
      StaleDiffers(r, a, id, h);
    } else {
      var i, j :| 0 <= i < j < |vnodes| && vnodes[i] == vnodes[j];
      RepeatedVnode(r, id, vnodes, i, j);
      StaleDiffers(r, a, id, vnodes[i]);
    }
  }

  lemma SameAsItself(r: Ring)
    ensures SameAssignments(r, r)
  {
  }

  lemma TakenOverTwice(r: Ring, id: string, vnodes: seq<u32>, h: u32)
    requires WellFormed(r) && h in vnodes && h in r.owner
    ensures var a := Added(r, id, vnodes); h in a.owner && a.owner[h] == id && Repeated(a.hashes, |a.hashes|, h)
  {
    hide Added, Repeated, Ascending;
    assert h in Elements(r.hashes);
    AddedClaims(r, id, vnodes, h);
    CountInAdded(r, id, vnodes, h);
    assert h in multiset(r.hashes) && h in multiset(vnodes);
    TwiceRepeated(Added(r, id, vnodes).hashes, h);
  }
}
