/** Churn on the pool's ring of internal/executor/pool.go: removeNode forgets the instance's virtual-node hashes
    whoever owns them, so what stays in place is a different question from the distributor's. */
module PoolChurn {
  import opened HashRing
  import opened Distributors
  import opened ExecutorPools
  import opened Seqs

  // ---------------------------------------------------------------- one key

  /** Past the nearest node, the clock face looks the same from the key and from the node. */
  lemma DistanceThrough(key: u32, h: u32, x: u32)
    requires Distance(key, h) <= Distance(key, x)
    ensures Distance(key, x) == Distance(key, h) + Distance(h, x)
  {
  }

  lemma NearestThrough(hashes: set<u32>, fewer: set<u32>, key: u32, h: u32, g: u32)
    requires Nearest(hashes, key, h) && fewer <= hashes && Nearest(fewer, h, g)
    ensures Nearest(fewer, key, g)
  {
    forall x <- fewer ensures Distance(key, g) <= Distance(key, x) {
      DistanceThrough(key, h, g);
      DistanceThrough(key, h, x);
    }
  }

  ghost function NearestIn(r: Ring, key: u32): (h: u32)
    requires r.hashes != []
    ensures Nearest(Elements(r.hashes), key, h)
  {
    assert r.hashes[0] in Elements(r.hashes);
    NearestHash(Elements(r.hashes), key)
  }

  lemma LeftIsWellFormed(owner: map<u32, string>, vnodes: seq<u32>)
    ensures var left := WithoutNode(owner, vnodes);
            && WellFormed(left) && Elements(left.hashes) == owner.Keys - Elements(vnodes)
            && forall h <- left.owner :: h in owner && left.owner[h] == owner[h]
  {
  }

  /** A key whose node stays keeps its owner; a key whose node goes gets what that node's own position gets. */
  lemma LeftAt(r: Ring, vnodes: seq<u32>, key: u32)
    requires WellFormed(r) && r.hashes != []
    ensures var left, h := WithoutNode(r.owner, vnodes), NearestIn(r, key);
            && h in r.owner && Assigned(r, key) == r.owner[h]
            && (h !in vnodes ==> left.hashes != [] && Assigned(left, key) == r.owner[h])
            && (h in vnodes && left.hashes != [] ==> Assigned(left, key) == Assigned(left, h))
  {
    hide NodesOf, WellFormed, Assigned, WithoutNode;
    var left, h := WithoutNode(r.owner, vnodes), NearestIn(r, key);
    LeftIsWellFormed(r.owner, vnodes);
    AssignedIs(r, key, h);
    NodesAreOwned(r);
    if h !in vnodes {
      assert h in Elements(left.hashes);
      NearestAfterRemoving(Elements(r.hashes), Elements(left.hashes), key, h);
      AssignedIs(left, key, h);
    } else if left.hashes != [] {
      var g := NearestIn(left, h);
      NearestThrough(Elements(r.hashes), Elements(left.hashes), key, h, g);
      AssignedIs(left, key, g);
      AssignedIs(left, h, g);
    }
  }

  lemma NodesAreOwned(r: Ring)
    requires WellFormed(r)
    ensures Elements(r.hashes) == r.owner.Keys
  {
  }

  // ---------------------------------------------------------------- removing

  /** The key has an owner after the removal, and it is the one it had. */
  ghost predicate StaysPut(r: Ring, left: Ring, key: u32)
    requires r.hashes != []
  {
    left.hashes != [] && Assigned(left, key) == Assigned(r, key)
  }

  /** On the ring as it is, the next node clockwise from `h` that is none of `vnodes` belongs to the owner of `h`. */
  ghost predicate FollowedByOwn(r: Ring, vnodes: seq<u32>, h: u32)
    requires h in r.owner
  {
    exists g :: Nearest(r.owner.Keys - Elements(vnodes), h, g) && r.owner[g] == r.owner[h]
  }

  /** That decides whether the position of `h` keeps its owner when `vnodes` go. */
  lemma StaysPutIff(r: Ring, vnodes: seq<u32>, h: u32)
    requires WellFormed(r) && h in r.owner && r.hashes != []
    ensures StaysPut(r, WithoutNode(r.owner, vnodes), h) <==> FollowedByOwn(r, vnodes, h)
  {
    hide WellFormed, WithoutNode, Assigned, NodesOf;
    var left := WithoutNode(r.owner, vnodes);
    LeftIsWellFormed(r.owner, vnodes);
    NodeOwnsItself(r, h);
    if left.hashes != [] {
      var g := NearestIn(left, h);
      AssignedIs(left, h, g);
      if FollowedByOwn(r, vnodes, h) {
        var f :| Nearest(r.owner.Keys - Elements(vnodes), h, f) && r.owner[f] == r.owner[h];
        NearestIsUnique(Elements(left.hashes), h, f, g);
      }
    } else {
      assert Elements(left.hashes) == {};
      NothingFollows(r, vnodes, h);
    }
  }

  lemma NothingFollows(r: Ring, vnodes: seq<u32>, h: u32)
    requires h in r.owner && r.owner.Keys - Elements(vnodes) == {}
    ensures !FollowedByOwn(r, vnodes, h)
  {
  }

  /** A pool removal leaves every key of the other instances in place if and only if each of the removed hashes that
      another instance owns is followed clockwise by a remaining node of that same instance. */
  lemma PoolRemoveMovesOnlyOwnIff(r: Ring, id: string, vnodes: seq<u32>)
    requires WellFormed(r) && r.hashes != []
    ensures (forall key: u32 :: Assigned(r, key) != id ==> StaysPut(r, WithoutNode(r.owner, vnodes), key))
            <==> (forall h <- vnodes :: h in r.owner && r.owner[h] != id ==> FollowedByOwn(r, vnodes, h))
  {
    hide WellFormed, WithoutNode, Assigned, FollowedByOwn, StaysPut;
    var left := WithoutNode(r.owner, vnodes);
    forall h <- vnodes | h in r.owner
      ensures Assigned(r, h) == r.owner[h] && (StaysPut(r, left, h) <==> FollowedByOwn(r, vnodes, h))
    {
      NodeOwnsItself(r, h);
      StaysPutIff(r, vnodes, h);
    }
    if forall h <- vnodes :: h in r.owner && r.owner[h] != id ==> FollowedByOwn(r, vnodes, h) {
      forall key: u32 | Assigned(r, key) != id ensures StaysPut(r, left, key) {
        PutThroughNode(r, vnodes, key);
      }
    }
  }

  /** A key stays put if its node stays, or if the position of its node stays put. */
  lemma PutThroughNode(r: Ring, vnodes: seq<u32>, key: u32)
    requires WellFormed(r) && r.hashes != []
    ensures var left, h := WithoutNode(r.owner, vnodes), NearestIn(r, key);
            && h in r.owner && Assigned(r, key) == r.owner[h]
            && (h !in vnodes || StaysPut(r, left, h) ==> StaysPut(r, left, key))
  {
    hide WellFormed, WithoutNode, Assigned;
    LeftAt(r, vnodes, key);
    NodeOwnsItself(r, NearestIn(r, key));
  }

  /** In particular, when no other instance owns one of the removed hashes. */
  lemma PoolRemoveMovesOnlyOwn(r: Ring, id: string, vnodes: seq<u32>, key: u32)
    requires WellFormed(r) && r.hashes != [] && Assigned(r, key) != id
    requires forall h <- vnodes :: h in r.owner ==> r.owner[h] == id
    ensures StaysPut(r, WithoutNode(r.owner, vnodes), key)
  {
    hide WellFormed, WithoutNode, Assigned, StaysPut, FollowedByOwn;
    PoolRemoveMovesOnlyOwnIff(r, id, vnodes);
  }

  /** The instance that is removed, when all its hashes are its virtual nodes, keeps no key. */
  lemma PoolRemovedOwnsNothing(r: Ring, id: string, vnodes: seq<u32>, key: u32)
    requires WellFormed(r) && WithoutNode(r.owner, vnodes).hashes != []
    requires forall h <- r.owner :: r.owner[h] == id ==> h in vnodes
    ensures var left := WithoutNode(r.owner, vnodes); Assigned(left, key) != id && Assigned(left, key) in r.owner.Values
  {
    hide WellFormed, WithoutNode, Assigned, NodesOf;
    var left := WithoutNode(r.owner, vnodes);
    LeftIsWellFormed(r.owner, vnodes);
    var h := NearestIn(left, key);
    AssignedIs(left, key, h);
    assert h in r.owner && h !in Elements(vnodes);
  }

  /** In every run of a pool, collisions or not, each hash is a virtual node of the instance that owns it. */
  lemma {:induction false} OwnersAreVnodes(hash: string -> u32, vhash: (string, nat) -> u32, replicas: nat, self: string, ops: seq<PoolOp>)
    ensures var r := Run(hash, vhash, replicas, self, ops).ring;
            WellFormed(r) && forall h <- r.owner :: h in Vnodes(vhash, r.owner[h], replicas)
    decreases |ops|
  {
    hide Owns, Vnodes, WithoutNode, Added, WellFormed;
    if ops == [] {
      FreshOwners(vhash, replicas, self);
    } else {
      OwnersAreVnodes(hash, vhash, replicas, self, ops[..|ops| - 1]);
      var p, op := Run(hash, vhash, replicas, self, ops[..|ops| - 1]), ops[|ops| - 1];
      if op.AddInstance? {
        AddedElements(p.ring, op.id, Vnodes(vhash, op.id, replicas));
        AddedOwners(p.ring, op.id, Vnodes(vhash, op.id, replicas));
      } else if op.RemoveInstance? {
        LeftIsWellFormed(p.ring.owner, Vnodes(vhash, op.id, replicas));
      }
    }
  }

  lemma FreshOwners(vhash: (string, nat) -> u32, replicas: nat, self: string)
    ensures var r := Fresh(vhash, replicas, self).ring;
            WellFormed(r) && forall h <- r.owner :: h in Vnodes(vhash, r.owner[h], replicas)
  {
    hide Vnodes, Added;
    var empty, vnodes := Ring([], map[]), Vnodes(vhash, self, replicas);
    assert Elements(empty.hashes) == empty.owner.Keys;
    AddedElements(empty, self, vnodes);
    AddedOwners(empty, self, vnodes);
  }

  /** In every run of a pool, the next removal takes all keys of the removed instance and gives them to others. */
  lemma RunRemovalEmpties(hash: string -> u32, vhash: (string, nat) -> u32, replicas: nat, self: string, ops: seq<PoolOp>,
                          id: string, key: u32)
    ensures var p, vnodes := Run(hash, vhash, replicas, self, ops), Vnodes(vhash, id, replicas);
            var left := WithoutNode(p.ring.owner, vnodes);
            left.hashes != [] ==> Assigned(left, key) != id && Assigned(left, key) in p.ring.owner.Values
  {
    hide Run, WithoutNode, Assigned, Vnodes, WellFormed;
    OwnersAreVnodes(hash, vhash, replicas, self, ops);
    var r := Run(hash, vhash, replicas, self, ops).ring;
    if WithoutNode(r.owner, Vnodes(vhash, id, replicas)).hashes != [] {
      PoolRemovedOwnsNothing(r, id, Vnodes(vhash, id, replicas), key);
    }
  }

  // ---------------------------------------------------------------- adding and removing again

  /** Adding an instance to the pool's ring and removing it again restores the owners if and only if its virtual nodes
      were new to the ring. */
  lemma PoolAddThenRemoveIff(r: Ring, id: string, vnodes: seq<u32>)
    ensures WithoutNode(Added(r, id, vnodes).owner, vnodes).owner == r.owner <==> Elements(vnodes) !! r.owner.Keys
  {
    hide Added, NodesOf;
    AddedOwners(r, id, vnodes);
    var back := WithoutNode(Added(r, id, vnodes).owner, vnodes).owner;
    assert back == r.owner - Elements(vnodes);
  }

  /** It restores every assignment if and only if each hash it takes over is followed clockwise by a node, none of its
      own virtual nodes, of the instance it takes it from. */
  lemma PoolAddThenRemoveRestoresIff(r: Ring, id: string, vnodes: seq<u32>)
    requires WellFormed(r) && r.hashes != []
    ensures (forall key: u32 :: StaysPut(r, WithoutNode(Added(r, id, vnodes).owner, vnodes), key))
            <==> (forall h <- vnodes :: h in r.owner ==> FollowedByOwn(r, vnodes, h))
  {
    hide WellFormed, WithoutNode, Assigned, Added, FollowedByOwn, StaysPut;
    BackIsLeft(r, id, vnodes);
    var left := WithoutNode(r.owner, vnodes);
    forall h <- vnodes | h in r.owner ensures StaysPut(r, left, h) <==> FollowedByOwn(r, vnodes, h) {
      StaysPutIff(r, vnodes, h);
    }
    if forall h <- vnodes :: h in r.owner ==> FollowedByOwn(r, vnodes, h) {
      forall key: u32 ensures StaysPut(r, left, key) {
        PutThroughNode(r, vnodes, key);
      }
    }
  }

  lemma BackIsLeft(r: Ring, id: string, vnodes: seq<u32>)
    ensures WithoutNode(Added(r, id, vnodes).owner, vnodes) == WithoutNode(r.owner, vnodes)
  {
    hide Added, NodesOf;
    AddedOwners(r, id, vnodes);
    assert Added(r, id, vnodes).owner - Elements(vnodes) == r.owner - Elements(vnodes);
  }

  // ---------------------------------------------------------------- a shared hash

  /** Two instances that share their virtual node's hash, and the pool's own instance elsewhere. */
  function Shared(id: string, i: nat): u32 { if id == "self" then 9 else 5 }

  const JOINS := [PoolOp.AddInstance("b"), PoolOp.AddInstance("a")]

  lemma SharedVnodes(id: string)
    ensures Vnodes(Shared, id, 1) == [Shared(id, 0)]
  {
  }

  lemma JoinsRun(hash: string -> u32)
    ensures var p := Run(hash, Shared, 1, "self", JOINS);
            p.members == {"self", "b", "a"} && p.ring.owner == map[9 := "self", 5 := "a"]
  {
    hide Added, Vnodes, Owns;
    SharedVnodes("self");
    SharedVnodes("a");
    SharedVnodes("b");
    assert JOINS[..1] == [PoolOp.AddInstance("b")] && JOINS[..1][..0] == [];
    var empty := Ring([], map[]);
    AddedOwners(empty, "self", [9]);
    var r0 := Run(hash, Shared, 1, "self", []).ring;
    assert r0.owner == map[9 := "self"];
    AddedOwners(r0, "b", [5]);
    var r1 := Run(hash, Shared, 1, "self", JOINS[..1]).ring;
    assert r1.owner == map[9 := "self", 5 := "b"];
    AddedOwners(r1, "a", [5]);
  }

  /** "a" joined last and took the shared hash from "b"; removing "b" takes the key of "a", which stays a member. */
  lemma PoolRemovalCanTakeKeys(hash: string -> u32)
    ensures var p := Run(hash, Shared, 1, "self", JOINS);
            var left := WithoutNode(p.ring.owner, Vnodes(Shared, "b", 1));
            && "a" in p.members && "b" in p.members && p.ring.hashes != [] && left.hashes != []
            && Assigned(p.ring, 5) == "a" && Assigned(left, 5) == "self"
  {
    hide Run, WithoutNode, Assigned, WellFormed, NodesOf, Vnodes;
    var p := Run(hash, Shared, 1, "self", JOINS);
    JoinsRun(hash);
    OwnersAreVnodes(hash, Shared, 1, "self", JOINS);
    NodeOwnsItself(p.ring, 5);
    SharedVnodes("b");
    var left := WithoutNode(p.ring.owner, [5]);
    LeftIsWellFormed(p.ring.owner, [5]);
    assert 9 in Elements(left.hashes) && left.hashes != [];
    assert Elements(left.hashes) == {9};
    assert Nearest(Elements(left.hashes), 5, 9);
    AssignedIs(left, 5, 9);
  }

  /** The order in which "a" and "b" join then decides who owns the shared hash. */
  lemma JoinOrderCanMatter()
    ensures var r := Ring([], map[]); Added(Added(r, "a", [5]), "b", [5]).owner != Added(Added(r, "b", [5]), "a", [5]).owner
  {
    hide Added;
    JoinOrderMattersIff(Ring([], map[]), "a", [5], "b", [5]);
    assert 5 in Elements([5]);
  }

  // ---------------------------------------------------------------- two runners

  /** Two pools with the same members, with histories over `ids`, both run the station. */
  ghost predicate TwoRunners(hash: string -> u32, vhash: (string, nat) -> u32, replicas: nat, ids: set<string>,
                             a: string, aOps: seq<PoolOp>, b: string, bOps: seq<PoolOp>, station: string)
  {
    var p, q := Run(hash, vhash, replicas, a, aOps), Run(hash, vhash, replicas, b, bOps);
    && a != b && JoinsFrom(ids, a, aOps) && JoinsFrom(ids, b, bOps) && p.members == q.members
    && station in p.running && station in q.running
  }

  /** A pool that adds the other instance, then removes itself and joins again, and starts a station. */
  function Rejoin(self: string, other: string, station: string): seq<PoolOp>
  {
    [PoolOp.AddInstance(other), PoolOp.RemoveInstance(self), PoolOp.AddInstance(self), PoolOp.StartExecutor(station, true, true)]
  }

  ghost function RejoinedRing(vhash: (string, nat) -> u32, replicas: nat, self: string, other: string): Ring
  {
    var mine := Vnodes(vhash, self, replicas);
    var both := Added(Added(Ring([], map[]), self, mine), other, Vnodes(vhash, other, replicas));
    Added(WithoutNode(both.owner, mine), self, mine)
  }

  /** Having joined last, it owns each of its hashes, shared ones too, and runs a station that falls on one. */
  lemma RejoinRuns(hash: string -> u32, vhash: (string, nat) -> u32, replicas: nat, self: string, other: string, station: string)
    requires self != other && hash(station) in Vnodes(vhash, self, replicas)
    ensures var p := Run(hash, vhash, replicas, self, Rejoin(self, other, station));
            p.members == {self, other} && station in p.running
  {
    hide Added, WithoutNode, Vnodes, Owns;
    var ops := Rejoin(self, other, station);
    assert ops[..3][..2] == ops[..2] && ops[..2][..1] == ops[..1] && ops[..1][..0] == [];
    var p0, p1 := Run(hash, vhash, replicas, self, []), Run(hash, vhash, replicas, self, ops[..1]);
    assert p1 == PoolState(self, {self, other}, Added(p0.ring, other, Vnodes(vhash, other, replicas)), {});
    var p2, p3 := Run(hash, vhash, replicas, self, ops[..2]), Run(hash, vhash, replicas, self, ops[..3]);
    assert p2.members == {other} && p2.running == {};
    assert p3 == PoolState(self, {self, other}, RejoinedRing(vhash, replicas, self, other), {});
    RejoinOwns(hash, vhash, replicas, self, ops[..3], station);
  }

  lemma RejoinOwns(hash: string -> u32, vhash: (string, nat) -> u32, replicas: nat, self: string, ops: seq<PoolOp>, station: string)
    requires ops != [] && ops[|ops| - 1] == PoolOp.AddInstance(self)
    requires self !in Run(hash, vhash, replicas, self, ops[..|ops| - 1]).members
    requires hash(station) in Vnodes(vhash, self, replicas)
    ensures Owns(hash, self, Run(hash, vhash, replicas, self, ops).ring, station)
  {
    hide Added, WithoutNode, Vnodes, WellFormed, Assigned;
    var p, r := Run(hash, vhash, replicas, self, ops[..|ops| - 1]), Run(hash, vhash, replicas, self, ops).ring;
    AddedOwners(p.ring, self, Vnodes(vhash, self, replicas));
    OwnersAreVnodes(hash, vhash, replicas, self, ops);
    NodeOwnsItself(r, hash(station));
  }

  /** Pools with equal members never both run a station, whatever their histories over `ids` and wherever stations fall
      on the ring, if and only if no two of those instances share a virtual-node hash. */
  lemma SingleRunnerIff(vhash: (string, nat) -> u32, replicas: nat, ids: set<string>)
    ensures (forall hash: string -> u32, a, aOps, b, bOps, station ::
               !TwoRunners(hash, vhash, replicas, ids, a, aOps, b, bOps, station))
            <==> CollisionFree(vhash, replicas, ids)
  {
    hide Run, TwoRunners, Vnodes;
    if CollisionFree(vhash, replicas, ids) {
      forall hash: string -> u32, a, aOps, b, bOps, station
        ensures !TwoRunners(hash, vhash, replicas, ids, a, aOps, b, bOps, station)
      {
        NotTwoRunners(hash, vhash, replicas, ids, a, aOps, b, bOps, station);
      }
    } else {
      var a, b :| a in ids && b in ids && a != b
                  && !(Elements(Vnodes(vhash, a, replicas)) !! Elements(Vnodes(vhash, b, replicas)));
      var h :| h in Elements(Vnodes(vhash, a, replicas)) && h in Elements(Vnodes(vhash, b, replicas));
      BothRun(vhash, replicas, ids, a, b, h);
    }
  }

  lemma NotTwoRunners(hash: string -> u32, vhash: (string, nat) -> u32, replicas: nat, ids: set<string>,
                      a: string, aOps: seq<PoolOp>, b: string, bOps: seq<PoolOp>, station: string)
    requires CollisionFree(vhash, replicas, ids)
    ensures !TwoRunners(hash, vhash, replicas, ids, a, aOps, b, bOps, station)
  {
    hide Run, CollisionFree, JoinsFrom;
    if a != b && JoinsFrom(ids, a, aOps) && JoinsFrom(ids, b, bOps)
       && Run(hash, vhash, replicas, a, aOps).members == Run(hash, vhash, replicas, b, bOps).members {
      SingleRunner(hash, vhash, replicas, ids, a, aOps, b, bOps, station);
    }
  }

  lemma BothRun(vhash: (string, nat) -> u32, replicas: nat, ids: set<string>, a: string, b: string, h: u32)
    requires a in ids && b in ids && a != b && h in Vnodes(vhash, a, replicas) && h in Vnodes(vhash, b, replicas)
    ensures exists hash: string -> u32, aOps, bOps, station :: TwoRunners(hash, vhash, replicas, ids, a, aOps, b, bOps, station)
  {
    hide Run, Vnodes;
    var hash: string -> u32 := s => h;
    RejoinRuns(hash, vhash, replicas, a, b, "station");
    RejoinRuns(hash, vhash, replicas, b, a, "station");
    assert TwoRunners(hash, vhash, replicas, ids, a, Rejoin(a, b, "station"), b, Rejoin(b, a, "station"), "station");
  }
}
