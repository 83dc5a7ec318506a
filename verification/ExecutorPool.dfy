/** The executor pool of internal/executor/pool.go: one instance's ring of members and the stations it runs. */
module ExecutorPools {
  import opened HashRing
  import opened Distributors
  import opened Seqs

  /** Virtual-node hashes of an instance. */
  function Vnodes(vhash: (string, nat) -> u32, id: string, replicas: nat): (r: seq<u32>)
    ensures |r| == replicas && forall i :: 0 <= i < replicas ==> r[i] == vhash(id, i)
  {
    seq(replicas, i requires 0 <= i => vhash(id, i))
  }

  /** removeNode: forget the instance's hashes whoever owns them, then rebuild the node list from what is left. */
  ghost function NodesOf(owner: map<u32, string>): (r: seq<u32>)
    ensures Ascending(r) && Elements(r) == owner.Keys && Distinct(r)
  {
    AscendingListing(owner.Keys);
    var r: seq<u32> :| Ascending(r) && Elements(r) == owner.Keys && Distinct(r);
    r
  }

  lemma {:induction false} AscendingListing(hashes: set<u32>)
    ensures exists r: seq<u32> :: Ascending(r) && Elements(r) == hashes && Distinct(r)
    decreases hashes
  {
    if hashes == {} {
      var none: seq<u32> := [];
      assert Ascending(none) && Elements(none) == hashes && Distinct(none);
    } else {
      var top := Greatest(hashes);
      AscendingListing(hashes - {top});
      var r: seq<u32> :| Ascending(r) && Elements(r) == hashes - {top} && Distinct(r);
      forall i | 0 <= i < |r| ensures r[i] <= top && r[i] != top {
        assert r[i] in Elements(r);
      }
      assert Elements(r + [top]) == hashes;
      assert Ascending(r + [top]) && Distinct(r + [top]);
    }
  }

  lemma {:induction false} Greatest(hashes: set<u32>) returns (top: u32)
    requires hashes != {}
    ensures top in hashes && forall h <- hashes :: h <= top
    decreases hashes
  {
    var x :| x in hashes;
    assert forall h <- hashes :: h == x || h in hashes - {x};
    top := x;
    if hashes != {x} {
      var t := Greatest(hashes - {x});
      top := if x < t then t else x;
    }
  }

  ghost function WithoutNode(owner: map<u32, string>, vnodes: seq<u32>): Ring
  {
    var left := owner - Elements(vnodes);
    Ring(NodesOf(left), left)
  }

  class ConsistentHashRing {
    var nodes: seq<u32>
    var nodeMap: map<u32, string>
    const replicas: nat
    const hash: string -> u32
    const vhash: (string, nat) -> u32

    ghost predicate Valid()
      reads this
    {
      WellFormed(Contents())
    }

    function Contents(): Ring
      reads this
    {
      Ring(nodes, nodeMap)
    }

    constructor (replicas: nat, hash: string -> u32, vhash: (string, nat) -> u32)
      ensures Valid() && Contents() == Ring([], map[])
      ensures this.replicas == replicas && this.hash == hash && this.vhash == vhash
    {
      this.replicas, this.hash, this.vhash, nodes, nodeMap := replicas, hash, vhash, [], map[];
    }

    method AddNode(id: string)
      requires Valid()
      modifies this
      ensures Valid() && Contents() == Added(old(Contents()), id, Vnodes(vhash, id, replicas))
    {
      hide Claimed;
      ClaimNone(nodeMap, id, Vnodes(vhash, id, 0));
      for i := 0 to replicas
        invariant nodes == old(nodes) + Vnodes(vhash, id, i)
        invariant nodeMap == old(nodeMap) + Claimed(id, Vnodes(vhash, id, i))
      {
        var h := vhash(id, i);
        nodes := nodes + [h];
        nodeMap := nodeMap[h := id];
        assert Vnodes(vhash, id, i + 1) == Vnodes(vhash, id, i) + [h];
        ClaimOne(old(nodeMap), id, Vnodes(vhash, id, i), h);
      }
      nodes := SortHashes(nodes);
      AddedElements(old(Contents()), id, Vnodes(vhash, id, replicas));
    }

    method RemoveNode(id: string)
      modifies this
      ensures Valid() && Contents() == WithoutNode(old(nodeMap), Vnodes(vhash, id, replicas))
    {
      for i := 0 to replicas
        invariant nodeMap == old(nodeMap) - Elements(Vnodes(vhash, id, i))
      {
        nodeMap := nodeMap - {vhash(id, i)};
        assert Vnodes(vhash, id, i + 1) == Vnodes(vhash, id, i) + [vhash(id, i)];
      }
      var newNodes: seq<u32> := [];
      var rest := nodeMap.Keys;
      while rest != {}
        invariant rest !! Elements(newNodes) && rest + Elements(newNodes) == nodeMap.Keys
        invariant Distinct(newNodes)
        decreases rest
      {
        var h :| h in rest;
        newNodes := newNodes + [h];
        rest := rest - {h};
      }
      SortedListing(newNodes, nodeMap);
      nodes := SortHashes(newNodes);
    }

    method GetNode(key: string) returns (id: string, ok: bool)
      requires Valid()
      ensures ok <==> nodes != []
      ensures ok ==> id == Assigned(Contents(), hash(key))
      ensures ok ==> exists h :: Nearest(Elements(nodes), hash(key), h) && id == OwnerAt(nodeMap, h)
    {
      if |nodes| == 0 {
        return "", false;
      }
      var h := FindNode(nodes, hash(key));
      return OwnerAt(nodeMap, h), true;
    }
  }

  /** Sorting any listing of the keys gives the one ascending listing. */
  lemma SortedListing(s: seq<u32>, owner: map<u32, string>)
    requires Distinct(s) && Elements(s) == owner.Keys
    ensures SortHashes(s) == NodesOf(owner)
  {
    SameElements(SortHashes(s), s);
    var b: seq<u32> := NodesOf(owner);
    forall h: u32 ensures Copies(s, h) == Copies(b, h) {
      DistinctCount(s, h);
      DistinctCount(b, h);
      assert h in s <==> h in Elements(s);
      assert h in b <==> h in Elements(b);
    }
    assert multiset(s) == multiset(b) by {
      forall h: u32 ensures multiset(s)[h] == multiset(b)[h] { assert Copies(s, h) == Copies(b, h); }
    }
    AscendingUnique(SortHashes(s), b);
  }

  // ---------------------------------------------------------------- the pool

  /** A pool as a value: its own id, the known members, its ring, and the stations it runs. */
  datatype PoolState = PoolState(self: string, members: set<string>, ring: Ring, running: set<string>)

  ghost predicate Owns(hash: string -> u32, self: string, ring: Ring, station: string)
  {
    ring.hashes != [] && Assigned(ring, hash(station)) == self
  }

  /** Single runner, locally: whatever runs here belongs here. */
  ghost predicate RunsOnlyItsOwn(hash: string -> u32, p: PoolState)
  {
    forall s <- p.running :: Owns(hash, p.self, p.ring, s)
  }

  ghost function Rebalanced(hash: string -> u32, p: PoolState): PoolState
  {
    p.(running := set s | s in p.running && Owns(hash, p.self, p.ring, s))
  }

  /** Pool operations; the flags say how the media engine and the executor answer. */
  datatype PoolOp =
    | StartExecutor(station: string, mediaUp: bool, starts: bool)
    | StopExecutor(station: string, stops: bool)
    | AddInstance(id: string)
    | RemoveInstance(id: string)

  ghost function Apply(hash: string -> u32, vhash: (string, nat) -> u32, replicas: nat, p: PoolState, op: PoolOp): PoolState
  {
    match op
    case StartExecutor(s, mediaUp, starts) =>
      if s !in p.running && Owns(hash, p.self, p.ring, s) && mediaUp && starts then p.(running := p.running + {s}) else p
    case StopExecutor(s, stops) =>
      if stops then p.(running := p.running - {s}) else p
    case AddInstance(id) =>
      if id in p.members then p
      else Rebalanced(hash, p.(members := p.members + {id}, ring := Added(p.ring, id, Vnodes(vhash, id, replicas))))
    case RemoveInstance(id) =>
      if id !in p.members then p
      else Rebalanced(hash, p.(members := p.members - {id}, ring := WithoutNode(p.ring.owner, Vnodes(vhash, id, replicas))))
  }

  class Pool {
    const instanceID: string
    const ring: ConsistentHashRing
    var executors: set<string>
    var instances: seq<string>

    ghost predicate Valid()
      reads this, ring
    {
      ring.Valid() && Distinct(instances)
    }

    ghost function State(): PoolState
      reads this, ring
    {
      PoolState(instanceID, Elements(instances), ring.Contents(), executors)
    }

    constructor (instanceID: string, replicas: nat, hash: string -> u32, vhash: (string, nat) -> u32)
      ensures Valid() && fresh(ring) && ring.hash == hash && ring.vhash == vhash && ring.replicas == replicas
      ensures State() == Fresh(vhash, replicas, instanceID)
    {
      this.instanceID, executors, instances := instanceID, {}, [instanceID];
      ring := new ConsistentHashRing(replicas, hash, vhash);
      new;
      ring.AddNode(instanceID);
      assert Elements(instances) == {instanceID};
    }

    method StartExecutor(station: string, mediaUp: bool, starts: bool) returns (ok: bool)
      requires Valid()
      modifies this`executors
      ensures Valid()
      ensures State() == Apply(ring.hash, ring.vhash, ring.replicas, old(State()), PoolOp.StartExecutor(station, mediaUp, starts))
      ensures ok <==> old(station !in executors && Owns(ring.hash, instanceID, ring.Contents(), station)) && mediaUp && starts
      ensures executors == if ok then old(executors) + {station} else old(executors)
    {
      if station in executors {
        return false;
      }
      var node, found := ring.GetNode(station);
      if !found || node != instanceID {
        return false;
      }
      if !mediaUp {
        return false;
      }
      if !starts {
        return false;
      }
      executors := executors + {station};
      return true;
    }

    method StopExecutor(station: string, stops: bool) returns (ok: bool)
      requires Valid()
      modifies this`executors
      ensures Valid()
      ensures State() == Apply(ring.hash, ring.vhash, ring.replicas, old(State()), PoolOp.StopExecutor(station, stops))
      ensures ok <==> old(station in executors) && stops
      ensures executors == if ok then old(executors) - {station} else old(executors)
    {
      if station !in executors {
        return false;
      }
      if !stops {
        return false;
      }
      executors := executors - {station};
      return true;
    }

    /** Stop every executor whose station belongs to another instance now; a failing stop is only logged. */
    method RebalanceExecutors()
      requires Valid()
      modifies this`executors
      ensures Valid() && State() == Rebalanced(ring.hash, old(State()))
      ensures forall s :: s in executors <==> s in old(executors) && Owns(ring.hash, instanceID, ring.Contents(), s)
    {
      var shouldRun: set<string>, todo := {}, executors;
      while todo != {}
        invariant todo <= executors == old(executors)
        invariant shouldRun == set s | s in executors - todo && Owns(ring.hash, instanceID, ring.Contents(), s)
        decreases todo
      {
        var s :| s in todo;
        var node, found := ring.GetNode(s);
        if found && node == instanceID {
          shouldRun := shouldRun + {s};
        }
        todo := todo - {s};
      }
      executors := executors * shouldRun;
      assert executors == Rebalanced(ring.hash, old(State())).running;
    }

    method AddInstance(id: string) returns (ok: bool)
      requires Valid()
      modifies this, ring
      ensures Valid() && (ok <==> id !in old(instances))
      ensures State() == Apply(ring.hash, ring.vhash, ring.replicas, old(State()), PoolOp.AddInstance(id))
      ensures !ok ==> State() == old(State())
      ensures ok ==> Elements(instances) == Elements(old(instances)) + {id}
      ensures ok ==> ring.Contents() == Added(old(ring.Contents()), id, Vnodes(ring.vhash, id, ring.replicas))
      ensures ok ==> forall s :: s in executors <==> s in old(executors) && Owns(ring.hash, instanceID, ring.Contents(), s)
    {
      for k := 0 to |instances|
        invariant id !in instances[..k]
      {
        if instances[k] == id {
          return false;
        }
      }
      ghost var was := State();
      instances := instances + [id];
      ring.AddNode(id);
      assert State().members == was.members + {id};
      RebalanceExecutors();
      return true;
    }

    method RemoveInstance(id: string) returns (ok: bool)
      requires Valid()
      modifies this, ring
      ensures Valid() && (ok <==> id in old(instances))
      ensures State() == Apply(ring.hash, ring.vhash, ring.replicas, old(State()), PoolOp.RemoveInstance(id))
      ensures !ok ==> State() == old(State())
      ensures ok ==> Elements(instances) == Elements(old(instances)) - {id}
      ensures ok ==> ring.Contents() == WithoutNode(old(ring.nodeMap), Vnodes(ring.vhash, id, ring.replicas))
      ensures ok ==> forall s :: s in executors <==> s in old(executors) && Owns(ring.hash, instanceID, ring.Contents(), s)
    {
      var newInstances, found := [], false;
      for k := 0 to |instances|
        invariant found <==> id in instances[..k]
        invariant forall x :: x in newInstances <==> x in instances[..k] && x != id
        invariant Distinct(newInstances)
      {
        if instances[k] != id {
          assert instances[k] !in instances[..k];
          newInstances := newInstances + [instances[k]];
        } else {
          found := true;
        }
      }
      if !found {
        return false;
      }
      ghost var was := State();
      instances := newInstances;
      ring.RemoveNode(id);
      assert State().members == was.members - {id};
      RebalanceExecutors();
      return true;
    }
  }

  function Fresh(vhash: (string, nat) -> u32, replicas: nat, self: string): PoolState
  {
    PoolState(self, {self}, Added(Ring([], map[]), self, Vnodes(vhash, self, replicas)), {})
  }

  // ---------------------------------------------------------------- single runner

  ghost function Run(hash: string -> u32, vhash: (string, nat) -> u32, replicas: nat, self: string, ops: seq<PoolOp>): PoolState
    decreases |ops|
  {
    if ops == [] then Fresh(vhash, replicas, self)
    else Apply(hash, vhash, replicas, Run(hash, vhash, replicas, self, ops[..|ops| - 1]), ops[|ops| - 1])
  }

  /** After every operation, in every run, a running executor's station is owned by this instance's ring. */
  lemma {:induction false} EveryRunnerIsOwner(hash: string -> u32, vhash: (string, nat) -> u32, replicas: nat, self: string, ops: seq<PoolOp>)
    ensures RunsOnlyItsOwn(hash, Run(hash, vhash, replicas, self, ops))
    ensures Run(hash, vhash, replicas, self, ops).self == self
    decreases |ops|
  {
    hide Owns;
    hide Added;
    hide WithoutNode;
    if ops != [] {
      EveryRunnerIsOwner(hash, vhash, replicas, self, ops[..|ops| - 1]);
    }
  }

  /** A member that joins or leaves stops the stations that are no longer owned here, and only those. */
  lemma RebalanceKeepsOwned(hash: string -> u32, vhash: (string, nat) -> u32, replicas: nat, p: PoolState, op: PoolOp, s: string)
    requires (op.AddInstance? && op.id !in p.members) || (op.RemoveInstance? && op.id in p.members)
    ensures var q := Apply(hash, vhash, replicas, p, op);
            s in q.running <==> s in p.running && q.ring.hashes != [] && Assigned(q.ring, hash(s)) == p.self
  {
    hide Added, WithoutNode, Assigned;
  }

  /** In every run: when another instance joins, the running stations that stop are exactly those it owns from now on. */
  lemma JoinStopsExactly(hash: string -> u32, vhash: (string, nat) -> u32, replicas: nat, self: string, ops: seq<PoolOp>,
                         id: string, s: string)
    requires var p := Run(hash, vhash, replicas, self, ops); id != self && id !in p.members && s in p.running
    ensures var p := Run(hash, vhash, replicas, self, ops);
            var ring := Added(p.ring, id, Vnodes(vhash, id, replicas));
            && ring.hashes != []
            && (s !in Run(hash, vhash, replicas, self, ops + [AddInstance(id)]).running <==> Assigned(ring, hash(s)) == id)
  {
    hide Added, WithoutNode, Assigned, Vnodes;
    var p := Run(hash, vhash, replicas, self, ops);
    EveryRunnerIsOwner(hash, vhash, replicas, self, ops);
    assert Owns(hash, self, p.ring, s);
    AddMovesOnlyToNew(p.ring, id, Vnodes(vhash, id, replicas), hash(s));
    assert (ops + [AddInstance(id)])[..|ops|] == ops;
    RebalanceKeepsOwned(hash, vhash, replicas, p, AddInstance(id), s);
  }

  /** No two of these instances share a virtual-node hash. */
  predicate CollisionFree(vhash: (string, nat) -> u32, replicas: nat, ids: set<string>)
  {
    forall a <- ids, b <- ids :: a != b ==> Elements(Vnodes(vhash, a, replicas)) !! Elements(Vnodes(vhash, b, replicas))
  }

  /** The instances a pool's history ever lets join, itself included. */
  predicate JoinsFrom(ids: set<string>, self: string, ops: seq<PoolOp>)
  {
    self in ids && forall k :: 0 <= k < |ops| && ops[k].AddInstance? ==> ops[k].id in ids
  }

  /** The hashes present are those of the members, each owned by its member. */
  ghost predicate IsCanonical(vhash: (string, nat) -> u32, replicas: nat, members: set<string>, owner: map<u32, string>)
  {
    && (forall h <- owner :: owner[h] in members && h in Vnodes(vhash, owner[h], replicas))
    && (forall id <- members, h <- Vnodes(vhash, id, replicas) :: h in owner)
  }

  lemma VnodesApart(vhash: (string, nat) -> u32, replicas: nat, ids: set<string>, a: string, b: string, h: u32)
    requires CollisionFree(vhash, replicas, ids) && a in ids && b in ids
    requires h in Vnodes(vhash, a, replicas) && h in Vnodes(vhash, b, replicas)
    ensures a == b
  {
    assert h in Elements(Vnodes(vhash, a, replicas)) && h in Elements(Vnodes(vhash, b, replicas));
  }

  /** The member set determines the owners. */
  lemma CanonicalIsUnique(vhash: (string, nat) -> u32, replicas: nat, ids: set<string>, members: set<string>, m: map<u32, string>, n: map<u32, string>)
    requires CollisionFree(vhash, replicas, ids) && members <= ids
    requires IsCanonical(vhash, replicas, members, m) && IsCanonical(vhash, replicas, members, n)
    ensures m == n
  {
    hide CollisionFree;
    forall h | h in m ensures h in n && n[h] == m[h] {
      assert h in n;
      VnodesApart(vhash, replicas, ids, m[h], n[h], h);
    }
    forall h | h in n ensures h in m {
      assert h in Vnodes(vhash, n[h], replicas);
    }
  }

  lemma CanonicalAdd(vhash: (string, nat) -> u32, replicas: nat, members: set<string>, r: Ring, id: string)
    requires IsCanonical(vhash, replicas, members, r.owner)
    ensures IsCanonical(vhash, replicas, members + {id}, Added(r, id, Vnodes(vhash, id, replicas)).owner)
  {
    hide Vnodes;
    var vnodes := Vnodes(vhash, id, replicas);
    var owner := Added(r, id, vnodes).owner;
    AddedOwners(r, id, vnodes);
    hide Added;
    forall h | h in owner ensures owner[h] in members + {id} && h in Vnodes(vhash, owner[h], replicas) {
      assert h !in vnodes ==> h in r.owner;
    }
    forall m <- members + {id}, h <- Vnodes(vhash, m, replicas) ensures h in owner {
      assert m in members ==> h in r.owner;
    }
  }

  lemma AddedOwners(r: Ring, id: string, vnodes: seq<u32>)
    ensures var owner := Added(r, id, vnodes).owner;
            forall h: u32 :: (h in owner <==> h in r.owner || h in vnodes)
                             && (h in owner ==> owner[h] == if h in vnodes then id else r.owner[h])
  {
  }

  lemma CanonicalRemove(vhash: (string, nat) -> u32, replicas: nat, ids: set<string>, members: set<string>, owner: map<u32, string>, id: string)
    requires CollisionFree(vhash, replicas, ids) && members <= ids && id in ids && IsCanonical(vhash, replicas, members, owner)
    ensures IsCanonical(vhash, replicas, members - {id}, WithoutNode(owner, Vnodes(vhash, id, replicas)).owner)
  {
    hide CollisionFree;
    var left := WithoutNode(owner, Vnodes(vhash, id, replicas)).owner;
    forall m <- members - {id}, h <- Vnodes(vhash, m, replicas) ensures h in left {
      if h in Vnodes(vhash, id, replicas) {
        VnodesApart(vhash, replicas, ids, m, id, h);
      }
    }
    forall h | h in left ensures left[h] in members - {id} && h in Vnodes(vhash, left[h], replicas) {
      assert h in owner && left[h] == owner[h] && h !in Vnodes(vhash, id, replicas);
    }
  }

  /** Without collisions, a pool's owners and node hashes follow from its member set, whatever the join order. */
  lemma {:induction false} RingFollowsMembers(hash: string -> u32, vhash: (string, nat) -> u32, replicas: nat, ids: set<string>,
                                              self: string, ops: seq<PoolOp>)
    requires CollisionFree(vhash, replicas, ids) && JoinsFrom(ids, self, ops)
    ensures var p := Run(hash, vhash, replicas, self, ops);
            p.members <= ids && IsCanonical(vhash, replicas, p.members, p.ring.owner) && WellFormed(p.ring)
    decreases |ops|
  {
    hide CollisionFree, IsCanonical, Owns, WellFormed, Added, WithoutNode, Vnodes;
    if ops == [] {
      FreshIsCanonical(vhash, replicas, self);
    } else {
      RingFollowsMembers(hash, vhash, replicas, ids, self, ops[..|ops| - 1]);
      var p, op := Run(hash, vhash, replicas, self, ops[..|ops| - 1]), ops[|ops| - 1];
      if op.AddInstance? {
        AddedElements(p.ring, op.id, Vnodes(vhash, op.id, replicas));
        CanonicalAdd(vhash, replicas, p.members, p.ring, op.id);
      } else if op.RemoveInstance? && op.id in p.members {
        CanonicalRemove(vhash, replicas, ids, p.members, p.ring.owner, op.id);
        WithoutIsWellFormed(p.ring.owner, Vnodes(vhash, op.id, replicas));
      }
    }
  }

  lemma WithoutIsWellFormed(owner: map<u32, string>, vnodes: seq<u32>)
    ensures WellFormed(WithoutNode(owner, vnodes))
  {
  }

  lemma FreshIsCanonical(vhash: (string, nat) -> u32, replicas: nat, self: string)
    ensures var p := Fresh(vhash, replicas, self); IsCanonical(vhash, replicas, p.members, p.ring.owner) && WellFormed(p.ring)
  {
    hide IsCanonical, Added, Vnodes;
    var empty := Ring([], map[]);
    assert WellFormed(empty);
    AddedElements(empty, self, Vnodes(vhash, self, replicas));
    NobodyIsCanonical(vhash, replicas);
    CanonicalAdd(vhash, replicas, {}, empty, self);
    assert {} + {self} == {self};
  }

  lemma NobodyIsCanonical(vhash: (string, nat) -> u32, replicas: nat)
    ensures IsCanonical(vhash, replicas, {}, map[])
  {
  }

  lemma OneOwner(hash: string -> u32, r: Ring, s: Ring, a: string, b: string, station: string)
    requires WellFormed(r) && WellFormed(s) && r.owner == s.owner
    requires Owns(hash, a, r, station) && Owns(hash, b, s, station)
    ensures a == b
  {
    assert Elements(r.hashes) == Elements(s.hashes);
  }

  /** Two pools that have come to know the same members, by any histories, never both run a station. */
  lemma SingleRunner(hash: string -> u32, vhash: (string, nat) -> u32, replicas: nat, ids: set<string>,
                     a: string, aOps: seq<PoolOp>, b: string, bOps: seq<PoolOp>, station: string)
    requires CollisionFree(vhash, replicas, ids) && JoinsFrom(ids, a, aOps) && JoinsFrom(ids, b, bOps) && a != b
    requires Run(hash, vhash, replicas, a, aOps).members == Run(hash, vhash, replicas, b, bOps).members
    ensures !(station in Run(hash, vhash, replicas, a, aOps).running && station in Run(hash, vhash, replicas, b, bOps).running)
  {
    var p, q := Run(hash, vhash, replicas, a, aOps), Run(hash, vhash, replicas, b, bOps);
    EveryRunnerIsOwner(hash, vhash, replicas, a, aOps);
    EveryRunnerIsOwner(hash, vhash, replicas, b, bOps);
    RingFollowsMembers(hash, vhash, replicas, ids, a, aOps);
    RingFollowsMembers(hash, vhash, replicas, ids, b, bOps);
    CanonicalIsUnique(vhash, replicas, ids, p.members, p.ring.owner, q.ring.owner);
    hide CollisionFree;
    hide IsCanonical;
    hide Run;
    if station in p.running && station in q.running {
      OneOwner(hash, p.ring, q.ring, a, b, station);
    }
  }

  /** Join order matters exactly when two joining instances share a virtual-node hash: the last to join takes it. */
  lemma JoinOrderMattersIff(r: Ring, a: string, av: seq<u32>, b: string, bv: seq<u32>)
    requires a != b
    ensures Added(Added(r, a, av), b, bv).owner == Added(Added(r, b, bv), a, av).owner <==> Elements(av) !! Elements(bv)
  {
    hide Added;
    TwoAdded(r, a, av, b, bv);
    TwoAdded(r, b, bv, a, av);
    var x, y := Added(Added(r, a, av), b, bv).owner, Added(Added(r, b, bv), a, av).owner;
    if h :| h in av && h in bv {
      assert x[h] == b && y[h] == a;
      assert h in Elements(av) && h in Elements(bv);
    } else {
      assert Elements(av) !! Elements(bv);
      assert x == y;
    }
  }

  lemma TwoAdded(r: Ring, a: string, av: seq<u32>, b: string, bv: seq<u32>)
    ensures var x := Added(Added(r, a, av), b, bv).owner;
            forall h {:trigger h in x} {:trigger x[h]} ::
              && (h in x <==> h in r.owner || h in av || h in bv)
              && (h in x ==> x[h] == if h in bv then b else if h in av then a else r.owner[h])
  {
    hide Added;
    var x := Added(Added(r, a, av), b, bv).owner;
    forall h: u32
      ensures h in x <==> h in r.owner || h in av || h in bv
      ensures h in x ==> x[h] == if h in bv then b else if h in av then a else r.owner[h]
    {
      AddedOwner(r, a, av, h);
      AddedOwner(Added(r, a, av), b, bv, h);
    }
  }

  lemma AddedOwner(r: Ring, id: string, vnodes: seq<u32>, h: u32)
    ensures var owner := Added(r, id, vnodes).owner;
            && (h in owner <==> h in r.owner || h in vnodes)
            && (h in owner ==> owner[h] == if h in vnodes then id else r.owner[h])
  {
  }
}
