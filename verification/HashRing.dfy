/** Consistent hashing shared by internal/executor/distributor.go and internal/executor/pool.go:
    sorted virtual-node hashes, binary search with wrap-around, and owners by hash. */
module HashRing {
  import opened Seqs

  const SPACE: int := 0x1_0000_0000

  type u32 = n: int | 0 <= n < SPACE

  predicate Ascending(s: seq<u32>)
  {
    forall i, j :: 0 <= i < j < |s| ==> s[i] <= s[j]
  }

  function InsertHash(s: seq<u32>, h: u32): (r: seq<u32>)
    requires Ascending(s)
    ensures Ascending(r) && multiset(r) == multiset(s) + multiset{h}
  {
    if s == [] then [h]
    else if s[|s| - 1] <= h then s + [h]
    else
      var rest, last := s[..|s| - 1], s[|s| - 1];
      assert s == rest + [last];
      var r := InsertHash(rest, h);
      AllBelow(r, rest, h, last);
      r + [last]
  }

  lemma AllBelow(r: seq<u32>, rest: seq<u32>, h: u32, last: u32)
    requires multiset(r) == multiset(rest) + multiset{h} && h <= last
    requires forall i :: 0 <= i < |rest| ==> rest[i] <= last
    ensures forall i :: 0 <= i < |r| ==> r[i] <= last
  {
    forall i | 0 <= i < |r| ensures r[i] <= last {
      assert r[i] in multiset(r);
    }
  }

  function SortHashes(s: seq<u32>): (r: seq<u32>)
    ensures Ascending(r) && multiset(r) == multiset(s)
  {
    if s == [] then []
    else
      assert s == s[..|s| - 1] + [s[|s| - 1]];
      InsertHash(SortHashes(s[..|s| - 1]), s[|s| - 1])
  }

  lemma SameElements(a: seq<u32>, b: seq<u32>)
    requires multiset(a) == multiset(b)
    ensures Elements(a) == Elements(b) && |a| == |b|
  {
    assert forall h :: h in a <==> h in multiset(a);
    assert forall h :: h in b <==> h in multiset(b);
    assert |multiset(a)| == |multiset(b)|;
  }

  /** sort.Search: the first index whose hash is at least `key`. */
  method Search(ring: seq<u32>, key: u32) returns (idx: nat)
    requires Ascending(ring)
    ensures idx <= |ring|
    ensures forall k :: 0 <= k < idx ==> ring[k] < key
    ensures forall k :: idx <= k < |ring| ==> key <= ring[k]
  {
    var i, j := 0, |ring|;
    while i < j
      invariant 0 <= i <= j <= |ring|
      invariant forall k :: 0 <= k < i ==> ring[k] < key
      invariant forall k :: j <= k < |ring| ==> key <= ring[k]
    {
      var h := (i + j) / 2;
      if ring[h] < key {
        i := h + 1;
      } else {
        j := h;
      }
    }
    idx := i;
  }

  /** Clockwise distance from `key` to `h` on the ring of 2^32 positions. */
  function Distance(key: u32, h: u32): (d: u32)
    ensures (key + d) % SPACE == h
  {
    if key <= h then h - key else h - key + SPACE
  }

  /** `h` is the first virtual node met going clockwise from `key`. */
  predicate Nearest(hashes: set<u32>, key: u32, h: u32)
  {
    h in hashes && forall g <- hashes :: Distance(key, h) <= Distance(key, g)
  }

  lemma NearestIsUnique(hashes: set<u32>, key: u32, g: u32, h: u32)
    requires Nearest(hashes, key, g) && Nearest(hashes, key, h)
    ensures g == h
  {
  }

  /** Binary search with wrap-around finds the nearest node clockwise. */
  method FindNode(ring: seq<u32>, key: u32) returns (h: u32)
    requires Ascending(ring) && ring != []
    ensures Nearest(Elements(ring), key, h)
  {
    var idx := Search(ring, key);
    if idx >= |ring| {
      idx := 0;
    }
    h := ring[idx];
  }

  lemma {:induction false} NearestExists(hashes: set<u32>, key: u32)
    requires hashes != {}
    ensures exists h :: Nearest(hashes, key, h)
    decreases hashes
  {
    var h :| h in hashes;
    if hashes == {h} {
      assert Nearest(hashes, key, h);
    } else {
      NearestExists(hashes - {h}, key);
      var g :| Nearest(hashes - {h}, key, g);
      assert Nearest(hashes, key, if Distance(key, g) < Distance(key, h) then g else h);
    }
  }

  /** The owner of the nearest node, if there is any node. */
  ghost function OwnerOf(hashes: set<u32>, owner: map<u32, string>, key: u32): (r: string)
    requires hashes != {}
    ensures forall h :: Nearest(hashes, key, h) ==> r == if h in owner then owner[h] else ""
  {
    var h := NearestHash(hashes, key);
    if h in owner then owner[h] else ""
  }

  ghost function NearestHash(hashes: set<u32>, key: u32): (h: u32)
    requires hashes != {}
    ensures Nearest(hashes, key, h)
    ensures forall g :: Nearest(hashes, key, g) ==> g == h
  {
    NearestExists(hashes, key);
    var h :| Nearest(hashes, key, h);
    h
  }

  /** Adding nodes can only bring the nearest one closer: to a new node, or not at all. */
  lemma NearestAfterAdding(hashes: set<u32>, more: set<u32>, key: u32, h: u32)
    requires Nearest(hashes + more, key, h) && hashes != {}
    ensures h in more || Nearest(hashes, key, h)
  {
  }

  lemma NearestAfterRemoving(hashes: set<u32>, fewer: set<u32>, key: u32, h: u32)
    requires Nearest(hashes, key, h) && fewer <= hashes && h in fewer
    ensures Nearest(fewer, key, h)
  {
  }

  function Copies(s: seq<u32>, h: u32): nat { multiset(s)[h] }

  lemma CountPush(s: seq<u32>, x: u32, h: u32)
    ensures Copies(s + [x], h) == Copies(s, h) + if x == h then 1 else 0
  {
  }

  lemma LastIsGreatest(a: seq<u32>, b: seq<u32>)
    requires Ascending(a) && Ascending(b) && multiset(a) == multiset(b) && a != [] && b != []
    ensures a[|a| - 1] <= b[|b| - 1]
  {
    assert a[|a| - 1] in multiset(a);
    assert a[|a| - 1] in b;
  }

  lemma SameRest(a: seq<u32>, b: seq<u32>, x: u32)
    requires multiset(a + [x]) == multiset(b + [x])
    ensures multiset(a) == multiset(b)
  {
    forall h: u32 ensures multiset(a)[h] == multiset(b)[h] {
      CountPush(a, x, h);
      CountPush(b, x, h);
    }
  }

  /** There is one way to sort: ascending sequences with the same elements, repetitions included, are equal. */
  lemma {:induction false} AscendingUnique(a: seq<u32>, b: seq<u32>)
    requires Ascending(a) && Ascending(b) && multiset(a) == multiset(b)
    ensures a == b
    decreases |a|
  {
    SameElements(a, b);
    if a != [] {
      var a', b', x := a[..|a| - 1], b[..|b| - 1], a[|a| - 1];
      LastIsGreatest(a, b);
      LastIsGreatest(b, a);
      assert a == a' + [x] && b == b' + [x];
      SameRest(a', b', x);
      AscendingUnique(a', b');
    }
  }
}
