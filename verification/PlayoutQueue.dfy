/** The playout queue of internal/api/playout_queue.go: rows with position numbers that must behave as lists.
    Each handler is one transaction and runs as one step. */
module PlayoutQueues {
  import opened Seqs

  datatype QueueKey = QueueKey(station: string, mount: string)

  datatype Row = Row(key: QueueKey, media: string, position: int, created: int)

  type Table = map<string, Row>

  /** The queue `k` read in position order is `q`, and its positions are exactly 1..|q|. */
  predicate Lists(t: Table, k: QueueKey, q: seq<string>)
  {
    && Distinct(q)
    && (forall id <- t :: t[id].key == k ==> id in q)
    && (forall i :: 0 <= i < |q| ==> q[i] in t && t[q[i]].key == k && t[q[i]].position == i + 1)
  }

  /** The row is the same up to its position. */
  predicate SameItem(a: Row, b: Row)
  {
    a.key == b.key && a.media == b.media && a.created == b.created
  }

  /** Every row of `t` is still there and, whatever its position, the same. */
  predicate KeepsItems(t: Table, t': Table)
  {
    forall id <- t :: id in t' && SameItem(t'[id], t[id])
  }

  lemma NotLonger(t: Table, k: QueueKey, p: seq<string>, q: seq<string>)
    requires Lists(t, k, p) && Lists(t, k, q)
    ensures |q| <= |p|
  {
    if q != [] {
      var last := q[|q| - 1];
      assert last in p;
    }
  }

  /** A table stores at most one list per queue. */
  lemma ListIsUnique(t: Table, k: QueueKey, p: seq<string>, q: seq<string>)
    requires Lists(t, k, p) && Lists(t, k, q)
    ensures p == q
  {
    NotLonger(t, k, p, q);
    NotLonger(t, k, q, p);
    forall i | 0 <= i < |p| ensures p[i] == q[i] {
      assert p[i] in q;
    }
  }

  function Members(t: Table, k: QueueKey): set<string> { set id | id in t && t[id].key == k }

  lemma CountIsLength(t: Table, k: QueueKey, q: seq<string>)
    requires Lists(t, k, q)
    ensures |Members(t, k)| == |q|
  {
    DistinctCard(q);
    assert Members(t, k) == Elements(q);
  }

  // ---------------------------------------------------------------- create

  /** The requested position clamped to the list, or the end. */
  function NewPosition(count: nat, requested: Option<int>): (pos: int)
    ensures 1 <= pos <= count + 1
  {
    if requested.Some? && requested.value > 0 then
      if requested.value > count + 1 then count + 1 else requested.value
    else count + 1
  }

  function Shifted(t: Table, k: QueueKey, from: int, step: int): Table
  {
    map id | id in t :: if t[id].key == k && t[id].position >= from then t[id].(position := t[id].position + step) else t[id]
  }

  lemma ShiftKeepsItems(t: Table, k: QueueKey, from: int, step: int)
    ensures Shifted(t, k, from, step).Keys == t.Keys && KeepsItems(t, Shifted(t, k, from, step))
  {
  }

  lemma PutKeepsItems(t: Table, t': Table, id: string, row: Row)
    requires id !in t && KeepsItems(t, t')
    ensures KeepsItems(t, t'[id := row])
  {
  }

  function Created(t: Table, id: string, k: QueueKey, media: string, requested: Option<int>, now: int): Table
  {
    var pos := NewPosition(|Members(t, k)|, requested);
    Shifted(t, k, pos, 1)[id := Row(k, media, pos, now)]
  }

  function Inserted(q: seq<string>, at: nat, id: string): (r: seq<string>)
    requires at <= |q|
    ensures |r| == |q| + 1
  {
    q[..at] + [id] + q[at..]
  }

  lemma CreateInserts(t: Table, k: QueueKey, q: seq<string>, id: string, media: string, requested: Option<int>, now: int)
    requires Lists(t, k, q) && id !in t
    ensures Lists(Created(t, id, k, media, requested, now), k, Inserted(q, NewPosition(|q|, requested) - 1, id))
  {
    hide Lists;
    CountIsLength(t, k, q);
    ShiftedInsert(t, k, q, NewPosition(|q|, requested) - 1, id, media, now);
  }

  function Opened(t: Table, k: QueueKey, at: nat, id: string, media: string, now: int): Table
  {
    Shifted(t, k, at + 1, 1)[id := Row(k, media, at + 1, now)]
  }

  /** What opening position at + 1 for `id` does to each row. */
  lemma OpenedRow(t: Table, k: QueueKey, at: nat, id: string, media: string, now: int, j: string)
    requires id !in t
    ensures var t' := Opened(t, k, at, id, media, now);
            && (j in t' <==> j in t || j == id)
            && (j == id ==> t'[j].key == k && t'[j].position == at + 1)
            && (j in t && t[j].key == k ==> t'[j].key == k && t'[j].position == if t[j].position > at then t[j].position + 1 else t[j].position)
            && (j in t && t[j].key != k ==> t'[j] == t[j])
  {
  }

  lemma ShiftedInsert(t: Table, k: QueueKey, q: seq<string>, at: nat, id: string, media: string, now: int)
    requires Lists(t, k, q) && id !in t && at <= |q|
    ensures Lists(Opened(t, k, at, id, media, now), k, Inserted(q, at, id))
  {
    hide Opened;
    hide Inserted;
    var t', q' := Opened(t, k, at, id, media, now), Inserted(q, at, id);
    assert forall i :: 0 <= i < |q| ==> q[i] != id;
    InsertedDistinct(q, at, id);
    hide Distinct;
    forall i | 0 <= i < |q'| ensures q'[i] in t' && t'[q'[i]].key == k && t'[q'[i]].position == i + 1 {
      OpenedRow(t, k, at, id, media, now, q'[i]);
      InsertedAt(q, at, id, i);
      if i != at {
        var m := if i < at then i else i - 1;
        assert q'[i] == q[m] && q[m] in t && t[q[m]].key == k && t[q[m]].position == m + 1;
      }
    }
    forall j | j in t' && t'[j].key == k ensures j in q' {
      OpenedRow(t, k, at, id, media, now, j);
      InsertedMember(q, at, id, j);
    }
  }

  lemma InsertedMember(q: seq<string>, at: nat, id: string, j: string)
    requires at <= |q|
    ensures j in Inserted(q, at, id) <==> j in q || j == id
  {
    assert q == q[..at] + q[at..];
  }

  lemma InsertedDistinct(q: seq<string>, at: nat, id: string)
    requires at <= |q| && Distinct(q) && forall i :: 0 <= i < |q| ==> q[i] != id
    ensures Distinct(Inserted(q, at, id))
  {
    hide Inserted;
    forall i, j | 0 <= i < j <= |q| ensures Inserted(q, at, id)[i] != Inserted(q, at, id)[j] {
      InsertedAt(q, at, id, i);
      InsertedAt(q, at, id, j);
    }
  }

  lemma InsertedAt(q: seq<string>, at: nat, id: string, i: nat)
    requires at <= |q| && i <= |q|
    ensures Inserted(q, at, id)[i] == if i < at then q[i] else if i == at then id else q[i - 1]
  {
  }

  lemma InsertedUndone(q: seq<string>, at: nat, id: string)
    requires at <= |q|
    ensures Inserted(q, at, id)[..at] + Inserted(q, at, id)[at + 1..] == q
  {
  }

  lemma CreateLeavesOthers(t: Table, k: QueueKey, other: QueueKey, q: seq<string>, id: string, media: string, requested: Option<int>, now: int)
    requires Lists(t, other, q) && id !in t && other != k
    ensures Lists(Created(t, id, k, media, requested, now), other, q)
  {
  }

  lemma CreateKeepsLists(t: Table, was: QueueKey -> seq<string>, queue: QueueKey -> seq<string>,
                         id: string, k: QueueKey, media: string, requested: Option<int>, now: int)
    requires id !in t && forall other :: Lists(t, other, was(other))
    requires queue(k) == Inserted(was(k), NewPosition(|was(k)|, requested) - 1, id)
    requires forall other :: other != k ==> queue(other) == was(other)
    ensures forall other :: Lists(Created(t, id, k, media, requested, now), other, queue(other))
  {
    hide Lists, Created, Inserted;
    forall other ensures Lists(Created(t, id, k, media, requested, now), other, queue(other)) {
      if other == k {
        CreateInserts(t, k, was(k), id, media, requested, now);
      } else {
        CreateLeavesOthers(t, k, other, was(other), id, media, requested, now);
      }
    }
  }

  // ---------------------------------------------------------------- delete

  function Deleted(t: Table, id: string): Table
    requires id in t
  {
    Shifted(t - {id}, t[id].key, t[id].position + 1, -1)
  }

  function WithoutIndex(q: seq<string>, at: nat): seq<string>
    requires at < |q|
  {
    q[..at] + q[at + 1..]
  }

  /** What deleting `id` and closing its queue up does to each row. */
  lemma DeletedRow(t: Table, id: string, j: string)
    requires id in t
    ensures var t', k, at := Deleted(t, id), t[id].key, t[id].position;
            && (j in t' <==> j in t && j != id)
            && (j in t' && t[j].key == k ==>
                  t'[j].key == k && t'[j].position == if t[j].position > at then t[j].position - 1 else t[j].position)
            && (j in t' && t[j].key != k ==> t'[j] == t[j])
  {
  }

  lemma WithoutIsDistinct(q: seq<string>, at: nat)
    requires at < |q| && Distinct(q)
    ensures Distinct(WithoutIndex(q, at)) && forall j :: j in WithoutIndex(q, at) <==> j in q && j != q[at]
  {
    var q' := WithoutIndex(q, at);
    forall j ensures j in q' <==> j in q && j != q[at] {
      assert q == q[..at] + [q[at]] + q[at + 1..];
    }
  }

  lemma DeleteRemoves(t: Table, q: seq<string>, at: nat)
    requires at < |q| && q[at] in t && Lists(t, t[q[at]].key, q)
    ensures Lists(Deleted(t, q[at]), t[q[at]].key, WithoutIndex(q, at))
  {
    var k, t', q' := t[q[at]].key, Deleted(t, q[at]), WithoutIndex(q, at);
    WithoutIsDistinct(q, at);
    hide Deleted, Distinct;
    forall i | 0 <= i < |q'| ensures q'[i] in t' && t'[q'[i]].key == k && t'[q'[i]].position == i + 1 {
      var m := if i < at then i else i + 1;
      assert q'[i] == q[m] && q[m] in t && t[q[m]].position == m + 1;
      assert q'[i] in q';
      DeletedRow(t, q[at], q'[i]);
    }
    forall j | j in t' && t'[j].key == k ensures j in q' {
      DeletedRow(t, q[at], j);
    }
  }

  lemma DeleteLeavesOthers(t: Table, id: string, other: QueueKey, q: seq<string>)
    requires id in t && other != t[id].key && Lists(t, other, q)
    ensures Lists(Deleted(t, id), other, q)
  {
  }

  // ---------------------------------------------------------------- reorder

  function TargetIndex(newPosition: int, n: nat): (r: nat)
    requires 0 < n
    ensures r < n
  {
    if newPosition - 1 < 0 then 0 else if newPosition - 1 >= n then n - 1 else newPosition - 1
  }

  function Moved<T>(q: seq<T>, from: nat, to: nat): (r: seq<T>)
    requires from < |q| && to < |q|
    ensures |r| == |q|
  {
    var rest := q[..from] + q[from + 1..];
    rest[..to] + [q[from]] + rest[to..]
  }

  datatype Item = Item(id: string, position: int)

  /** First append: the elements after `from` move down in place, the last cell keeps its old value. */
  method CloseGap(items: array<Item>, from: nat)
    requires from < items.Length
    modifies items
    ensures forall k :: 0 <= k < items.Length - 1 ==> items[k] == old(items[if k < from then k else k + 1])
  {
    for k := from to items.Length - 1
      invariant forall j :: 0 <= j < k ==> items[j] == old(items[if j < from then j else j + 1])
      invariant forall j :: k <= j < items.Length ==> items[j] == old(items[j])
    {
      items[k] := items[k + 1];
    }
  }

  /** Second append: the tail is first copied to a fresh array, so writing over its old place loses nothing. */
  method SpliceIn(items: array<Item>, to: nat, moved: Item)
    requires to < items.Length
    modifies items
    ensures forall k :: 0 <= k < items.Length ==>
              items[k] == if k < to then old(items[k]) else if k == to then moved else old(items[k - 1])
  {
    if to >= items.Length - 1 {
      items[items.Length - 1] := moved;
      return;
    }
    var tail := new Item[items.Length - to];
    tail[0] := moved;
    for k := 1 to tail.Length
      modifies tail
      invariant tail[0] == moved && forall j :: 1 <= j < k ==> tail[j] == items[to + j - 1]
    {
      tail[k] := items[to + k - 1];
    }
    for k := 0 to tail.Length
      modifies items
      invariant forall j :: 0 <= j < items.Length && (j < to || to + k <= j) ==> items[j] == old(items[j])
      invariant forall j :: 0 <= j < k ==> items[to + j] == tail[j]
      invariant tail[0] == moved && forall j :: 1 <= j < tail.Length ==> tail[j] == old(items[to + j - 1])
    {
      items[to + k] := tail[k];
    }
    forall k | to < k < items.Length ensures items[k] == old(items[k - 1]) {
      assert items[to + (k - to)] == tail[k - to];
    }
  }

  lemma MovedAt<T>(q: seq<T>, from: nat, to: nat, k: nat)
    requires from < |q| && to < |q| && k < |q|
    ensures var j := if k < to then k else k - 1;
            Moved(q, from, to)[k] == if k == to then q[from] else q[if j < from then j else j + 1]
  {
  }

  /** The slice surgery of reorderQueueItem on one backing array moves one element and keeps the rest in order. */
  method Splice(items: array<Item>, from: nat, to: nat)
    requires from < items.Length && to < items.Length
    modifies items
    ensures items[..] == Moved(old(items[..]), from, to)
  {
    ghost var was := items[..];
    var moved := items[from];
    CloseGap(items, from);
    SpliceIn(items, to, moved);
    SplicedIsMoved(was, items[..], from, to);
  }

  lemma SplicedIsMoved(was: seq<Item>, now: seq<Item>, from: nat, to: nat)
    requires |now| == |was| && from < |was| && to < |was|
    requires forall k :: 0 <= k < |was| ==>
               var j := if k < to then k else k - 1;
               now[k] == if k == to then was[from] else was[if j < from then j else j + 1]
    ensures now == Moved(was, from, to)
  {
    hide Moved;
    forall k | 0 <= k < |was| ensures now[k] == Moved(was, from, to)[k] {
      MovedAt(was, from, to, k);
    }
  }

  /** The others keep their order. */
  lemma MovedUndone<T>(q: seq<T>, from: nat, to: nat)
    requires from < |q| && to < |q|
    ensures var r := Moved(q, from, to);
            r[to] == q[from] && r[..to] + r[to + 1..] == q[..from] + q[from + 1..]
  {
  }

  lemma MovedIsPermutation(q: seq<string>, from: nat, to: nat)
    requires Distinct(q) && from < |q| && to < |q|
    ensures Distinct(Moved(q, from, to)) && forall id :: id in Moved(q, from, to) <==> id in q
  {
    var r := Moved(q, from, to);
    forall i, j | 0 <= i < j < |q| ensures r[i] != r[j] {
      MovedAt(q, from, to, i);
      MovedAt(q, from, to, j);
    }
    forall id | id in q ensures id in r {
      var i :| 0 <= i < |q| && q[i] == id;
      var j := if i < from then i else i - 1;
      var k := if i == from then to else if j < to then j else j + 1;
      MovedAt(q, from, to, k);
      assert r[k] == id;
    }
    forall id | id in r ensures id in q {
      var k :| 0 <= k < |r| && r[k] == id;
      MovedAt(q, from, to, k);
    }
  }

  function IndexOf(q: seq<string>, id: string): (i: nat)
    requires id in q
    ensures i < |q| && q[i] == id
  {
    if q[|q| - 1] == id then |q| - 1
    else
      assert q == q[..|q| - 1] + [q[|q| - 1]];
      IndexOf(q[..|q| - 1], id)
  }

  lemma IndexIsUnique(q: seq<string>, i: nat)
    requires Distinct(q) && i < |q|
    ensures IndexOf(q, q[i]) == i
  {
    hide IndexOf;
    assert q[IndexOf(q, q[i])] == q[i];
  }

  lemma DistinctWhenListed(t: Table, k: QueueKey, q: seq<string>)
    requires Lists(t, k, q)
    ensures Distinct(q)
  {
  }

  /** Every row named in `q` gets its place in `q` as its position. */
  function Renumbered(t: Table, q: seq<string>): Table
  {
    map id | id in t :: if id in q then t[id].(position := IndexOf(q, id) + 1) else t[id]
  }

  lemma RenumberKeepsItems(t: Table, q: seq<string>)
    ensures Renumbered(t, q).Keys == t.Keys && KeepsItems(t, Renumbered(t, q))
    ensures KeepsItems(t, t)
  {
    hide IndexOf;
  }

  /** The moved item ends up at the requested position, or at the end of the list that the position lies beyond. */
  lemma MovedToTarget<T>(q: seq<T>, from: nat, newPosition: int)
    requires from < |q|
    ensures var r := Moved(q, from, TargetIndex(newPosition, |q|));
            && |r| == |q|
            && (1 <= newPosition <= |q| ==> r[newPosition - 1] == q[from])
            && (newPosition < 1 ==> r[0] == q[from])
            && (|q| < newPosition ==> r[|q| - 1] == q[from])
  {
    hide Moved;
    var to := TargetIndex(newPosition, |q|);
    MovedAt(q, from, to, to);
  }

  lemma RenumberLists(t: Table, k: QueueKey, q: seq<string>, r: seq<string>)
    requires Lists(t, k, q) && Distinct(r) && |r| == |q| && forall id :: id in r <==> id in q
    ensures Lists(Renumbered(t, r), k, r)
  {
    forall i | 0 <= i < |r| ensures r[i] in t && t[r[i]].key == k && IndexOf(r, r[i]) == i {
      assert r[i] in q;
    }
  }

  lemma RenumberLeavesOthers(t: Table, k: QueueKey, r: seq<string>, other: QueueKey, q: seq<string>)
    requires Lists(t, other, q) && other != k && forall id <- r :: id in t && t[id].key == k
    ensures Lists(Renumbered(t, r), other, q)
  {
  }

  lemma ListedInItsQueue(t: Table, q: seq<string>, id: string)
    requires id in t && Lists(t, t[id].key, q)
    ensures id in q && Distinct(q)
  {
  }

  lemma ReorderKeepsLists(t: Table, t': Table, was: QueueKey -> seq<string>, queue: QueueKey -> seq<string>, k: QueueKey, r: seq<string>)
    requires forall other :: Lists(t, other, was(other))
    requires queue(k) == r && forall other :: other != k ==> queue(other) == was(other)
    requires (t' == t && r == was(k)) || t' == Renumbered(t, r)
    requires Distinct(r) && |r| == |was(k)| && forall id :: id in r <==> id in was(k)
    ensures forall other :: Lists(t', other, queue(other))
  {
    forall id <- r ensures id in t && t[id].key == k {
      assert Lists(t, k, was(k)) && id in was(k);
    }
    hide Lists, Distinct, Renumbered;
    forall other ensures Lists(t', other, queue(other)) {
      if t' != t || r != was(k) {
        if other == k {
          RenumberLists(t, k, was(k), r);
        } else {
          RenumberLeavesOthers(t, k, r, other, was(other));
        }
      }
    }
  }

  // ---------------------------------------------------------------- the table as lists

  class PlayoutQueue {
    var rows: Table
    ghost var queue: QueueKey -> seq<string>

    ghost predicate Valid()
      reads this
    {
      forall k :: Lists(rows, k, queue(k))
    }

    constructor ()
      ensures Valid() && rows == map[] && forall k :: queue(k) == []
    {
      rows := map[];
      queue := k => [];
    }

    /** Insert at the requested position, clamped; at the end when none is given. */
    method Create(id: string, k: QueueKey, media: string, requested: Option<int>, now: int)
      requires Valid() && id !in rows
      modifies this
      ensures Valid() && rows == Created(old(rows), id, k, media, requested, now)
      ensures queue(k) == Inserted(old(queue(k)), NewPosition(|old(queue(k))|, requested) - 1, id)
      ensures forall other :: other != k ==> queue(other) == old(queue(other))
      ensures |queue(k)| == |old(queue(k))| + 1
      ensures requested.Some? && 1 <= requested.value <= |queue(k)| ==> queue(k)[requested.value - 1] == id
      ensures requested == None || requested.value < 1 || |queue(k)| < requested.value ==> queue(k)[|queue(k)| - 1] == id
      ensures id in queue(k) && var at := IndexOf(queue(k), id); queue(k)[..at] + queue(k)[at + 1..] == old(queue(k))
      ensures rows.Keys == old(rows).Keys + {id} && KeepsItems(old(rows), rows)
      ensures rows[id].key == k && rows[id].media == media && rows[id].created == now
    {
      hide Lists, Inserted, Shifted, Members, KeepsItems, IndexOf, Distinct;
      ghost var was, before := queue, rows;
      var count := |Members(rows, k)|;
      CountIsLength(rows, k, queue(k));
      var newPos := count + 1;
      if requested.Some? && requested.value > 0 {
        newPos := requested.value;
        if newPos > count + 1 {
          newPos := count + 1;
        }
      }
      rows := Shifted(rows, k, newPos, 1)[id := Row(k, media, newPos, now)];
      ghost var inserted := Inserted(was(k), newPos - 1, id);
      queue := other => if other == k then inserted else was(other);
      CreateKeepsLists(before, was, queue, id, k, media, requested, now);
      InsertedAt(was(k), newPos - 1, id, newPos - 1);
      InsertedUndone(was(k), newPos - 1, id);
      DistinctWhenListed(rows, k, inserted);
      IndexIsUnique(inserted, newPos - 1);
      ShiftKeepsItems(before, k, newPos, 1);
      PutKeepsItems(before, Shifted(before, k, newPos, 1), id, Row(k, media, newPos, now));
    }

    /** Remove the row and close its queue up. */
    method Delete(id: string) returns (found: bool)
      requires Valid()
      modifies this
      ensures Valid() && (found <==> id in old(rows))
      ensures !found ==> rows == old(rows) && queue == old(queue)
      ensures found ==>
                var k := old(rows)[id].key;
                && id in old(queue(k)) && rows == Deleted(old(rows), id)
                && queue(k) == WithoutIndex(old(queue(k)), IndexOf(old(queue(k)), id))
                && (var q, at := old(queue(k)), IndexOf(old(queue(k)), id); queue(k) == q[..at] + q[at + 1..])
                && forall other :: other != k ==> queue(other) == old(queue(other))
      ensures found ==> rows.Keys == old(rows).Keys - {id} && KeepsItems(old(rows) - {id}, rows)
    {
      if id !in rows {
        return false;
      }
      ghost var was, before := queue, rows;
      var item := rows[id];
      ghost var k := item.key;
      assert id in was(k);
      ghost var rest := WithoutIndex(was(k), IndexOf(was(k), id));
      rows := rows - {id};
      ShiftKeepsItems(rows, item.key, item.position + 1, -1);
      rows := Shifted(rows, item.key, item.position + 1, -1);
      queue := other => if other == k then rest else was(other);
      forall other ensures Lists(rows, other, queue(other)) {
        if other == k {
          DeleteRemoves(before, was(k), IndexOf(was(k), id));
        } else {
          DeleteLeavesOthers(before, id, other, was(other));
        }
      }
      return true;
    }

    /** Move an item: read the queue in order, splice it, and rewrite the positions that changed. */
    method Reorder(id: string, newPosition: int) returns (found: bool)
      requires Valid()
      modifies this
      ensures Valid() && (found <==> id in old(rows))
      ensures !found ==> rows == old(rows) && queue == old(queue)
      ensures found ==>
                var k := old(rows)[id].key;
                var q := old(queue(k));
                && id in q
                && queue(k) == Moved(q, IndexOf(q, id), TargetIndex(newPosition, |q|))
                && rows == (if IndexOf(q, id) == TargetIndex(newPosition, |q|) then old(rows) else Renumbered(old(rows), queue(k)))
                && forall other :: other != k ==> queue(other) == old(queue(other))
      ensures found ==>
                var k := old(rows)[id].key;
                var n := |old(queue(k))|;
                && |queue(k)| == n
                && (1 <= newPosition <= n ==> queue(k)[newPosition - 1] == id)
                && (newPosition < 1 ==> queue(k)[0] == id)
                && (n < newPosition ==> queue(k)[n - 1] == id)
      ensures found ==>
                var k := old(rows)[id].key;
                var q, r := old(queue(k)), queue(k);
                && id in q && id in r
                && var from, to := IndexOf(q, id), IndexOf(r, id);
                   r[..to] + r[to + 1..] == q[..from] + q[from + 1..]
      ensures found ==> rows.Keys == old(rows).Keys && KeepsItems(old(rows), rows)
    {
      hide Lists, Distinct, Moved, Renumbered, IndexOf, TargetIndex, KeepsItems;
      if id !in rows {
        return false;
      }
      ghost var was, before := queue, rows;
      var k := rows[id].key;
      ghost var q := was(k);
      ListedInItsQueue(rows, q, id);
      ghost var r := Moved(q, IndexOf(q, id), TargetIndex(newPosition, |q|));
      rows := ReorderRows(rows, k, q, id, newPosition);
      MovedIsPermutation(q, IndexOf(q, id), TargetIndex(newPosition, |q|));
      MovedNowhere(q, IndexOf(q, id));
      MovedToTarget(q, IndexOf(q, id), newPosition);
      MovedUndone(q, IndexOf(q, id), TargetIndex(newPosition, |q|));
      IndexIsUnique(r, TargetIndex(newPosition, |q|));
      RenumberKeepsItems(before, r);
      queue := other => if other == k then r else was(other);
      ReorderKeepsLists(before, rows, was, queue, k, r);
      return true;
    }
  }

  function RestOf(q: seq<string>, i: nat): set<string>
    requires i <= |q|
  {
    set id | id in q[i..]
  }

  predicate Precedes(a: Row, b: Row)
  {
    a.position < b.position || (a.position == b.position && a.created <= b.created)
  }

  /** The next row in order is the next element of the list. */
  lemma NextInOrder(t: Table, k: QueueKey, q: seq<string>, i: nat, id: string)
    requires Lists(t, k, q) && i < |q|
    ensures q[i] in RestOf(q, i) && forall j <- RestOf(q, i) :: j in t && Precedes(t[q[i]], t[j])
    ensures id in RestOf(q, i) && (forall j <- RestOf(q, i) :: Precedes(t[id], t[j])) ==> id == q[i] && t[id].position == i + 1
    ensures RestOf(q, i) - {q[i]} == RestOf(q, i + 1)
  {
    assert q[i..] == [q[i]] + q[i + 1..];
    forall j | j in RestOf(q, i) ensures j in t && t[j].position >= i + 1 && (t[j].position == i + 1 ==> j == q[i]) {
      var m :| i <= m < |q| && q[m] == j;
    }
  }

  lemma AllRest(t: Table, k: QueueKey, q: seq<string>)
    requires Lists(t, k, q)
    ensures Members(t, k) == RestOf(q, 0) && |RestOf(q, 0)| == |q|
  {
    CountIsLength(t, k, q);
    assert Members(t, k) == RestOf(q, 0);
  }

  /** ORDER BY position, created_at, over the rows of one queue. */
  method OrderedItems(t: Table, k: QueueKey, ghost q: seq<string>) returns (items: array<Item>)
    requires Lists(t, k, q)
    ensures fresh(items) && items.Length == |q|
    ensures forall i :: 0 <= i < items.Length ==> items[i] == Item(q[i], i + 1)
  {
    hide Lists;
    hide RestOf;
    hide Precedes;
    AllRest(t, k, q);
    var rest := Members(t, k);
    items := new Item[|rest|];
    for i := 0 to items.Length
      invariant forall j :: 0 <= j < i ==> items[j] == Item(q[j], j + 1)
      invariant rest == RestOf(q, i)
    {
      NextInOrder(t, k, q, i, q[i]);
      var id :| id in rest && forall j <- rest :: j in t && Precedes(t[id], t[j]);
      NextInOrder(t, k, q, i, id);
      items[i] := Item(id, t[id].position);
      rest := rest - {id};
    }
  }

  /** The transaction of reorderQueueItem. */
  method ReorderRows(t: Table, k: QueueKey, ghost q: seq<string>, id: string, newPosition: int) returns (t': Table)
    requires Lists(t, k, q) && id in q
    ensures var from, to := IndexOf(q, id), TargetIndex(newPosition, |q|);
            t' == if from == to then t else Renumbered(t, Moved(q, from, to))
    ensures id in t' && t'[id].position == if newPosition < 1 then 1 else if |q| < newPosition then |q| else newPosition
  {
    var items := OrderedItems(t, k, q);
    var currentIdx := FindItem(items, id, q);
    var targetIdx := TargetIndex(newPosition, items.Length);
    MovedPosition(t, k, q, currentIdx, targetIdx);
    if currentIdx == targetIdx {
      return t;
    }
    ghost var listed := items[..];
    Splice(items, currentIdx, targetIdx);
    SplicedIds(q, listed, currentIdx, targetIdx);
    MovedIsPermutation(q, currentIdx, targetIdx);
    hide Moved;
    forall i | 0 <= i < |q|
      ensures items[i].id == Moved(q, currentIdx, targetIdx)[i] && items[i].id in t && t[items[i].id].position == items[i].position
    {
      assert items[..][i] == items[i] && items[i] in listed;
    }
    t' := Renumber(t, items, Moved(q, currentIdx, targetIdx));
  }

  /** The position that the moved item's row gets. */
  lemma MovedPosition(t: Table, k: QueueKey, q: seq<string>, from: nat, to: nat)
    requires Lists(t, k, q) && from < |q| && to < |q|
    ensures q[from] in t && IndexOf(q, q[from]) == from
    ensures from == to ==> t[q[from]].position == to + 1
    ensures Renumbered(t, Moved(q, from, to))[q[from]].position == to + 1
  {
    hide Moved, IndexOf;
    IndexIsUnique(q, from);
    MovedIsPermutation(q, from, to);
    MovedAt(q, from, to, to);
    IndexIsUnique(Moved(q, from, to), to);
  }

  method FindItem(items: array<Item>, id: string, ghost q: seq<string>) returns (idx: nat)
    requires items.Length == |q| && Distinct(q) && id in q && forall i :: 0 <= i < |q| ==> items[i].id == q[i]
    ensures idx == IndexOf(q, id)
  {
    idx := 0;
    while items[idx].id != id
      invariant idx < items.Length && id in q[idx..]
      decreases items.Length - idx
    {
      assert q[idx..] == [q[idx]] + q[idx + 1..];
      idx := idx + 1;
    }
    assert q[IndexOf(q, id)] == q[idx];
  }

  lemma MovedNowhere<T>(q: seq<T>, at: nat)
    requires at < |q|
    ensures Moved(q, at, at) == q
  {
  }

  /** After the splice, item i is the i-th of the moved list, still carrying its old position. */
  lemma SplicedIds(q: seq<string>, listed: seq<Item>, from: nat, to: nat)
    requires |listed| == |q| && from < |q| && to < |q|
    requires forall i :: 0 <= i < |q| ==> listed[i].id == q[i]
    ensures forall i :: 0 <= i < |q| ==> Moved(listed, from, to)[i].id == Moved(q, from, to)[i] && Moved(listed, from, to)[i] in listed
  {
    forall i | 0 <= i < |q| ensures Moved(listed, from, to)[i].id == Moved(q, from, to)[i] && Moved(listed, from, to)[i] in listed {
      MovedAt(q, from, to, i);
      MovedAt(listed, from, to, i);
    }
  }

  /** The renumbering loop: rows whose position already fits are skipped. */
  method Renumber(t: Table, items: array<Item>, ghost r: seq<string>) returns (t': Table)
    requires items.Length == |r| && Distinct(r)
    requires forall i :: 0 <= i < |r| ==> items[i].id == r[i] && r[i] in t && t[r[i]].position == items[i].position
    ensures t' == Renumbered(t, r)
  {
    t' := t;
    for i := 0 to items.Length
      invariant t'.Keys == t.Keys
      invariant forall id <- t :: t'[id] == if id in r[..i] then t[id].(position := IndexOf(r, id) + 1) else t[id]
    {
      var nextPos := i + 1;
      assert r[..i + 1] == r[..i] + [r[i]] && r[i] !in r[..i] && IndexOf(r, r[i]) == i;
      if items[i].position == nextPos {
        continue;
      }
      t' := t'[items[i].id := t'[items[i].id].(position := nextPos)];
    }
    assert r[..|r|] == r;
  }
}
