/** Schedule version diffs of internal/api/schedule_versions.go: what a diff says, and that it can be replayed. */
module VersionDiffs {
  import Seqs

  /** The five fields a diff compares; a time is the instant it denotes. */
  datatype Facts = Facts(startsAt: int, endsAt: int, sourceType: string, sourceId: string, mountId: string)

  /** A snapshot entry: its identity, the compared fields, and the rest, which no diff looks at. */
  datatype Entry = Entry(id: string, facts: Facts, rest: string)

  datatype Value = Instant(time: int) | Text(text: string)

  /** The keys of a change map: starts_at, ends_at, source_type, source_id, mount_id. */
  datatype Field = StartsAt | EndsAt | SourceType | SourceId | MountId

  datatype Change = Change(was: Value, now: Value)

  datatype Modification = Modification(id: string, before: Entry, after: Entry, changes: map<Field, Change>)

  datatype Diff = Diff(added: seq<Entry>, removed: seq<Entry>, modified: seq<Modification>)

  function ValueOf(f: Facts, field: Field): Value
  {
    match field
    case StartsAt => Instant(f.startsAt)
    case EndsAt => Instant(f.endsAt)
    case SourceType => Text(f.sourceType)
    case SourceId => Text(f.sourceId)
    case MountId => Text(f.mountId)
  }

  predicate HasChanges(a: Entry, b: Entry)
  {
    || a.facts.startsAt != b.facts.startsAt
    || a.facts.endsAt != b.facts.endsAt
    || a.facts.sourceType != b.facts.sourceType
    || a.facts.sourceId != b.facts.sourceId
    || a.facts.mountId != b.facts.mountId
  }

  /** The differing fields, among some, with their two values. */
  function DifferencesIn(a: Facts, b: Facts, fields: set<Field>): map<Field, Change>
  {
    map field | field in fields && ValueOf(a, field) != ValueOf(b, field) :: Change(ValueOf(a, field), ValueOf(b, field))
  }

  function Differences(a: Facts, b: Facts): map<Field, Change>
  {
    DifferencesIn(a, b, {StartsAt, EndsAt, SourceType, SourceId, MountId})
  }

  lemma DifferencesStep(a: Facts, b: Facts, fields: set<Field>, field: Field, wider: set<Field>)
    requires field !in fields && wider == fields + {field}
    ensures DifferencesIn(a, b, {}) == map[]
    ensures DifferencesIn(a, b, wider) ==
            if ValueOf(a, field) == ValueOf(b, field) then DifferencesIn(a, b, fields)
            else DifferencesIn(a, b, fields)[field := Change(ValueOf(a, field), ValueOf(b, field))]
  {
  }

  method GetChanges(a: Entry, b: Entry) returns (changes: map<Field, Change>)
    ensures changes == Differences(a.facts, b.facts)
    ensures StartsAt in changes <==> a.facts.startsAt != b.facts.startsAt
    ensures StartsAt in changes ==> changes[StartsAt] == Change(Instant(a.facts.startsAt), Instant(b.facts.startsAt))
    ensures EndsAt in changes <==> a.facts.endsAt != b.facts.endsAt
    ensures EndsAt in changes ==> changes[EndsAt] == Change(Instant(a.facts.endsAt), Instant(b.facts.endsAt))
    ensures SourceType in changes <==> a.facts.sourceType != b.facts.sourceType
    ensures SourceType in changes ==> changes[SourceType] == Change(Text(a.facts.sourceType), Text(b.facts.sourceType))
    ensures SourceId in changes <==> a.facts.sourceId != b.facts.sourceId
    ensures SourceId in changes ==> changes[SourceId] == Change(Text(a.facts.sourceId), Text(b.facts.sourceId))
    ensures MountId in changes <==> a.facts.mountId != b.facts.mountId
    ensures MountId in changes ==> changes[MountId] == Change(Text(a.facts.mountId), Text(b.facts.mountId))
  {
    hide DifferencesIn;
    ghost var f, g := a.facts, b.facts;
    DifferencesStep(f, g, {}, StartsAt, {StartsAt});
    DifferencesStep(f, g, {StartsAt}, EndsAt, {StartsAt, EndsAt});
    DifferencesStep(f, g, {StartsAt, EndsAt}, SourceType, {StartsAt, EndsAt, SourceType});
    DifferencesStep(f, g, {StartsAt, EndsAt, SourceType}, SourceId, {StartsAt, EndsAt, SourceType, SourceId});
    DifferencesStep(f, g, {StartsAt, EndsAt, SourceType, SourceId}, MountId,
                    {StartsAt, EndsAt, SourceType, SourceId, MountId});
    changes := map[];
    if a.facts.startsAt != b.facts.startsAt {
      changes := changes[StartsAt := Change(Instant(a.facts.startsAt), Instant(b.facts.startsAt))];
    }
    if a.facts.endsAt != b.facts.endsAt {
      changes := changes[EndsAt := Change(Instant(a.facts.endsAt), Instant(b.facts.endsAt))];
    }
    if a.facts.sourceType != b.facts.sourceType {
      changes := changes[SourceType := Change(Text(a.facts.sourceType), Text(b.facts.sourceType))];
    }
    if a.facts.sourceId != b.facts.sourceId {
      changes := changes[SourceId := Change(Text(a.facts.sourceId), Text(b.facts.sourceId))];
    }
    if a.facts.mountId != b.facts.mountId {
      changes := changes[MountId := Change(Text(a.facts.mountId), Text(b.facts.mountId))];
    }
  }

  /** The comparison that selects an entry and the map that explains it never disagree. */
  lemma ChangedIffExplained(a: Entry, b: Entry)
    ensures HasChanges(a, b) <==> a.facts != b.facts
    ensures HasChanges(a, b) <==> Differences(a.facts, b.facts) != map[]
  {
    var d := Differences(a.facts, b.facts);
    if a.facts.startsAt != b.facts.startsAt { assert StartsAt in d; }
    if a.facts.endsAt != b.facts.endsAt { assert EndsAt in d; }
    if a.facts.sourceType != b.facts.sourceType { assert SourceType in d; }
    if a.facts.sourceId != b.facts.sourceId { assert SourceId in d; }
    if a.facts.mountId != b.facts.mountId { assert MountId in d; }
  }

  /** The lookup table of a snapshot: of entries with one id, the last. */
  function ById(entries: seq<Entry>): (m: map<string, Entry>)
    ensures forall id :: id in m <==> exists i :: 0 <= i < |entries| && entries[i].id == id
    ensures forall id :: id in m ==> m[id].id == id && m[id] in entries
  {
    if entries == [] then map[]
    else
      var last := entries[|entries| - 1];
      ById(entries[..|entries| - 1])[last.id := last]
  }

  /** The entries whose id a table lacks, in order. */
  function Absent(table: map<string, Entry>, entries: seq<Entry>): seq<Entry>
  {
    if entries == [] then []
    else
      var last := entries[|entries| - 1];
      Absent(table, entries[..|entries| - 1]) + (if last.id in table then [] else [last])
  }

  predicate Changed(table: map<string, Entry>, e: Entry)
  {
    e.id in table && HasChanges(table[e.id], e)
  }

  function Explain(before: Entry, after: Entry): Modification
  {
    Modification(after.id, before, after, Differences(before.facts, after.facts))
  }

  /** The entries that differ from the table's, in order. */
  function Modified(table: map<string, Entry>, entries: seq<Entry>): seq<Modification>
  {
    if entries == [] then []
    else
      var last := entries[|entries| - 1];
      Modified(table, entries[..|entries| - 1])
      + (if Changed(table, last) then [Explain(table[last.id], last)] else [])
  }

  function DiffOf(from: seq<Entry>, to: seq<Entry>): Diff
  {
    Diff(Absent(ById(from), to), Absent(ById(to), from), Modified(ById(from), to))
  }

  /** No later entry has the same id. */
  ghost predicate IsLast(entries: seq<Entry>, i: nat)
    requires i < |entries|
  {
    forall j :: i < j < |entries| ==> entries[j].id != entries[i].id
  }

  lemma {:induction false} LastEntryWins(entries: seq<Entry>, i: nat)
    requires i < |entries| && IsLast(entries, i)
    ensures entries[i].id in ById(entries) && ById(entries)[entries[i].id] == entries[i]
    decreases |entries|
  {
    if i < |entries| - 1 {
      LastEntryWins(entries[..|entries| - 1], i);
    }
  }

  method Table(entries: seq<Entry>) returns (table: map<string, Entry>)
    ensures table == ById(entries)
    ensures forall i :: 0 <= i < |entries| && IsLast(entries, i) ==> entries[i].id in table && table[entries[i].id] == entries[i]
  {
    table := map[];
    for i := 0 to |entries|
      invariant table == ById(entries[..i])
    {
      assert entries[..i + 1][..i] == entries[..i];
      table := table[entries[i].id := entries[i]];
    }
    assert entries[..|entries|] == entries;
    forall i | 0 <= i < |entries| && IsLast(entries, i)
      ensures entries[i].id in table && table[entries[i].id] == entries[i]
    {
      LastEntryWins(entries, i);
    }
  }

  method CalculateDiff(from: seq<Entry>, to: seq<Entry>) returns (diff: Diff)
    ensures diff == DiffOf(from, to)
  {
    hide HasChanges, Differences, DifferencesIn, ById, IsLast;
    var fromMap := Table(from);
    var toMap := Table(to);
    var added, removed, modified := [], [], [];
    for i := 0 to |to|
      invariant added == Absent(fromMap, to[..i])
      invariant modified == Modified(fromMap, to[..i])
    {
      assert to[..i + 1][..i] == to[..i];
      if to[i].id !in fromMap {
        added := added + [to[i]];
      } else if HasChanges(fromMap[to[i].id], to[i]) {
        var changes := GetChanges(fromMap[to[i].id], to[i]);
        modified := modified + [Modification(to[i].id, fromMap[to[i].id], to[i], changes)];
      }
    }
    assert to[..|to|] == to;
    for i := 0 to |from|
      invariant removed == Absent(toMap, from[..i])
    {
      assert from[..i + 1][..i] == from[..i];
      if from[i].id !in toMap {
        removed := removed + [from[i]];
      }
    }
    assert from[..|from|] == from;
    diff := Diff(added, removed, modified);
  }

  // ----- What a diff lists -----

  lemma {:induction false} AbsentExactly(table: map<string, Entry>, entries: seq<Entry>, e: Entry)
    ensures e in Absent(table, entries) <==> e in entries && e.id !in table
  {
    if entries != [] {
      AbsentExactly(table, entries[..|entries| - 1], e);
      assert entries == entries[..|entries| - 1] + [entries[|entries| - 1]];
    }
  }

  /** Modified lists exactly the entries with a non-empty change map, each explained against its old self. */
  lemma {:induction false} ModifiedExactly(table: map<string, Entry>, entries: seq<Entry>, x: Modification)
    ensures x in Modified(table, entries) <==>
            && x.after in entries && x.after.id in table && x == Explain(table[x.after.id], x.after)
            && x.changes != map[]
  {
    if entries != [] {
      var last := entries[|entries| - 1];
      ModifiedExactly(table, entries[..|entries| - 1], x);
      assert entries == entries[..|entries| - 1] + [last];
      if last.id in table {
        ChangedIffExplained(table[last.id], last);
      }
    }
  }

  /** The new entries that some modifications lead to. */
  function Afters(changes: seq<Modification>): (r: seq<Entry>)
    ensures |r| == |changes| && forall i :: 0 <= i < |r| ==> r[i] == changes[i].after
  {
    seq(|changes|, i requires 0 <= i < |changes| => changes[i].after)
  }

  /** Both kinds of list follow the order of the snapshot. */
  lemma {:induction false} ListsFollowSnapshot(table: map<string, Entry>, entries: seq<Entry>)
    ensures Seqs.IsSubseq(Absent(table, entries), entries)
    ensures Seqs.IsSubseq(Afters(Modified(table, entries)), entries)
    decreases |entries|
  {
    hide Seqs.IsSubseq, HasChanges, Differences;
    if entries == [] {
      Seqs.NothingIsSubseq(entries);
      assert Afters(Modified(table, entries)) == [];
    } else {
      var front, last := entries[..|entries| - 1], entries[|entries| - 1];
      ListsFollowSnapshot(table, front);
      Seqs.SubseqStep(Absent(table, front), Absent(table, entries), front, entries, last);
      AftersStep(table, entries);
      Seqs.SubseqStep(Afters(Modified(table, front)), Afters(Modified(table, entries)), front, entries, last);
    }
  }

  lemma AftersStep(table: map<string, Entry>, entries: seq<Entry>)
    requires entries != []
    ensures var was, now := Afters(Modified(table, entries[..|entries| - 1])), Afters(Modified(table, entries));
            now == was || now == was + [entries[|entries| - 1]]
  {
    hide HasChanges, Differences;
  }

  ghost predicate DistinctIds(entries: seq<Entry>)
  {
    forall i, j :: 0 <= i < j < |entries| ==> entries[i].id != entries[j].id
  }

  lemma {:induction false} DistinctLookup(entries: seq<Entry>, e: Entry)
    requires DistinctIds(entries)
    requires e in entries
    ensures ById(entries)[e.id] == e
  {
    var kept := ById(entries)[e.id];
    assert kept in entries && kept.id == e.id;
  }

  /** The other way round, a modification reads backwards. */
  function Inverse(x: Modification): Modification
  {
    Explain(x.after, x.before)
  }

  /** Swapping the versions swaps the added and removed lists and turns every modification around. */
  lemma SwappedVersions(from: seq<Entry>, to: seq<Entry>, x: Modification)
    ensures DiffOf(from, to).added == DiffOf(to, from).removed
    ensures DistinctIds(from) && DistinctIds(to) && x in DiffOf(from, to).modified ==>
              Inverse(x) in DiffOf(to, from).modified && Inverse(Inverse(x)) == x
  {
    if DistinctIds(from) && DistinctIds(to) && x in DiffOf(from, to).modified {
      ModifiedExactly(ById(from), to, x);
      DistinctLookup(to, x.after);
      assert x.before in from && x.before.id == x.after.id;
      ChangedIffExplained(x.before, x.after);
      ChangedIffExplained(x.after, x.before);
      ModifiedExactly(ById(to), from, Inverse(x));
    }
  }

  // ----- Replaying a diff -----

  /** What a version says: the compared fields of every id. */
  function Says(entries: seq<Entry>): map<string, Facts>
  {
    map id | id in ById(entries) :: ById(entries)[id].facts
  }

  function Overwrite(facts: map<string, Facts>, changes: seq<Modification>): map<string, Facts>
  {
    if changes == [] then facts
    else
      var last := changes[|changes| - 1];
      Overwrite(facts, changes[..|changes| - 1])[last.id := last.after.facts]
  }

  function Insert(facts: map<string, Facts>, entries: seq<Entry>): map<string, Facts>
  {
    if entries == [] then facts
    else
      var last := entries[|entries| - 1];
      Insert(facts, entries[..|entries| - 1])[last.id := last.facts]
  }

  function Without(facts: map<string, Facts>, entries: seq<Entry>): map<string, Facts>
  {
    map id | id in facts && (forall e :: e in entries ==> e.id != id) :: facts[id]
  }

  /** Drop what the diff removed, overwrite what it modified, insert what it added. */
  function Replay(diff: Diff, facts: map<string, Facts>): map<string, Facts>
  {
    Insert(Overwrite(Without(facts, diff.removed), diff.modified), diff.added)
  }

  lemma InsertNothing(facts: map<string, Facts>, table: map<string, Entry>)
    ensures Insert(facts, Absent(table, [])) == facts && ById([]) == map[]
  {
  }

  lemma InsertStep(facts: map<string, Facts>, table: map<string, Entry>, front: seq<Entry>, last: Entry)
    ensures Insert(facts, Absent(table, front + [last])) ==
            var r := Insert(facts, Absent(table, front));
            if last.id in table then r else r[last.id := last.facts]
    ensures ById(front + [last]) == ById(front)[last.id := last]
  {
    var entries := front + [last];
    assert entries[..|entries| - 1] == front;
    if last.id !in table {
      assert Absent(table, entries)[..|Absent(table, front)|] == Absent(table, front);
    } else {
      assert Absent(table, entries) == Absent(table, front);
    }
  }

  /** Inserting the absent entries gives an id that the table lacks its last entry's fields, and no other id anything. */
  lemma {:induction false} InsertAbsent(
    facts: map<string, Facts>, table: map<string, Entry>, entries: seq<Entry>, id: string)
    ensures var r := Insert(facts, Absent(table, entries));
            if id in ById(entries) && id !in table then id in r && r[id] == ById(entries)[id].facts
            else (id in r <==> id in facts) && (id in r ==> r[id] == facts[id])
  {
    hide Absent, Insert, ById;
    if entries == [] {
      InsertNothing(facts, table);
    } else {
      var front, last := entries[..|entries| - 1], entries[|entries| - 1];
      assert entries == front + [last];
      InsertAbsent(facts, table, front, id);
      InsertStep(facts, table, front, last);
    }
  }

  ghost predicate ChangedBefore(table: map<string, Entry>, entries: seq<Entry>, id: string)
  {
    exists e :: e in entries && e.id == id && Changed(table, e)
  }

  lemma OverwriteNothing(facts: map<string, Facts>, table: map<string, Entry>, id: string)
    ensures Overwrite(facts, Modified(table, [])) == facts
    ensures !ChangedBefore(table, [], id) && ById([]) == map[]
  {
  }

  lemma OverwriteStep(facts: map<string, Facts>, table: map<string, Entry>, front: seq<Entry>, last: Entry)
    ensures Overwrite(facts, Modified(table, front + [last])) ==
            var r := Overwrite(facts, Modified(table, front));
            if Changed(table, last) then r[last.id := last.facts] else r
    ensures ById(front + [last]) == ById(front)[last.id := last]
  {
    hide HasChanges, Differences;
    var entries := front + [last];
    assert entries[..|entries| - 1] == front;
    if Changed(table, last) {
      assert Modified(table, entries)[..|Modified(table, front)|] == Modified(table, front);
    } else {
      assert Modified(table, entries) == Modified(table, front);
    }
  }

  lemma ChangedBeforeStep(table: map<string, Entry>, front: seq<Entry>, last: Entry, id: string)
    ensures ChangedBefore(table, front + [last], id)
            <==> ChangedBefore(table, front, id) || (last.id == id && Changed(table, last))
  {
    hide HasChanges;
    if ChangedBefore(table, front, id) {
      var e :| e in front && e.id == id && Changed(table, e);
      assert e in front + [last];
    }
    assert last in front + [last];
  }

  /** Overwriting leaves an id the fields of its last changed entry, which never are the table's. */
  lemma {:induction false} OverwriteModified(
    facts: map<string, Facts>, table: map<string, Entry>, entries: seq<Entry>, id: string)
    ensures var r := Overwrite(facts, Modified(table, entries));
            && (!ChangedBefore(table, entries, id) ==> (id in r <==> id in facts) && (id in r ==> r[id] == facts[id]))
            && (ChangedBefore(table, entries, id) ==> id in r && r[id] != table[id].facts)
            && (id in ById(entries) && Changed(table, ById(entries)[id]) ==> id in r && r[id] == ById(entries)[id].facts)
  {
    hide HasChanges, Differences, Modified, Overwrite, ChangedBefore, ById;
    if entries == [] {
      OverwriteNothing(facts, table, id);
    } else {
      var front, last := entries[..|entries| - 1], entries[|entries| - 1];
      assert entries == front + [last];
      OverwriteModified(facts, table, front, id);
      OverwriteStep(facts, table, front, last);
      ChangedBeforeStep(table, front, last, id);
      if last.id in table {
        ChangedIffExplained(table[last.id], last);
      }
    }
  }

  /** No changed entry is superseded by an unchanged one of the same id. */
  ghost predicate Faithful(from: seq<Entry>, to: seq<Entry>)
  {
    forall e :: e in to && Changed(ById(from), e) ==> Changed(ById(from), ById(to)[e.id])
  }

  /** What the replay says about one id. */
  lemma ReplayAt(from: seq<Entry>, to: seq<Entry>, id: string)
    ensures var r := Replay(DiffOf(from, to), Says(from));
            && (id in r <==> id in ById(to))
            && (id in r ==>
                  (r[id] == ById(to)[id].facts
                   <==> (ChangedBefore(ById(from), to, id) ==> Changed(ById(from), ById(to)[id]))))
  {
    var table := ById(from);
    var kept := Without(Says(from), Absent(ById(to), from));
    forall e ensures e in Absent(ById(to), from) <==> e in from && e.id !in ById(to) {
      AbsentExactly(ById(to), from, e);
    }
    assert id in kept <==> id in table && id in ById(to) by {
      if id in table && id !in ById(to) {
        assert table[id] in Absent(ById(to), from);
      }
    }
    OverwriteModified(kept, table, to, id);
    InsertAbsent(Overwrite(kept, Modified(table, to)), table, to, id);
  }

  /** A diff replayed on the old version says what the new one says if and only if the new version is faithful. */
  lemma ReplayYieldsNewIff(from: seq<Entry>, to: seq<Entry>)
    ensures Replay(DiffOf(from, to), Says(from)) == Says(to) <==> Faithful(from, to)
  {
    var r := Replay(DiffOf(from, to), Says(from));
    forall id
      ensures id in r <==> id in ById(to)
      ensures id in r ==>
                (r[id] == ById(to)[id].facts
                 <==> (ChangedBefore(ById(from), to, id) ==> Changed(ById(from), ById(to)[id])))
    {
      ReplayAt(from, to, id);
    }
    if r == Says(to) {
      forall e | e in to && Changed(ById(from), e)
        ensures Changed(ById(from), ById(to)[e.id])
      {
        assert ChangedBefore(ById(from), to, e.id);
        assert e.id in r && r[e.id] == Says(to)[e.id];
      }
    }
    if Faithful(from, to) {
      assert r.Keys == Says(to).Keys;
      forall id | id in r ensures r[id] == Says(to)[id] {
      }
    }
  }

  /** With distinct ids in the new version the replay always works, and the reverse diff undoes it. */
  lemma DistinctVersionsReplay(from: seq<Entry>, to: seq<Entry>)
    requires DistinctIds(to)
    ensures Replay(DiffOf(from, to), Says(from)) == Says(to)
    ensures DistinctIds(from) ==> Replay(DiffOf(to, from), Replay(DiffOf(from, to), Says(from))) == Says(from)
  {
    forall e | e in to ensures ById(to)[e.id] == e {
      DistinctLookup(to, e);
    }
    ReplayYieldsNewIff(from, to);
    if DistinctIds(from) {
      forall e | e in from ensures ById(from)[e.id] == e {
        DistinctLookup(from, e);
      }
      ReplayYieldsNewIff(to, from);
    }
  }

  const MORNING := Facts(6, 9, "playlist", "p", "main")
  const EVENING := MORNING.(startsAt := 18, endsAt := 21)

  /** A new version that lists an id twice, changed first and unchanged last, is not what its diff replays to. */
  lemma ReplayCanFail()
    ensures var from, to := [Entry("x", MORNING, "")], [Entry("x", EVENING, ""), Entry("x", MORNING, "")];
            !Faithful(from, to) && Replay(DiffOf(from, to), Says(from)) != Says(to)
  {
    hide Replay, DiffOf, Says;
    var from, to := [Entry("x", MORNING, "")], [Entry("x", EVENING, ""), Entry("x", MORNING, "")];
    assert from[..0] == [] && to[..1] == [to[0]] && to[..1][..0] == [];
    assert ById(from) == map["x" := from[0]] && ById(to)["x"] == to[1];
    assert to[0] in to && Changed(ById(from), to[0]) && !Changed(ById(from), to[1]);
    ReplayYieldsNewIff(from, to);
  }
}
