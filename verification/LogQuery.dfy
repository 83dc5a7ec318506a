/** Query filters of internal/logbuffer/buffer.go: case-insensitive search, filtering, order and limit. */
module LogQueries {
  import opened Seqs

  /** `station` is the station id found in the fields, empty when there is none; `fields` are the string values. */
  datatype Entry = Entry(timestamp: int, level: string, message: string, component: string, station: string, fields: set<string>)

  /** Empty strings and `None` leave a filter off; a limit of 0 or less means all. */
  datatype Params = Params(level: string, component: string, station: string, search: string, since: Option<int>, limit: int, descending: bool)

  // ---------------------------------------------------------------- case-insensitive search

  /** ASCII lower case. */
  function Fold(c: char): char
  {
    if 'A' <= c <= 'Z' then (c as int + 32) as char else c
  }

  const UPPER := "ABCDEFGHIJKLMNOPQRSTUVWXYZ"
  const LOWER := "abcdefghijklmnopqrstuvwxyz"

  lemma Alphabet(i: nat)
    requires i < 26
    ensures |UPPER| == |LOWER| == 26
    ensures UPPER[i] as int == 65 + i && LOWER[i] as int == 97 + i
  {
  }

  /** The 26 capitals become their small letters and every other character stays. */
  lemma FoldsTheAlphabet(c: char)
    ensures |UPPER| == |LOWER| == 26
    ensures Fold(c) != c <==> c in UPPER
    ensures forall i :: 0 <= i < 26 && c == UPPER[i] ==> Fold(c) == LOWER[i]
  {
    Alphabet(0);
    forall i | 0 <= i < 26 ensures UPPER[i] as int == 65 + i && LOWER[i] as int == 97 + i {
      Alphabet(i);
    }
    if 'A' <= c <= 'Z' {
      assert c == UPPER[c as int - 65];
    }
  }

  predicate FoldEqualAt(s: string, start: nat, sub: string)
  {
    start + |sub| <= |s| && forall k :: 0 <= k < |sub| ==> Fold(s[start + k]) == Fold(sub[k])
  }

  /** `sub` occurs somewhere in `s`, ASCII case aside. */
  predicate Occurs(s: string, sub: string)
  {
    exists start :: 0 <= start <= |s| && FoldEqualAt(s, start, sub)
  }

  function Lower(s: string): (r: string)
    ensures |r| == |s| && forall i :: 0 <= i < |s| ==> r[i] == Fold(s[i])
  {
    seq(|s|, i requires 0 <= i < |s| => Fold(s[i]))
  }

  /** Lower-cased text contains lower-cased pattern. */
  lemma OccursIff(s: string, sub: string)
    ensures Occurs(s, sub) <==> exists pre: string, post: string :: Lower(s) == pre + Lower(sub) + post
  {
    hide Fold;
    if start :| 0 <= start <= |s| && FoldEqualAt(s, start, sub) {
      assert Lower(s) == Lower(s)[..start] + Lower(sub) + Lower(s)[start + |sub|..];
    }
    if pre, post :| Lower(s) == pre + Lower(sub) + post {
      assert |pre| + |sub| <= |s|;
      forall k | 0 <= k < |sub| ensures Fold(s[|pre| + k]) == Fold(sub[k]) {
        assert Lower(s)[|pre| + k] == Lower(sub)[k];
      }
      assert FoldEqualAt(s, |pre|, sub);
    }
  }

  method EqualFoldAt(s: string, start: nat, sub: string) returns (equal: bool)
    requires start + |sub| <= |s|
    ensures equal <==> FoldEqualAt(s, start, sub)
  {
    for i := 0 to |sub|
      invariant forall k :: 0 <= k < i ==> Fold(s[start + k]) == Fold(sub[k])
    {
      var c1, c2 := s[start + i], sub[i];
      if c1 == c2 {
        continue;
      }
      if 'A' <= c1 <= 'Z' {
        c1 := (c1 as int + 32) as char;
      }
      if 'A' <= c2 <= 'Z' {
        c2 := (c2 as int + 32) as char;
      }
      if c1 != c2 {
        return false;
      }
    }
    return true;
  }

  method ContainsIgnoreCase(s: string, sub: string) returns (found: bool)
    ensures found <==> Occurs(s, sub)
  {
    if |s| < |sub| {
      return false;
    }
    if s == sub || |sub| == 0 {
      assert FoldEqualAt(s, 0, sub);
      return true;
    }
    if |s| == 0 {
      return false;
    }
    for i := 0 to |s| - |sub| + 1
      invariant forall start :: 0 <= start < i ==> !FoldEqualAt(s, start, sub)
    {
      var equal := EqualFoldAt(s, i, sub);
      if equal {
        return true;
      }
    }
    return false;
  }

  // ---------------------------------------------------------------- filters

  predicate Found(e: Entry, search: string)
  {
    Occurs(e.message, search) || Occurs(e.component, search) || exists v <- e.fields :: Occurs(v, search)
  }

  predicate Matches(e: Entry, p: Params)
  {
    && (p.level == "" || e.level == p.level)
    && (p.component == "" || e.component == p.component)
    && (p.station == "" || e.station == p.station)
    && (p.since == None || e.timestamp >= p.since.value)
    && (p.search == "" || Found(e, p.search))
  }

  method SearchEntry(e: Entry, search: string) returns (found: bool)
    ensures found <==> Found(e, search)
  {
    found := ContainsIgnoreCase(e.message, search);
    if !found {
      found := ContainsIgnoreCase(e.component, search);
    }
    var rest := e.fields;
    while !found && rest != {}
      invariant rest <= e.fields
      invariant !found ==> !Occurs(e.message, search) && !Occurs(e.component, search) && forall v <- e.fields - rest :: !Occurs(v, search)
      invariant found ==> Found(e, search)
      decreases rest
    {
      var v :| v in rest;
      found := ContainsIgnoreCase(v, search);
      rest := rest - {v};
    }
  }

  method MatchEntry(e: Entry, p: Params) returns (keep: bool)
    ensures keep <==> Matches(e, p)
  {
    if p.level != "" && e.level != p.level {
      return false;
    }
    if p.component != "" && e.component != p.component {
      return false;
    }
    if p.station != "" && e.station != p.station {
      return false;
    }
    if p.since.Some? && e.timestamp < p.since.value {
      return false;
    }
    if p.search != "" {
      keep := SearchEntry(e, p.search);
      return keep;
    }
    return true;
  }

  function Filtered(s: seq<Entry>, p: Params): (r: seq<Entry>)
  {
    if s == [] then []
    else Filtered(s[..|s| - 1], p) + if Matches(s[|s| - 1], p) then [s[|s| - 1]] else []
  }

  /** Newest first. */
  function Backwards<T>(s: seq<T>): (r: seq<T>)
    ensures |r| == |s| && forall i :: 0 <= i < |s| ==> r[i] == s[|s| - 1 - i]
  {
    seq(|s|, i requires 0 <= i < |s| => s[|s| - 1 - i])
  }

  /** Filter, then optionally reverse, then limit. */
  function Answer(s: seq<Entry>, p: Params): seq<Entry>
  {
    var filtered := Filtered(s, p);
    var ordered := if p.descending then Backwards(filtered) else filtered;
    if 0 < p.limit < |ordered| then ordered[..p.limit] else ordered
  }

  /** The in-place swap loop. */
  method ReverseInPlace(a: array<Entry>)
    modifies a
    ensures a[..] == Backwards(old(a[..]))
  {
    var i, j := 0, a.Length - 1;
    while i < j
      invariant 0 <= i <= j + 1 <= a.Length && i + j == a.Length - 1
      invariant forall k :: 0 <= k < i || j < k < a.Length ==> a[k] == old(a[a.Length - 1 - k])
      invariant forall k :: i <= k <= j ==> a[k] == old(a[k])
    {
      a[i], a[j] := a[j], a[i];
      i, j := i + 1, j - 1;
    }
    assert forall k :: 0 <= k < a.Length ==> a[k] == old(a[a.Length - 1 - k]);
  }

  /** The entries of an answer are there and match; without a limit every match is in it, and a limit cuts it to size. */
  lemma AnswerExactly(s: seq<Entry>, p: Params)
    ensures forall e <- Answer(s, p) :: e in s && Matches(e, p)
    ensures p.limit <= 0 ==> forall e <- s :: Matches(e, p) ==> e in Answer(s, p)
    ensures var matches := |set i | 0 <= i < |s| && Matches(s[i], p)|;
            |Answer(s, p)| == if 0 < p.limit < matches then p.limit else matches
  {
    hide Matches, Filtered;
    FilteredCount(s, p);
    var f := Filtered(s, p);
    forall e ensures e in f <==> e in s && Matches(e, p) {
      FilteredIsFilter(s, p, e);
    }
    forall i | 0 <= i < |f| ensures f[i] == Backwards(f)[|f| - 1 - i] {
    }
  }

  lemma {:induction false} FilteredCount(s: seq<Entry>, p: Params)
    ensures |Filtered(s, p)| == |set i | 0 <= i < |s| && Matches(s[i], p)|
    decreases |s|
  {
    hide Matches;
    if s != [] {
      var rest := s[..|s| - 1];
      FilteredCount(rest, p);
      var before := set i | 0 <= i < |rest| && Matches(rest[i], p);
      var all := set i | 0 <= i < |s| && Matches(s[i], p);
      assert all == if Matches(s[|s| - 1], p) then before + {|rest|} else before;
    }
  }

  /** Query over one ring's entries. */
  method Select(all: seq<Entry>, p: Params) returns (result: seq<Entry>)
    ensures result == Answer(all, p)
    ensures forall e <- result :: e in all
    ensures forall e <- result :: p.level != "" ==> e.level == p.level
    ensures forall e <- result :: p.component != "" ==> e.component == p.component
    ensures forall e <- result :: p.station != "" ==> e.station == p.station
    ensures forall e <- result :: p.since.Some? ==> p.since.value <= e.timestamp
    ensures forall e <- result :: p.search != "" ==>
              Occurs(e.message, p.search) || Occurs(e.component, p.search) || exists v <- e.fields :: Occurs(v, p.search)
    ensures forall e <- all ::
              && (p.level == "" || e.level == p.level)
              && (p.component == "" || e.component == p.component)
              && (p.station == "" || e.station == p.station)
              && (p.since == None || p.since.value <= e.timestamp)
              && (p.search == "" || Occurs(e.message, p.search) || Occurs(e.component, p.search) || exists v <- e.fields :: Occurs(v, p.search))
              && p.limit <= 0
              ==> e in result
    ensures var matches := |set i | 0 <= i < |all| && Matches(all[i], p)|;
            |result| == if 0 < p.limit < matches then p.limit else matches
  {
    AnswerExactly(all, p);
    var filtered := [];
    for i := 0 to |all|
      invariant filtered == Filtered(all[..i], p)
    {
      assert all[..i + 1][..i] == all[..i];
      var keep := MatchEntry(all[i], p);
      if keep {
        filtered := filtered + [all[i]];
      }
    }
    assert all[..|all|] == all;
    result := filtered;
    if p.descending {
      var buffer := new Entry[|filtered|](k requires 0 <= k < |filtered| => filtered[k]);
      assert buffer[..] == filtered;
      ReverseInPlace(buffer);
      result := buffer[..];
    }
    if p.limit > 0 && |result| > p.limit {
      result := result[..p.limit];
    }
  }

  /** The newest `limit` matches, when asked newest first. */
  lemma NewestFirst(s: seq<Entry>, p: Params, i: nat)
    requires p.descending && i < |Answer(s, p)|
    ensures |Answer(s, p)| <= |Filtered(s, p)|
    ensures Answer(s, p)[i] == Filtered(s, p)[|Filtered(s, p)| - 1 - i]
  {
    hide Filtered;
    hide Matches;
  }

  /** An entry is selected iff it is there and matches; filtering keeps order and repetitions. */
  lemma {:induction false} FilteredIsFilter(s: seq<Entry>, p: Params, e: Entry)
    ensures e in Filtered(s, p) <==> e in s && Matches(e, p)
    ensures multiset(Filtered(s, p))[e] == if Matches(e, p) then multiset(s)[e] else 0
    decreases |s|
  {
    hide Matches;
    if s != [] {
      FilteredIsFilter(s[..|s| - 1], p, e);
      assert s == s[..|s| - 1] + [s[|s| - 1]];
    }
  }

  /** Filtering keeps the order of the entries. */
  lemma {:induction false} FilteredInOrder(s: seq<Entry>, p: Params)
    ensures IsSubseq(Filtered(s, p), s)
    decreases |s|
  {
    hide Matches, IsSubseq;
    if s == [] {
      NothingIsSubseq(s);
    } else {
      var rest, last := s[..|s| - 1], s[|s| - 1];
      FilteredInOrder(rest, p);
      SubseqStep(Filtered(rest, p), Filtered(s, p), rest, s, last);
    }
  }

  /** The oldest `limit` matches, when not asked newest first. */
  lemma OldestFirst(s: seq<Entry>, p: Params, i: nat)
    requires !p.descending && i < |Answer(s, p)|
    ensures |Answer(s, p)| <= |Filtered(s, p)|
    ensures Answer(s, p)[i] == Filtered(s, p)[i]
  {
    hide Filtered, Matches;
  }
}
