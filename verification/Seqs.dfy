/** Sequence vocabulary shared by the models: suffixes, concatenation of chunks, subsequences. */
module Seqs {

  datatype Option<+T> = None | Some(value: T)

  /** The last `n` elements of `s`, or all of it when it is shorter. */
  function LastN<T>(s: seq<T>, n: nat): (r: seq<T>)
    ensures |r| == if n <= |s| then n else |s|
  {
    if n <= |s| then s[|s| - n..] else s
  }

  /** Forgetting everything but the last n elements early does not change a later window. */
  lemma LastNAppend<T>(s: seq<T>, p: seq<T>, n: nat)
    ensures LastN(LastN(s, n) + p, n) == LastN(s + p, n)
  {
    if n < |s| {
      assert s == s[..|s| - n] + s[|s| - n..];
      assert s + p == s[..|s| - n] + (LastN(s, n) + p);
    }
  }

  function Repeat<T>(x: T, n: nat): (r: seq<T>)
    ensures |r| == n && forall i :: 0 <= i < n ==> r[i] == x
  {
    seq(n, i => x)
  }

  predicate Distinct<T(==)>(s: seq<T>)
  {
    forall i, j :: 0 <= i < j < |s| ==> s[i] != s[j]
  }

  function Elements<T(==, !new)>(s: seq<T>): (r: set<T>)
    ensures forall x :: x in r <==> x in s
  {
    set x | x in s
  }

  lemma {:induction false} DistinctCard<T(!new)>(s: seq<T>)
    requires Distinct(s)
    ensures |Elements(s)| == |s|
    decreases |s|
  {
    if s != [] {
      var rest, last := s[..|s| - 1], s[|s| - 1];
      DistinctCard(rest);
      assert s == rest + [last];
      assert last !in Elements(rest);
      assert Elements(s) == Elements(rest) + {last};
    }
  }

  /** The chunks of `ss` joined in order. */
  function Flatten<T>(ss: seq<seq<T>>): (r: seq<T>)
  {
    if ss == [] then [] else Flatten(ss[..|ss| - 1]) + ss[|ss| - 1]
  }

  lemma {:induction false} FlattenConcat<T>(a: seq<seq<T>>, b: seq<seq<T>>)
    ensures Flatten(a + b) == Flatten(a) + Flatten(b)
    decreases |b|
  {
    if b == [] {
      assert a + b == a;
    } else {
      assert (a + b)[..|a + b| - 1] == a + b[..|b| - 1];
      FlattenConcat(a, b[..|b| - 1]);
      assert Flatten(a) + (Flatten(b[..|b| - 1]) + b[|b| - 1]) == Flatten(a) + Flatten(b[..|b| - 1]) + b[|b| - 1];
    }
  }

  /** `a` can be obtained from `b` by deleting elements, keeping the order. */
  predicate IsSubseq<T(==)>(a: seq<T>, b: seq<T>)
  {
    if a == [] then true
    else if b == [] then false
    else if a[|a| - 1] == b[|b| - 1] then IsSubseq(a[..|a| - 1], b[..|b| - 1])
    else IsSubseq(a, b[..|b| - 1])
  }

  lemma {:induction false} SubseqDropLast<T>(a: seq<T>, b: seq<T>)
    requires a != [] && IsSubseq(a, b)
    ensures IsSubseq(a[..|a| - 1], b)
    decreases |b|, 0
  {
    if a[|a| - 1] == b[|b| - 1] {
      SubseqGrow(a[..|a| - 1], b[..|b| - 1], b[|b| - 1]);
      assert b[..|b| - 1] + [b[|b| - 1]] == b;
    } else {
      SubseqDropLast(a, b[..|b| - 1]);
      SubseqGrow(a[..|a| - 1], b[..|b| - 1], b[|b| - 1]);
      assert b[..|b| - 1] + [b[|b| - 1]] == b;
    }
  }

  lemma {:induction false} SubseqGrow<T>(a: seq<T>, b: seq<T>, x: T)
    requires IsSubseq(a, b)
    ensures IsSubseq(a, b + [x])
    decreases |b|, 1
  {
    assert (b + [x])[..|b|] == b;
    if a != [] && a[|a| - 1] == x {
      SubseqDropLast(a, b);
    }
  }

  lemma SubseqPush<T>(a: seq<T>, b: seq<T>, x: T)
    requires IsSubseq(a, b)
    ensures IsSubseq(a + [x], b + [x])
  {
    assert (b + [x])[..|b|] == b;
    assert (a + [x])[..|a|] == a;
  }

  lemma NothingIsSubseq<T>(b: seq<T>)
    ensures IsSubseq([], b)
  {
  }

  /** One more element on the whole, taken into the subsequence or not. */
  lemma SubseqStep<T>(a: seq<T>, a': seq<T>, b: seq<T>, b': seq<T>, x: T)
    requires IsSubseq(a, b) && b' == b + [x] && (a' == a || a' == a + [x])
    ensures IsSubseq(a', b')
  {
    hide IsSubseq;
    SubseqPush(a, b, x);
    SubseqGrow(a, b, x);
  }

  /** Deleting one more element from a subsequence leaves a subsequence. */
  lemma {:induction false} SubseqDelete<T>(a: seq<T>, x: T, c: seq<T>, b: seq<T>)
    requires IsSubseq(a + [x] + c, b)
    ensures IsSubseq(a + c, b)
    decreases |b|
  {
    var w := a + [x] + c;
    if c == [] {
      assert w[..|w| - 1] == a + c;
      SubseqDropLast(w, b);
    } else {
      var b' := b[..|b| - 1];
      assert (a + c)[..|a + c| - 1] == a + c[..|c| - 1];
      if w[|w| - 1] == b[|b| - 1] {
        assert w[..|w| - 1] == a + [x] + c[..|c| - 1];
        SubseqDelete(a, x, c[..|c| - 1], b');
      } else {
        SubseqDelete(a, x, c, b');
      }
    }
  }

  /** Every element of a subsequence occurs in the whole. */
  lemma {:induction false} SubseqMembers<T>(a: seq<T>, b: seq<T>)
    requires IsSubseq(a, b)
    ensures forall x :: x in a ==> x in b
    decreases |b|
  {
    if a != [] {
      var a', b' := a[..|a| - 1], b[..|b| - 1];
      assert a == a' + [a[|a| - 1]] && b == b' + [b[|b| - 1]];
      if a[|a| - 1] == b[|b| - 1] {
        SubseqMembers(a', b');
      } else {
        SubseqMembers(a, b');
      }
    }
  }
}
