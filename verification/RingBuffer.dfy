/** The byte ring of internal/broadcast/server.go that remembers recent audio for new clients. */
module Rings {
  import opened Seqs

  type byte = n: int | 0 <= n < 256

  /** Ring indices stay below twice the size, so the modulus is at most one subtraction. */
  function Wrap(x: nat, size: nat): (r: nat)
    requires 0 < size && x < 2 * size
    ensures r == if x < size then x else x - size
  {
    QuotientBelowTwo(x, size);
    x % size
  }

  lemma AtLeastTwice(q: nat, size: nat)
    requires q >= 2
    ensures q * size >= 2 * size
  {
  }

  lemma QuotientBelowTwo(x: nat, size: nat)
    requires 0 < size && x < 2 * size
    ensures x % size == if x < size then x else x - size
  {
    var q := x / size;
    assert x == q * size + x % size;
    if q >= 2 {
      AtLeastTwice(q, size);
      assert false;
    }
  }

  /** Overwriting the oldest element and stepping on shifts the window by one. */
  lemma Shifted(before: seq<byte>, after: seq<byte>, pos: nat, b: byte)
    requires |before| == |after| && pos < |before| && after == before[pos := b]
    ensures var next := if pos + 1 == |before| then 0 else pos + 1;
            after[next..] + after[..next] == (before[pos..] + before[..pos])[1..] + [b]
  {
  }

  lemma Slide(before: seq<byte>, b: byte)
    requires |before| > 0
    ensures LastN(before + [b], |before|) == before[1..] + [b]
  {
  }

  lemma FullWindow(was: seq<byte>, p: seq<byte>, size: nat)
    requires |was| == size
    ensures LastN(was + p[..0], size) == was
  {
  }

  class RingBuffer {
    const data: array<byte>
    const size: nat
    var pos: nat

    ghost predicate Valid()
      reads this, data
    {
      0 < size && data.Length == size && pos < size
    }

    /** The ring read from its oldest byte to its newest. */
    ghost function Recent(): (r: seq<byte>)
      requires Valid()
      reads this, data
    {
      data[pos..] + data[..pos]
    }

    constructor (size: nat)
      requires 0 < size
      ensures Valid() && fresh(data) && this.size == size
      ensures Recent() == Repeat(0, size)
    {
      this.size := size;
      data := new byte[size](i => 0);
      pos := 0;
      new;
      assert Recent() == Repeat(0, size);
    }

    /** Appending `p` byte by byte keeps exactly the newest `size` bytes. */
    method Write(p: seq<byte>)
      requires Valid()
      modifies this`pos, data
      ensures Valid()
      ensures Recent() == LastN(old(Recent()) + p, size)
    {
      hide Wrap;
      hide LastN;
      ghost var was := Recent();
      FullWindow(was, p, size);
      for i := 0 to |p|
        invariant Valid()
        invariant Recent() == LastN(was + p[..i], size)
      {
        ghost var before, cells := Recent(), data[..];
        Shifted(cells, cells[pos := p[i]], pos, p[i]);
        data[pos] := p[i];
        pos := Wrap(pos + 1, size);
        assert Recent() == before[1..] + [p[i]];
        Slide(before, p[i]);
        assert was + p[..i + 1] == was + p[..i] + [p[i]];
        LastNAppend(was + p[..i], [p[i]], size);
      }
      assert p[..|p|] == p;
    }

    /** A fresh copy of the last `n` bytes, clamped to the ring's size. */
    method GetRecent(n: nat) returns (result: array<byte>)
      requires Valid()
      ensures fresh(result)
      ensures result[..] == LastN(Recent(), n)
    {
      hide Wrap;
      var n := if n > size then size else n;
      result := new byte[n];
      var start := Wrap(pos - n + size, size);
      for i := 0 to n
        invariant forall k :: 0 <= k < i ==> result[k] == Recent()[size - n + k]
      {
        result[i] := data[Wrap(start + i, size)];
      }
    }

    /** Zeroes the ring and rewinds it. */
    method Clear()
      requires Valid()
      modifies this`pos, data
      ensures Valid()
      ensures Recent() == Repeat(0, size)
    {
      for i := 0 to data.Length
        invariant forall k :: 0 <= k < i ==> data[k] == 0
      {
        data[i] := 0;
      }
      pos := 0;
      assert Recent() == Repeat(0, size);
    }
  }

  /** What a ring of `size` zeroes holds after the chunks of `writes` went through `Write`. */
  function Written(size: nat, writes: seq<seq<byte>>): (r: seq<byte>)
    ensures |r| == size
  {
    if writes == [] then Repeat(0, size)
    else LastN(Written(size, writes[..|writes| - 1]) + writes[|writes| - 1], size)
  }

  /** Chunk by chunk or all at once: the ring is a window on zeroes followed by everything written. */
  lemma {:induction false} RingIsHistoryWindow(size: nat, writes: seq<seq<byte>>)
    ensures Written(size, writes) == LastN(Repeat(0 as byte, size) + Flatten(writes), size)
    decreases |writes|
  {
    if writes != [] {
      var rest, last := writes[..|writes| - 1], writes[|writes| - 1];
      RingIsHistoryWindow(size, rest);
      LastNAppend(Repeat(0 as byte, size) + Flatten(rest), last, size);
      assert Repeat(0 as byte, size) + Flatten(rest) + last == Repeat(0 as byte, size) + Flatten(writes);
    } else {
      assert Repeat(0 as byte, size) + Flatten(writes) == Repeat(0 as byte, size);
    }
  }
}
