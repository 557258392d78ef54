/** The bounded sample buffer of a capture job: a ring that keeps the tail of the stream. */
module Ring {

  /** The last `n` samples, or all of them. */
  function Tail(s: seq<real>, n: nat): (t: seq<real>)
    ensures |t| == if |s| <= n then |s| else n
  {
    if |s| <= n then s else s[|s| - n..]
  }

  /** Keeping tails as the stream grows is keeping the tail of the whole stream. */
  lemma {:induction false} TailOfTail(s: seq<real>, more: seq<real>, n: nat)
    ensures Tail(Tail(s, n) + more, n) == Tail(s + more, n)
  {
    var t := Tail(s, n);
    if |s| > n && |t + more| > n {
      assert (t + more)[|t + more| - n..] == (s + more)[|s + more| - n..];
    }
  }

  class RingBuffer {
    const capacity: nat
    const data: array<real>
    var write: nat
    var filled: nat

    ghost predicate Valid()
      reads this
    {
      && capacity >= 1 && data.Length == capacity
      && write < capacity && filled <= capacity
      && (filled < capacity ==> write == filled)
    }

    /** The samples held, oldest first. */
    ghost function Contents(): (s: seq<real>)
      requires Valid()
      reads this, data
      ensures |s| == filled
    {
      if filled < capacity then data[..filled] else data[write..] + data[..write]
    }

    constructor (capacity: nat)
      ensures Valid() && fresh(data) && Contents() == []
      ensures this.capacity == if capacity >= 1 then capacity else 1
    {
      var n := if capacity >= 1 then capacity else 1;
      this.capacity := n;
      data := new real[n](_ => 0.0);
      write, filled := 0, 0;
    }

    method PushSlice(samples: seq<real>)
      requires Valid()
      modifies this, data
      ensures Valid() && Contents() == Tail(old(Contents()) + samples, capacity)
    {
      hide Tail, Contents;
      ghost var before := Contents();
      assert before + samples[..0] == before;
      HeldIsTail();
      for i := 0 to |samples|
        invariant Valid()
        invariant Contents() == Tail(before + samples[..i], capacity)
      {
        PushOne(samples[i]);
        TailOfTail(before + samples[..i], [samples[i]], capacity);
        assert before + samples[..i + 1] == before + samples[..i] + [samples[i]];
      }
      assert samples[..|samples|] == samples;
    }

    lemma HeldIsTail()
      requires Valid()
      ensures Tail(Contents(), capacity) == Contents()
    {}

    /** The body of the push loop. */
    method PushOne(s: real)
      requires Valid()
      modifies this, data
      ensures Valid() && Contents() == Tail(old(Contents()) + [s], capacity)
    {
      ghost var cells, w := data[..], write;
      data[write] := s;
      write := (write + 1) % capacity;
      filled := if filled + 1 <= capacity then filled + 1 else capacity;
      assert data[..] == cells[..w] + [s] + cells[w + 1..];
      NextIndex(w, capacity);
      if old(filled) < capacity {
        assert filled < capacity ==> data[..filled] == data[..][..filled];
        assert filled == capacity ==> data[write..] + data[..write] == data[..];
        Growing(cells, w, s);
      } else {
        assert data[write..] + data[..write] == data[..][write..] + data[..][..write];
        assert old(data[write..] + data[..write]) == cells[w..] + cells[..w];
        Rotating(cells, w, s);
      }
    }

    method LenSamples() returns (n: nat)
      requires Valid()
      ensures n == |Contents()|
    {
      n := filled;
    }

    method Snapshot() returns (out: seq<real>)
      requires Valid()
      ensures out == Contents()
    {
      if filled == 0 {
        return [];
      }
      out := [];
      var start := if filled == capacity then write else 0;
      for i := 0 to filled
        invariant |out| == i && out == Contents()[..i]
      {
        WrapIndex(start, i, capacity);
        assert data[(start + i) % capacity] == Contents()[i];
        out := out + [data[(start + i) % capacity]];
      }
    }
  }

  lemma NextIndex(w: nat, capacity: nat)
    requires w < capacity
    ensures (w + 1) % capacity == if w + 1 == capacity then 0 else w + 1
  {}

  /** Writing after the last of `w` samples appends. */
  lemma Growing(cells: seq<real>, w: nat, s: real)
    requires w < |cells|
    ensures (cells[..w] + [s] + cells[w + 1..])[..w + 1] == cells[..w] + [s] == Tail(cells[..w] + [s], |cells|)
    ensures w + 1 == |cells| ==> cells[..w] + [s] + cells[w + 1..] == cells[..w] + [s]
  {}

  /** Writing over the oldest sample of a full ring drops it and appends. */
  lemma Rotating(cells: seq<real>, w: nat, s: real)
    requires w < |cells|
    ensures var next := cells[..w] + [s] + cells[w + 1..];
            var w' := if w + 1 == |cells| then 0 else w + 1;
            next[w'..] + next[..w'] == Tail(cells[w..] + cells[..w] + [s], |cells|)
  {
    var next, all := cells[..w] + [s] + cells[w + 1..], cells[w..] + cells[..w] + [s];
    assert Tail(all, |cells|) == all[1..] == cells[w + 1..] + cells[..w] + [s];
    if w + 1 < |cells| {
      assert next[w + 1..] == cells[w + 1..] && next[..w + 1] == cells[..w] + [s];
    } else {
      assert next[0..] + next[..0] == cells[..w] + [s];
    }
  }

  lemma WrapIndex(start: nat, i: nat, capacity: nat)
    requires start < capacity && i < capacity
    ensures (start + i) % capacity == if start + i < capacity then start + i else start + i - capacity
  {
    if start + i >= capacity {
      assert start + i == capacity + (start + i - capacity);
    }
  }
}
