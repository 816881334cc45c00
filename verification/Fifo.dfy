/** vsf_fifo: a ring of bytes that holds one byte less than its buffer. */
module Fifos {
  import opened Wrappers

  /** The bytes from tail up to head, around the end of the buffer. */
  function Ring(b: seq<Byte>, head: nat, tail: nat): seq<Byte>
    requires head <= |b| && tail <= |b|
  {
    if head >= tail then b[tail..head] else b[tail..] + b[..head]
  }

  lemma RingAt(b: seq<Byte>, head: nat, tail: nat, k: nat)
    requires head < |b| && tail < |b| && k < |Ring(b, head, tail)|
    ensures Around(tail + k, |b|) < |b| && Ring(b, head, tail)[k] == b[Around(tail + k, |b|)]
  {
  }

  /** c is b with data written from head on, around the end. */
  lemma RingGrows(b: seq<Byte>, c: seq<Byte>, head: nat, tail: nat, data: seq<Byte>)
    requires |c| == |b| && head < |b| && tail < |b| && |Ring(b, head, tail)| + |data| < |b|
    requires forall k :: 0 <= k < |data| ==> c[Around(head + k, |b|)] == data[k]
    requires forall i :: 0 <= i < |b| && !(head <= i < head + |data|) && i + |b| >= head + |data| ==> c[i] == b[i]
    ensures Ring(c, Around(head + |data|, |b|), tail) == Ring(b, head, tail) + data
  {
    var r, was := Ring(c, Around(head + |data|, |b|), tail), Ring(b, head, tail);
    assert |r| == |was| + |data|;
    forall k | 0 <= k < |r| ensures r[k] == (was + data)[k] {
      RingAt(c, Around(head + |data|, |b|), tail, k);
      if k < |was| {
        RingAt(b, head, tail, k);
      } else {
        assert Around(tail + k, |b|) == Around(head + (k - |was|), |b|);
      }
    }
  }

  /** The first n bytes, in one piece or two. */
  lemma RingFront(b: seq<Byte>, head: nat, tail: nat, n: nat)
    requires head <= |b| && tail <= |b| && n <= |Ring(b, head, tail)|
    ensures n <= |b| - tail ==> b[tail..tail + n] == Ring(b, head, tail)[..n]
    ensures n > |b| - tail ==> n - (|b| - tail) <= |b| && b[tail..] + b[..n - (|b| - tail)] == Ring(b, head, tail)[..n]
  {
  }

  lemma RingShrinks(b: seq<Byte>, head: nat, tail: nat, n: nat)
    requires head < |b| && tail < |b| && n <= |Ring(b, head, tail)|
    ensures var to := if tail + n >= |b| then tail + n - |b| else tail + n;
            to < |b| && Ring(b, head, to) == Ring(b, head, tail)[n..]
  {
  }

  class Fifo {
    const buffer: array<Byte>
    var head: nat
    var tail: nat

    ghost predicate Valid()
      reads this
    {
      (head < buffer.Length && tail < buffer.Length) || (buffer.Length == 0 && head == tail == 0)
    }

    /** The bytes in the fifo, oldest first. */
    ghost function Contents(): (s: seq<Byte>)
      reads this, buffer
      requires Valid()
      ensures |s| <= Capacity()
    {
      Ring(buffer[..], head, tail)
    }

    function Capacity(): nat {
      if buffer.Length == 0 then 0 else buffer.Length - 1
    }

    constructor (size: nat)
      ensures Valid() && Contents() == [] && fresh(buffer) && buffer.Length == size
    {
      buffer := new Byte[size](i => 0);
      head, tail := 0, 0;
    }

    method Init()
      modifies this
      ensures Valid() && Contents() == []
    {
      head, tail := 0, 0;
    }

    method NextIndex(pos: nat) returns (next: nat)
      ensures next == if pos + 1 >= buffer.Length then 0 else pos + 1
    {
      next := pos + 1;
      if next >= buffer.Length {
        next := 0;
      }
    }

    method DataLength() returns (n: nat)
      requires Valid()
      ensures n == |Contents()|
    {
      if head >= tail {
        n := head - tail;
      } else {
        n := buffer.Length - (tail - head);
      }
    }

    method AvailLength() returns (n: nat)
      requires Valid()
      ensures n == Capacity() - |Contents()|
    {
      var used := DataLength();
      n := buffer.Length - used;
      if n > 0 {
        n := n - 1;
      }
    }

    /** memcpy into the buffer. */
    method CopyIn(at: nat, data: seq<Byte>)
      requires at + |data| <= buffer.Length
      modifies buffer
      ensures forall k :: 0 <= k < |data| ==> buffer[at + k] == data[k]
      ensures forall k :: 0 <= k < buffer.Length && !(at <= k < at + |data|) ==> buffer[k] == old(buffer[k])
    {
      forall k | 0 <= k < |data| {
        buffer[at + k] := data[k];
      }
    }

    /** All of the data goes in, in order, or nothing changes. */
    method Push(data: seq<Byte>) returns (n: nat)
      requires Valid()
      modifies this, buffer
      ensures Valid()
      ensures n == if |data| <= Capacity() - old(|Contents()|) then |data| else 0
      ensures Contents() == if |data| <= Capacity() - old(|Contents()|) then old(Contents()) + data else old(Contents())
    {
      var avail := AvailLength();
      if |data| > avail {
        return 0;
      }
      ghost var before := buffer[..];
      var part := buffer.Length - head;
      if |data| > part {
        CopyIn(head, data[..part]);
        CopyIn(0, data[part..]);
        RingGrows(before, buffer[..], head, tail, data);
        head := |data| - part;
      } else {
        CopyIn(head, data);
        if buffer.Length > 0 {
          RingGrows(before, buffer[..], head, tail, data);
        }
        head := head + |data|;
        if head == buffer.Length {
          head := 0;
        }
      }
      n := |data|;
    }

    method Push8(data: Byte) returns (n: nat)
      requires Valid()
      modifies this, buffer
      ensures Valid()
      ensures n == if old(|Contents()|) < Capacity() then 1 else 0
      ensures Contents() == if old(|Contents()|) < Capacity() then old(Contents()) + [data] else old(Contents())
    {
      var avail := AvailLength();
      if avail < 1 {
        return 0;
      }
      buffer[head] := data;
      head := NextIndex(head);
      n := 1;
    }

    method Peek(size: nat) returns (data: seq<Byte>)
      requires Valid()
      ensures data == Contents()[..if size < |Contents()| then size else |Contents()|]
    {
      var n := DataLength();
      if size < n {
        n := size;
      }
      var part := buffer.Length - tail;
      if n > part {
        data := buffer[tail..] + buffer[..n - part];
      } else {
        data := buffer[tail..tail + n];
      }
      RingFront(buffer[..], head, tail, n);
    }

    /** The oldest bytes, as many as there are up to size, leave in order. */
    method Pop(size: nat) returns (data: seq<Byte>)
      requires Valid()
      modifies this
      ensures Valid()
      ensures |data| == if size < old(|Contents()|) then size else old(|Contents()|)
      ensures data == old(Contents())[..|data|] && Contents() == old(Contents())[|data|..]
    {
      data := Peek(size);
      if |data| == 0 {
        return;
      }
      RingShrinks(buffer[..], head, tail, |data|);
      var part := buffer.Length - tail;
      if |data| > part {
        tail := |data| - part;
      } else {
        tail := tail + |data|;
        if tail == buffer.Length {
          tail := 0;
        }
      }
    }

    method Pop8() returns (data: Byte)
      requires Valid()
      modifies this
      ensures Valid()
      ensures old(Contents()) == [] ==> data == 0 && Contents() == []
      ensures old(Contents()) != [] ==> [data] + Contents() == old(Contents())
    {
      var n := DataLength();
      if n <= 0 {
        return 0;
      }
      data := buffer[tail];
      RingShrinks(buffer[..], head, tail, 1);
      assert Contents()[0] == data;
      tail := NextIndex(tail);
    }

    /** The bytes that can be read, or written, without passing the end of the buffer. */
    method ReadRun() returns (n: nat)
      requires Valid()
      ensures n <= |Contents()| && tail + n <= buffer.Length && buffer[tail..tail + n] == Contents()[..n]
      ensures n == 0 <==> Contents() == []
    {
      n := DataLength();
      if buffer.Length - tail < n {
        n := buffer.Length - tail;
      }
    }

    method WriteRun() returns (n: nat)
      requires Valid()
      ensures n <= Capacity() - |Contents()| && head + n <= buffer.Length
      ensures n == 0 <==> |Contents()| == Capacity()
    {
      n := AvailLength();
      if buffer.Length - head < n {
        n := buffer.Length - head;
      }
    }
  }
}
