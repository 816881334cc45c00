/** multibuf_stream_write and multibuf_stream_read on buffers in memory. */
module MultibufStream {
  import opened Wrappers
  import opened Multibuf

  ghost function Cells(list: seq<array<Byte>>): (cells: seq<seq<Byte>>)
    reads list
    ensures |cells| == |list| && forall i :: 0 <= i < |list| ==> cells[i] == list[i][..]
  {
    seq(|list|, i requires 0 <= i < |list| reads list => list[i][..])
  }

  class Stream {
    const count: nat
    const size: nat
    const list: seq<array<Byte>>
    var head: nat
    var tail: nat
    var length: nat
    var rpos: nat
    var wpos: nat
    // everything written and everything read
    ghost var written: seq<Byte>
    ghost var taken: seq<Byte>

    ghost function View(): Ring
      reads this, list
    {
      Ring(Cells(list), size, tail, length, rpos, wpos)
    }

    ghost predicate Valid()
      reads this, list
    {
      && |list| == count && (forall i, j :: 0 <= i < j < count ==> list[i] != list[j])
      && Shape(View()) && head == (if count > 0 then Head(View()) else 0)
      && written == taken + Contents(View())
    }

    constructor (size: nat, list: seq<array<Byte>>)
      requires size > 0 && (forall i :: 0 <= i < |list| ==> list[i].Length == size)
      requires forall i, j :: 0 <= i < j < |list| ==> list[i] != list[j]
      ensures Valid() && Contents(View()) == [] && written == taken == [] && this.list == list && this.size == size
    {
      count, this.size, this.list := |list|, size, list;
      head, tail, length, rpos, wpos := 0, 0, 0, 0, 0;
      written, taken := [], [];
    }

    method NextIndex(pos: nat) returns (next: nat)
      ensures next == if pos + 1 >= count then 0 else pos + 1
    {
      next := pos + 1;
      if next >= count {
        next := 0;
      }
    }

    method CopyIn(i: nat, at: nat, data: seq<Byte>)
      requires i < |list| && (forall i, j :: 0 <= i < j < |list| ==> list[i] != list[j]) && at + |data| <= list[i].Length
      modifies list[i]
      ensures var cells := old(Cells(list));
              Cells(list) == cells[i := cells[i][..at] + data + cells[i][at + |data|..]]
    {
      ghost var cell := list[i][..];
      forall k | 0 <= k < |data| {
        list[i][at + k] := data[k];
      }
      assert list[i][..] == cell[..at] + data + cell[at + |data|..];
      forall j | 0 <= j < |list| && j != i ensures Cells(list)[j] == old(Cells(list)[j]) {
        assert list[j] != list[i];
      }
    }

    /** n more bytes are in the buffer at the head: vsf_multibuf_push if it is full. */
    method Filled(n: nat)
      requires length < count && tail < count && head == Around(tail + length, count) && |list| == count
      modifies this`head, this`length, this`wpos
      ensures head == Around(tail + length, count)
      ensures View() == if old(wpos) + n >= size then old(View()).(length := old(length) + 1, wpos := 0)
                        else old(View()).(wpos := old(wpos) + n)
    {
      wpos := wpos + n;
      if wpos >= size {
        head := NextIndex(head);
        length := length + 1;
        wpos := 0;
      }
    }

    /** n bytes were read from the buffer at the tail: vsf_multibuf_pop if it is done. */
    method Drained(n: nat)
      requires 0 < length <= count && tail < count && head == Around(tail + length, count) && |list| == count
      modifies this`tail, this`length, this`rpos
      ensures head == Around(tail + length, count)
      ensures View() == if old(rpos) + n >= size then old(View()).(tail := Around(old(tail) + 1, count), length := old(length) - 1, rpos := 0)
                        else old(View()).(rpos := old(rpos) + n)
    {
      rpos := rpos + n;
      if rpos >= size {
        tail := NextIndex(tail);
        length := length - 1;
        rpos := 0;
      }
    }

    lemma Facts()
      requires Valid()
      ensures |list| == count && (forall i :: 0 <= i < count ==> list[i].Length == size) && length <= count
      ensures count > 0 ==> tail < count && head == Around(tail + length, count) < count
    {
    }

    method PutBytes(data: seq<Byte>)
      requires Valid() && length < count && wpos + |data| <= size
      modifies this`head, this`length, this`wpos, list
      ensures |list| == count && head == (if count > 0 then Head(View()) else 0) && View() == Put(old(View()), data)
    {
      hide Contents;
      hide Shape;
      Facts();
      CopyIn(head, wpos, data);
      Filled(|data|);
    }

    /** memcpy into the buffer at the head, then vsf_multibuf_push if it is full. */
    method PutSome(data: seq<Byte>)
      requires Valid() && length < count && data != [] && wpos + |data| <= size
      modifies this`head, this`length, this`wpos, this`written, list
      ensures Valid() && Room(View()) == old(Room(View())) - |data|
      ensures Contents(View()) == old(Contents(View())) + data && written == old(written) + data
    {
      ghost var m := View();
      hide Contents;
      hide Room;
      hide Shape;
      Facts();
      PutAppends(m, data);
      PutShape(m, data);
      PutBytes(data);
      hide Put;
      assert written + data == taken + (Contents(m) + data);
      written := written + data;
    }

    /** memcpy out of the buffer at the tail, then vsf_multibuf_pop if it is read. */
    method TakeSome(n: nat) returns (data: seq<Byte>)
      requires Valid() && length > 0 && n > 0 && rpos + n <= size
      modifies this`tail, this`length, this`rpos, this`taken
      ensures Valid() && Ready(View()) == old(Ready(View())) - n && taken == old(taken) + data
      ensures |data| == n && old(Contents(View())) == data + Contents(View())
    {
      ghost var m := View();
      hide Contents;
      hide Ready;
      hide Shape;
      Facts();
      TakeRemoves(m, n);
      TakeShape(m, n);
      data := list[tail][rpos..rpos + n];
      Drained(n);
      assert View() == Take(m, n);
      assert taken + (data + Contents(View())) == taken + data + Contents(View());
      taken := taken + data;
    }

    /** As much of the data goes in as there is room for: (count - length) * size - wpos bytes. */
    method Write(data: seq<Byte>) returns (n: nat)
      requires Valid()
      modifies this`head, this`length, this`wpos, this`written, list
      ensures Valid() && n == (if |data| < old(Room(View())) then |data| else old(Room(View())))
      ensures Contents(View()) == old(Contents(View())) + data[..n]
      ensures written == old(written) + data[..n]
    {
      hide Contents;
      hide Room;
      hide Shape;
      n := 0;
      Bounds();
      while length < count && n < |data|
        invariant Valid() && 0 <= n <= |data| && n + Room(View()) == old(Room(View()))
        invariant Contents(View()) == old(Contents(View())) + data[..n]
        invariant written == old(written) + data[..n]
        decreases |data| - n
      {
        Bounds();
        var k := if size - wpos < |data| - n then size - wpos else |data| - n;
        assert data[..n + k] == data[..n] + data[n..n + k];
        PutSome(data[n..n + k]);
        n := n + k;
      }
      Bounds();
    }

    lemma Bounds()
      requires Valid()
      ensures wpos < size && rpos < size && length <= count
      ensures Room(View()) >= 0 && (Room(View()) == 0 <==> length == count)
      ensures Ready(View()) >= 0 && (Ready(View()) == 0 <==> length == 0)
    {
      RoomAndReady(View());
    }

    /** As much is read as there is in full buffers: length * size - rpos bytes. What was read over the
        whole life of the stream is a prefix of what was written. */
    method Read(n: nat) returns (data: seq<Byte>)
      requires Valid()
      modifies this`tail, this`length, this`rpos, this`taken
      ensures Valid() && |data| == (if n < old(Ready(View())) then n else old(Ready(View())))
      ensures old(Contents(View())) == data + Contents(View())
      ensures taken == old(taken) + data && taken <= written
    {
      hide Contents;
      hide Ready;
      hide Shape;
      data := [];
      Bounds();
      while length > 0 && |data| < n
        invariant Valid() && |data| <= n && |data| + Ready(View()) == old(Ready(View()))
        invariant old(Contents(View())) == data + Contents(View())
        invariant taken == old(taken) + data && written == old(written)
        decreases n - |data|
      {
        Bounds();
        var k := if size - rpos < n - |data| then size - rpos else n - |data|;
        ghost var before := Contents(View());
        var part := TakeSome(k);
        assert data + (part + Contents(View())) == data + part + Contents(View());
        data := data + part;
      }
      Bounds();
    }
  }
}
