/** The byte stream over a ring of equal buffers: a buffer can be read once it is full. */
module Multibuf {
  import opened Wrappers

  /** cells: what is in the buffers. The full ones start at tail; the one after them is being filled. */
  datatype Ring = Ring(cells: seq<seq<Byte>>, size: nat, tail: nat, length: nat, rpos: nat, wpos: nat)

  predicate Shape(m: Ring) {
    && m.size > 0 && (forall i :: 0 <= i < |m.cells| ==> |m.cells[i]| == m.size)
    && m.length <= |m.cells| && (if |m.cells| > 0 then m.tail < |m.cells| else m.tail == 0)
    && m.rpos < m.size && m.wpos < m.size
    && (m.rpos > 0 ==> m.length > 0) && (m.wpos > 0 ==> m.length < |m.cells|)
  }

  function Head(m: Ring): nat {
    Around(m.tail + m.length, |m.cells|)
  }

  /** The full buffers, oldest first. */
  function Full(m: Ring): (bs: seq<seq<Byte>>)
    requires Shape(m)
    ensures |bs| == m.length && forall j :: 0 <= j < m.length ==> bs[j] == m.cells[Around(m.tail + j, |m.cells|)]
  {
    seq(m.length, j requires 0 <= j < m.length => m.cells[Around(m.tail + j, |m.cells|)])
  }

  function Part(m: Ring): seq<Byte>
    requires Shape(m)
  {
    if m.length < |m.cells| then m.cells[Head(m)][..m.wpos] else []
  }

  function Flat(bs: seq<seq<Byte>>): seq<Byte> {
    if bs == [] then [] else bs[0] + Flat(bs[1..])
  }

  function Stored(m: Ring): seq<Byte>
    requires Shape(m)
  {
    Flat(Full(m)) + Part(m)
  }

  /** What is written and not yet read. */
  function Contents(m: Ring): seq<Byte>
    requires Shape(m)
  {
    if m.rpos <= |Stored(m)| then Stored(m)[m.rpos..] else []
  }

  /** What a write can still take, and what a read can get. */
  function Room(m: Ring): int {
    (|m.cells| - m.length) * m.size - m.wpos
  }

  function Ready(m: Ring): int {
    m.length * m.size - m.rpos
  }

  lemma {:induction false} FlatAppends(bs: seq<seq<Byte>>, b: seq<Byte>)
    ensures Flat(bs + [b]) == Flat(bs) + b
  {
    if bs == [] {
      assert [b][1..] == [];
    } else {
      FlatAppends(bs[1..], b);
      assert (bs + [b])[1..] == bs[1..] + [b];
    }
  }

  lemma {:induction false} FlatLength(bs: seq<seq<Byte>>, size: nat)
    requires forall i :: 0 <= i < |bs| ==> |bs[i]| == size
    ensures |Flat(bs)| == |bs| * size
  {
    if bs != [] {
      FlatLength(bs[1..], size);
      assert |bs| * size == size + (|bs| - 1) * size;
    }
  }

  /** How much is stored. */
  lemma StoredLength(m: Ring)
    requires Shape(m)
    ensures |Stored(m)| == m.length * m.size + m.wpos && m.rpos <= |Stored(m)|
  {
    FlatLength(Full(m), m.size);
    if m.length > 0 {
      assert m.length * m.size >= m.size;
    }
  }

  /** data goes on in the buffer at the head, which is passed on when it is full. */
  function Put(m: Ring, data: seq<Byte>): Ring
    requires Shape(m) && m.length < |m.cells| && m.wpos + |data| <= m.size
  {
    var cell := m.cells[Head(m)];
    var n := m.wpos + |data|;
    var w := m.(cells := m.cells[Head(m) := cell[..m.wpos] + data + cell[n..]]);
    if n >= m.size then w.(length := m.length + 1, wpos := 0) else w.(wpos := n)
  }

  /** n bytes are taken out of the buffer at the tail, which is given back when it is empty. */
  function Take(m: Ring, n: nat): Ring
    requires Shape(m) && m.length > 0 && m.rpos + n <= m.size
  {
    if m.rpos + n >= m.size then m.(tail := Around(m.tail + 1, |m.cells|), length := m.length - 1, rpos := 0)
    else m.(rpos := m.rpos + n)
  }

  lemma PutShape(m: Ring, data: seq<Byte>)
    requires Shape(m) && m.length < |m.cells| && m.wpos + |data| <= m.size && data != []
    ensures Shape(Put(m, data)) && Room(Put(m, data)) == Room(m) - |data|
  {
    assert (|m.cells| - m.length) * m.size == (|m.cells| - (m.length + 1)) * m.size + m.size;
  }

  lemma PutFull(m: Ring, data: seq<Byte>)
    requires Shape(m) && m.length < |m.cells| && m.wpos + |data| <= m.size && Shape(Put(m, data))
    ensures Full(Put(m, data))[..m.length] == Full(m)
    ensures Put(m, data).cells[Head(m)] == m.cells[Head(m)][..m.wpos] + data + m.cells[Head(m)][m.wpos + |data|..]
  {
    var p := Put(m, data);
    forall j | 0 <= j < m.length ensures Full(p)[j] == Full(m)[j] {
      assert Around(m.tail + j, |m.cells|) != Head(m);
    }
  }

  lemma PutStores(m: Ring, data: seq<Byte>)
    requires Shape(m) && m.length < |m.cells| && m.wpos + |data| <= m.size && data != []
    ensures Shape(Put(m, data)) && Stored(Put(m, data)) == Stored(m) + data
  {
    PutShape(m, data);
    PutFull(m, data);
    hide Room;
    var p := Put(m, data);
    var cell := m.cells[Head(m)];
    if m.wpos + |data| >= m.size {
      assert p.cells[Head(m)] == cell[..m.wpos] + data;
      assert Full(p) == Full(p)[..m.length] + [p.cells[Head(m)]];
      FlatAppends(Full(m), cell[..m.wpos] + data);
    } else {
      assert Full(p) == Full(p)[..m.length];
      assert p.cells[Head(p)][..p.wpos] == cell[..m.wpos] + data;
    }
  }

  lemma DropAppend(s: seq<Byte>, data: seq<Byte>, r: nat)
    requires r <= |s|
    ensures (s + data)[r..] == s[r..] + data
  {
  }

  /** A write of data puts it behind what is there. */
  lemma PutAppends(m: Ring, data: seq<Byte>)
    requires Shape(m) && m.length < |m.cells| && m.wpos + |data| <= m.size && data != []
    ensures Shape(Put(m, data)) && Contents(Put(m, data)) == Contents(m) + data
  {
    PutStores(m, data);
    StoredLength(m);
    DropAppend(Stored(m), data, m.rpos);
    hide Shape;
    hide Stored;
  }

  lemma TakeShape(m: Ring, n: nat)
    requires Shape(m) && m.length > 0 && 0 < n && m.rpos + n <= m.size
    ensures Shape(Take(m, n)) && Ready(Take(m, n)) == Ready(m) - n
  {
    assert m.length * m.size == (m.length - 1) * m.size + m.size;
  }

  /** The oldest buffer is the front of what is stored. */
  lemma FrontIsTail(m: Ring)
    requires Shape(m) && m.length > 0
    ensures Stored(m) == m.cells[m.tail] + (Flat(Full(m)[1..]) + Part(m))
  {
    assert Full(m)[0] == m.cells[m.tail];
  }

  lemma TakeWhole(m: Ring, n: nat)
    requires Shape(m) && m.length > 0 && 0 < n && m.rpos + n == m.size && Shape(Take(m, n))
    ensures Stored(m) == m.cells[m.tail] + Stored(Take(m, n))
  {
    var t := Take(m, n);
    FrontIsTail(m);
    assert Head(t) == Head(m);
    forall j | 0 <= j < t.length ensures Full(t)[j] == Full(m)[1..][j] {
      assert Full(m)[1..][j] == Full(m)[j + 1];
    }
    assert Full(t) == Full(m)[1..];
  }

  lemma DropFront(first: seq<Byte>, rest: seq<Byte>, r: nat, n: nat)
    requires r + n <= |first|
    ensures (first + rest)[r..] == first[r..r + n] + (first + rest)[r + n..]
    ensures r + n == |first| ==> (first + rest)[r + n..] == rest
  {
  }

  lemma StoredEnough(m: Ring)
    requires Shape(m)
    ensures m.rpos <= |Stored(m)|
  {
    StoredLength(m);
  }

  lemma TakeRemovesWhole(m: Ring, n: nat)
    requires Shape(m) && m.length > 0 && 0 < n && m.rpos + n == m.size && Shape(Take(m, n))
    ensures Contents(m) == m.cells[m.tail][m.rpos..m.rpos + n] + Contents(Take(m, n))
  {
    var t := Take(m, n);
    ContentsIs(m);
    ContentsIs(t);
    TakeWhole(m, n);
    TailFull(m);
    assert t.rpos == 0;
    hide Stored;
    hide Contents;
    hide Shape;
    hide Take;
    DropFront(m.cells[m.tail], Stored(t), m.rpos, n);
    FromStart(Stored(t));
  }

  lemma FromStart(s: seq<Byte>)
    ensures s[0..] == s
  {
  }

  lemma TailFull(m: Ring)
    requires Shape(m) && m.length > 0
    ensures m.tail < |m.cells| && |m.cells[m.tail]| == m.size
  {
  }

  lemma ContentsIs(m: Ring)
    requires Shape(m)
    ensures m.rpos <= |Stored(m)| && Contents(m) == Stored(m)[m.rpos..]
  {
    StoredEnough(m);
  }

  lemma TakeRemovesPart(m: Ring, n: nat)
    requires Shape(m) && m.length > 0 && 0 < n && m.rpos + n < m.size && Shape(Take(m, n))
    ensures Contents(m) == m.cells[m.tail][m.rpos..m.rpos + n] + Contents(Take(m, n))
  {
    StoredEnough(m);
    StoredEnough(Take(m, n));
    FrontIsTail(m);
    TakeSome(m, n);
    assert |m.cells[m.tail]| == m.size && Take(m, n).rpos == m.rpos + n;
    DropFront(m.cells[m.tail], Flat(Full(m)[1..]) + Part(m), m.rpos, n);
    hide Stored;
    hide Shape;
    hide Take;
  }

  /** A read takes the oldest bytes. */
  lemma TakeRemoves(m: Ring, n: nat)
    requires Shape(m) && m.length > 0 && 0 < n && m.rpos + n <= m.size
    ensures Shape(Take(m, n))
    ensures Contents(m) == m.cells[m.tail][m.rpos..m.rpos + n] + Contents(Take(m, n))
  {
    TakeShape(m, n);
    hide Shape;
    hide Contents;
    hide Take;
    if m.rpos + n == m.size {
      TakeRemovesWhole(m, n);
    } else {
      TakeRemovesPart(m, n);
    }
  }

  lemma TakeSome(m: Ring, n: nat)
    requires Shape(m) && m.length > 0 && m.rpos + n < m.size && Shape(Take(m, n))
    ensures Stored(Take(m, n)) == Stored(m)
  {
    assert Full(Take(m, n)) == Full(m);
  }

  lemma Times(a: nat, b: nat)
    requires a > 0
    ensures a * b >= b
  {
  }

  /** How much can be written, or read, agrees with what is there. */
  lemma RoomAndReady(m: Ring)
    requires Shape(m)
    ensures Room(m) >= 0 && (Room(m) == 0 <==> m.length == |m.cells|)
    ensures Ready(m) >= 0 && (Ready(m) == 0 <==> m.length == 0)
    ensures |Contents(m)| == Ready(m) + m.wpos
  {
    StoredLength(m);
    hide Stored;
    if m.length < |m.cells| {
      Times(|m.cells| - m.length, m.size);
    }
    if m.length > 0 {
      Times(m.length, m.size);
    }
  }

  /** multibuf_stream_get_avail_length tells how much a write will take exactly if no buffer is half read. */
  lemma AvailIsRoom(m: Ring)
    requires Shape(m)
    ensures |m.cells| * m.size - |Contents(m)| == Room(m) <==> m.rpos == 0
  {
    RoomAndReady(m);
    Rooms(|m.cells|, m.length, m.size);
    hide Contents;
    hide Shape;
  }

  lemma Rooms(count: nat, length: nat, size: nat)
    ensures (count - length) * size == count * size - length * size
  {
  }
}
