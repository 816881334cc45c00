/** What one end keeps: the bytes it handed on are a prefix of the peer's stream, what it sends are
    slices of its own, and outq holds the end of its stream, buffer after buffer. */
module TcpStream {
  import opened Wrappers
  import opened Tcp

  // ---------- segments and streams ----------

  /** data is the part of the stream that starts at off, and number says so. */
  ghost predicate SliceAt(number: Number, data: seq<Byte>, isn: Number, stream: seq<Byte>, off: nat) {
    off + |data| <= |stream| && number == Add32(isn, 1 + off) && data == stream[off..off + |data|]
  }

  /** A segment that carries data carries a slice of the stream. */
  ghost predicate Genuine(s: Segment, isn: Number, stream: seq<Byte>) {
    s.data != [] ==> exists off: nat :: SliceAt(s.number, s.data, isn, stream, off)
  }

  ghost predicate AllGenuine(sent: seq<Segment>, isn: Number, stream: seq<Byte>) {
    forall s :: s in sent ==> Genuine(s, isn, stream)
  }

  lemma SliceGrows(number: Number, data: seq<Byte>, isn: Number, stream: seq<Byte>, more: seq<Byte>, off: nat)
    requires SliceAt(number, data, isn, stream, off)
    ensures SliceAt(number, data, isn, stream + more, off)
  {
    assert (stream + more)[off..off + |data|] == stream[off..off + |data|];
  }

  lemma GenuineGrows(sent: seq<Segment>, isn: Number, stream: seq<Byte>, more: seq<Byte>)
    requires AllGenuine(sent, isn, stream)
    ensures AllGenuine(sent, isn, stream + more)
  {
    forall s | s in sent ensures Genuine(s, isn, stream + more) {
      if s.data != [] {
        var off: nat :| SliceAt(s.number, s.data, isn, stream, off);
        SliceGrows(s.number, s.data, isn, stream, more, off);
      }
    }
  }

  lemma GenuineMore(sent: seq<Segment>, s: Segment, isn: Number, stream: seq<Byte>)
    requires AllGenuine(sent, isn, stream) && Genuine(s, isn, stream)
    ensures AllGenuine(sent + [s], isn, stream)
  {
  }

  lemma GenuineSlice(s: Segment, isn: Number, stream: seq<Byte>, off: nat)
    requires SliceAt(s.number, s.data, isn, stream, off)
    ensures Genuine(s, isn, stream)
  {
  }

  /** On a stream shorter than 2^32 a number stands for one offset only. */
  lemma OffsetUnique(isn: Number, i: nat, j: nat)
    requires i < MOD32 && j < MOD32 && Add32(isn, 1 + i) == Add32(isn, 1 + j)
    ensures i == j
  {
  }

  lemma NextNumber(isn: Number, i: nat, n: nat)
    ensures Add32(Add32(isn, 1 + i), n) == Add32(isn, 1 + (i + n))
  {
  }

  // ---------- the retransmit queue ----------

  /** The buffers of q, one after the other, are the stream from off to its end. */
  ghost predicate QueueFrom(q: seq<OutBuf>, isn: Number, stream: seq<Byte>, off: nat) {
    if q == [] then off == |stream|
    else q[0].room && SliceAt(q[0].addr, q[0].data, isn, stream, off) && QueueFrom(q[1..], isn, stream, off + |q[0].data|)
  }

  /** The offset of the first byte that is still in outq. */
  function Kept(q: seq<OutBuf>, stream: seq<Byte>): (off: nat) {
    if OutLength(q) <= |stream| then |stream| - OutLength(q) else 0
  }

  ghost predicate Queued(q: seq<OutBuf>, isn: Number, stream: seq<Byte>) {
    QueueFrom(q, isn, stream, Kept(q, stream))
  }

  lemma {:induction false} QueueMeasured(q: seq<OutBuf>, isn: Number, stream: seq<Byte>, off: nat)
    requires QueueFrom(q, isn, stream, off)
    ensures off + OutLength(q) == |stream| && Kept(q, stream) == off && Queued(q, isn, stream)
  {
    if q != [] {
      QueueMeasured(q[1..], isn, stream, off + |q[0].data|);
    }
  }

  lemma {:induction false} QueueAppends(q: seq<OutBuf>, b: OutBuf, isn: Number, stream: seq<Byte>, off: nat)
    requires QueueFrom(q, isn, stream, off) && b.room && b.addr == Add32(isn, 1 + |stream|)
    ensures QueueFrom(q + [b], isn, stream + b.data, off)
  {
    if q == [] {
      assert [b][1..] == [];
      assert (stream + b.data)[off..] == b.data;
    } else {
      SliceGrows(q[0].addr, q[0].data, isn, stream, b.data, off);
      QueueAppends(q[1..], b, isn, stream, off + |q[0].data|);
      assert (q + [b])[1..] == q[1..] + [b];
    }
  }

  /** Aging a buffer moves nothing. */
  lemma {:induction false} QueueAges(q: seq<OutBuf>, i: nat, b: OutBuf, isn: Number, stream: seq<Byte>, off: nat)
    requires QueueFrom(q, isn, stream, off) && i < |q|
    requires b.addr == q[i].addr && b.data == q[i].data && b.room == q[i].room
    ensures QueueFrom(q[i := b], isn, stream, off)
  {
    if i > 0 {
      QueueAges(q[1..], i - 1, b, isn, stream, off + |q[0].data|);
      assert q[i := b][1..] == q[1..][i - 1 := b];
    } else {
      assert q[i := b][1..] == q[1..];
    }
  }

  lemma {:induction false} QueueSlice(q: seq<OutBuf>, i: nat, isn: Number, stream: seq<Byte>, off: nat) returns (at: nat)
    requires QueueFrom(q, isn, stream, off) && i < |q|
    ensures q[i].room && SliceAt(q[i].addr, q[i].data, isn, stream, at)
  {
    if i == 0 {
      at := off;
    } else {
      at := QueueSlice(q[1..], i - 1, isn, stream, off + |q[0].data|);
    }
  }

  /** What an acknowledgement drops is a prefix, up to the first buffer it does not cover. */
  lemma {:induction false} DropsPrefix(q: seq<OutBuf>, number: Number) returns (k: nat)
    ensures k <= |q| && DropCovered(q, number) == q[k..]
    ensures forall i :: 0 <= i < k ==> number >= Add32(q[i].addr, |q[i].data|)
    ensures k < |q| ==> number < Add32(q[k].addr, |q[k].data|)
  {
    if q != [] && number >= Add32(q[0].addr, |q[0].data|) {
      k := DropsPrefix(q[1..], number);
      k := k + 1;
    } else {
      k := 0;
    }
  }

  lemma {:induction false} QueueDrops(q: seq<OutBuf>, number: Number, isn: Number, stream: seq<Byte>, off: nat)
    requires QueueFrom(q, isn, stream, off)
    ensures Queued(DropCovered(q, number), isn, stream) && off <= Kept(DropCovered(q, number), stream)
  {
    QueueMeasured(q, isn, stream, off);
    if q != [] && number >= Add32(q[0].addr, |q[0].data|) {
      QueueDrops(q[1..], number, isn, stream, off + |q[0].data|);
    }
  }

  // ---------- what an acknowledgement covers ----------

  /** How often the numbers have wrapped when the byte at offset i is reached. */
  function Turn(isn: Number, i: nat): nat {
    (isn + 1 + i) / MOD32
  }

  /** The comparison in the code is right exactly if no wrap lies between the two numbers. */
  lemma CoveredRight(isn: Number, k: nat, end: nat)
    requires k < MOD32 && end < MOD32
    ensures (Add32(isn, 1 + k) >= Add32(isn, 1 + end) <==> k >= end) <==> Turn(isn, k) == Turn(isn, end)
  {
  }

  /** What should be left of q, which starts at off, when the first k bytes are acknowledged. */
  function Unacked(q: seq<OutBuf>, off: nat, k: nat): seq<OutBuf> {
    if q != [] && off + |q[0].data| <= k then Unacked(q[1..], off + |q[0].data|, k) else q
  }

  /** No wrap between k and the end of any covered buffer or of the first one that is not. */
  predicate SameTurn(q: seq<OutBuf>, isn: Number, off: nat, k: nat) {
    q != [] ==>
      && Turn(isn, k) == Turn(isn, off + |q[0].data|)
      && (off + |q[0].data| <= k ==> SameTurn(q[1..], isn, off + |q[0].data|, k))
  }

  lemma {:induction false} DropsSome(q: seq<OutBuf>, number: Number, off: nat, k: nat)
    ensures |DropCovered(q, number)| <= |q| && |Unacked(q, off, k)| <= |q|
  {
    if q != [] {
      DropsSome(q[1..], number, off + |q[0].data|, k);
    }
  }

  /** The loop over outq, for a number that stands for the first k bytes, drops the buffers it covers and
      no others, exactly if the sequence numbers do not wrap among them. */
  lemma {:induction false} LoopDropsExactly(q: seq<OutBuf>, isn: Number, stream: seq<Byte>, off: nat, k: nat)
    requires |stream| < MOD32 && QueueFrom(q, isn, stream, off) && k <= |stream|
    ensures DropCovered(q, Add32(isn, 1 + k)) == Unacked(q, off, k) <==> SameTurn(q, isn, off, k)
  {
    if q != [] {
      var end := off + |q[0].data|;
      NextNumber(isn, off, |q[0].data|);
      CoveredRight(isn, k, end);
      DropsSome(q[1..], Add32(isn, 1 + k), end, k);
      if end <= k {
        LoopDropsExactly(q[1..], isn, stream, end, k);
      }
    }
  }

  /** A stream that ends before the numbers wrap is safe. */
  lemma {:induction false} NoWrap(q: seq<OutBuf>, isn: Number, stream: seq<Byte>, off: nat, k: nat)
    requires isn + 1 + |stream| < MOD32 && QueueFrom(q, isn, stream, off) && k <= |stream|
    ensures SameTurn(q, isn, off, k)
  {
    if q != [] {
      NoWrap(q[1..], isn, stream, off + |q[0].data|, k);
    }
  }

  /** What is left then starts no later than the first unacknowledged byte, and its first buffer reaches past it. */
  lemma {:induction false} UnackedFrom(q: seq<OutBuf>, isn: Number, stream: seq<Byte>, off: nat, k: nat)
    requires QueueFrom(q, isn, stream, off) && k <= |stream|
    ensures var rest := Unacked(q, off, k);
            && Queued(rest, isn, stream) && off <= Kept(rest, stream)
            && (Kept(rest, stream) <= k || Kept(rest, stream) == off)
            && (rest != [] ==> k < Kept(rest, stream) + |rest[0].data|)
  {
    QueueMeasured(q, isn, stream, off);
    if q != [] && off + |q[0].data| <= k {
      UnackedFrom(q[1..], isn, stream, off + |q[0].data|, k);
    }
  }

  function Bytes(q: seq<OutBuf>): seq<Byte> {
    if q == [] then [] else q[0].data + Bytes(q[1..])
  }

  lemma {:induction false} QueueHolds(q: seq<OutBuf>, isn: Number, stream: seq<Byte>, off: nat)
    requires QueueFrom(q, isn, stream, off)
    ensures off <= |stream| && Bytes(q) == stream[off..]
  {
    if q != [] {
      QueueHolds(q[1..], isn, stream, off + |q[0].data|);
    }
  }
}
