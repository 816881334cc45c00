/** What every event keeps of one end of a connection. */
module TcpEnd {
  import opened Wrappers
  import opened Tcp
  import opened TcpStream

  /** The numbers of the sending side: where the handshake stands, and later the end of the stream. */
  ghost predicate Numbers(p: Pcb, isn: Number) {
    && (p.state.SynSent? ==> p.accepted == [] && p.outq == [] && p.txWaiting && p.flags == SYN)
    && (p.state.SynSent? ==> p.ackedLseq == isn && p.lseq == Add32(isn, 1))
    && (p.state.SynGet? ==> p.accepted == [] && p.ackedLseq == isn)
    && (p.state.Established? || p.state.CloseWait? ==> p.lseq == Add32(isn, 1 + |p.accepted|) && p.txTimeout == 0)
    && (p.state.FinWait2? ==> p.lclose)
  }

  ghost predicate Wire(p: Pcb, isn: Number) {
    AllGenuine(p.sent, isn, p.accepted) && Queued(p.outq, isn, p.accepted)
  }

  /** The sending side of an end with initial number isn. */
  ghost predicate Tx(p: Pcb, isn: Number) {
    Wire(p, isn) && Numbers(p, isn)
  }

  /** The receiving side, where the peer started at irs and has stream to send: what was handed on is
      a prefix of it, and while more may come rseq is the number of the next byte. */
  ghost predicate Rx(p: Pcb, irs: Number, stream: seq<Byte>) {
    && p.delivered <= stream
    && (p.state.Established? ==> p.rseq == Add32(irs, 1 + |p.delivered|))
    && (p.state.SynGet? ==> p.delivered == [] && p.rseq == Add32(irs, 1))
    && (p.state.SynSent? ==> p.delivered == [])
  }

  // ---------- sending ----------

  lemma WireSendFlags(p: Pcb, c: Config, flags: Flags, ok: bool, isn: Number)
    requires Wire(p, isn)
    ensures Wire(SendFlags(p, c, flags, ok), isn)
  {
    hide AllGenuine;
    hide Queued;
    GenuineMore(p.sent, Head(p, flags, []), isn, p.accepted);
  }

  /** A queued buffer sent again is still a slice. */
  lemma WireResend(p: Pcb, i: nat, b: OutBuf, isn: Number)
    requires Wire(p, isn) && i < |p.outq|
    requires b.addr == p.outq[i].addr && b.data == p.outq[i].data && b.room == p.outq[i].room
    ensures Wire(p.(outq := p.outq[i := b]), isn)
    ensures Wire(Resend(p.(outq := p.outq[i := b]), p.outq[i]), isn)
  {
    hide AllGenuine;
    hide SliceAt;
    var off := Kept(p.outq, p.accepted);
    QueueAges(p.outq, i, b, isn, p.accepted, off);
    QueueMeasured(p.outq[i := b], isn, p.accepted, off);
    var at := QueueSlice(p.outq, i, isn, p.accepted, off);
    var s := Head(p.(outq := p.outq[i := b], lseq := p.outq[i].addr), PSH, p.outq[i].data);
    GenuineSlice(s, isn, p.accepted, at);
    GenuineMore(p.sent, s, isn, p.accepted);
  }

  lemma WireDrops(p: Pcb, number: Number, isn: Number)
    requires Wire(p, isn)
    ensures Wire(p.(outq := DropCovered(p.outq, number)), isn) && Wire(p.(outq := []), isn)
  {
    hide AllGenuine;
    QueueDrops(p.outq, number, isn, p.accepted, Kept(p.outq, p.accepted));
  }

  // ---------- input ----------

  lemma TakeDataKeeps(p: Pcb, c: Config, s: Segment, ok: bool, isn: Number, irs: Number, stream: seq<Byte>)
    requires |stream| < MOD32 && Genuine(s, irs, stream) && Wire(p, isn)
    requires p.delivered <= stream && p.rseq == Add32(irs, 1 + |p.delivered|)
    ensures var q := TakeData(p, c, s, ok);
            Wire(q, isn) && p.delivered <= q.delivered <= stream && q.rseq == Add32(irs, 1 + |q.delivered|)
  {
    hide Wire;
    if s.data != [] && p.rseq == s.number {
      var off: nat :| SliceAt(s.number, s.data, irs, stream, off);
      OffsetUnique(irs, off, |p.delivered|);
      assert p.delivered + s.data == stream[..off + |s.data|];
      NextNumber(irs, |p.delivered|, |s.data|);
      WireSame(p, DataInput(p, c, s.data), isn);
    } else if s.data != [] {
      WireSendFlags(p, c, ACK, ok, isn);
    }
  }

  lemma WireSame(p: Pcb, q: Pcb, isn: Number)
    requires Wire(p, isn) && q.sent == p.sent && q.outq == p.outq && q.accepted == p.accepted
    ensures Wire(q, isn)
  {
  }

  lemma WireTakeAck(p: Pcb, s: Segment, isn: Number)
    requires Wire(p, isn)
    ensures Wire(TakeAck(p, s), isn)
  {
    hide AllGenuine;
    hide Queued;
    WireDrops(p, s.ackNumber, isn);
  }

  lemma WireTakeFin(p: Pcb, c: Config, s: Segment, ok: bool, isn: Number)
    requires Wire(p, isn)
    ensures Wire(RemoteClose(p, c, s, ok), isn) && Wire(TakeFin(p, c, s, ok), isn)
  {
    hide AllGenuine;
    hide Queued;
    WireSendFlags(p.(rclose := true, rseq := Add32(s.number, 1)), c, ACK, ok, isn);
  }

  lemma WireDropData(p: Pcb, c: Config, s: Segment, ok: bool, isn: Number)
    requires Wire(p, isn)
    ensures Wire(DropData(p, c, s, ok), isn)
  {
    hide AllGenuine;
    hide Queued;
    WireSendFlags(if p.rseq == s.number then p.(rseq := Add32(p.rseq, |s.data|)) else p, c, ACK, ok, isn);
  }

  /** Both sides at once, and nothing taken back. */
  ghost predicate Sides(p: Pcb, q: Pcb, isn: Number, irs: Number, stream: seq<Byte>) {
    Tx(q, isn) && Rx(q, irs, stream) && p.delivered <= q.delivered && p.accepted <= q.accepted
  }

  /** The acknowledgement and the FIN of a segment, in a state that looks at both. */
  lemma AckAndFinKeep(p: Pcb, c: Config, s: Segment, ok2: bool, isn: Number, irs: Number, stream: seq<Byte>)
    requires Wire(p, isn) && p.lseq == Add32(isn, 1 + |p.accepted|) && p.txTimeout == 0
    requires Rx(p, irs, stream) && (p.state.Established? || p.state.CloseWait?)
    ensures Sides(p, TakeFin(TakeAck(p, s), c, s, ok2), isn, irs, stream)
  {
    hide Wire;
    hide TakeAck;
    hide TakeFin;
    WireTakeAck(p, s, isn);
    WireTakeFin(TakeAck(p, s), c, s, ok2, isn);
  }

  lemma SidesAfter(p: Pcb, q: Pcb, r: Pcb, isn: Number, irs: Number, stream: seq<Byte>)
    requires Sides(q, r, isn, irs, stream) && p.delivered <= q.delivered && p.accepted == q.accepted
    ensures Sides(p, r, isn, irs, stream)
  {
  }

  lemma SidesSelf(p: Pcb, isn: Number, irs: Number, stream: seq<Byte>)
    requires Tx(p, isn) && Rx(p, irs, stream)
    ensures Sides(p, p, isn, irs, stream)
  {
  }

  lemma EstablishedKeeps(p: Pcb, c: Config, s: Segment, ok: bool, ok2: bool, isn: Number, irs: Number, stream: seq<Byte>)
    requires |stream| < MOD32 && Genuine(s, irs, stream) && Tx(p, isn) && Rx(p, irs, stream) && p.state.Established?
    ensures Sides(p, InEstablished(p, c, s, ok, ok2), isn, irs, stream)
  {
    hide Wire;
    hide Genuine;
    hide TakeData;
    hide TakeAck;
    hide TakeFin;
    hide Sides;
    hide Add32;
    TakeDataKeeps(p, c, s, ok, isn, irs, stream);
    var q := TakeData(p, c, s, ok);
    var r := if s.data != [] && p.rseq == s.number then q.(rxWaiting := false) else q;
    WireSame(q, r, isn);
    AckAndFinKeep(r, c, s, ok2, isn, irs, stream);
    SidesAfter(p, r, InEstablished(p, c, s, ok, ok2), isn, irs, stream);
  }

  lemma SynSentKeeps(p: Pcb, c: Config, s: Segment, ok: bool, isn: Number, irs: Number, stream: seq<Byte>)
    requires Tx(p, isn) && Rx(p, irs, stream) && p.state.SynSent? && s.flags != SYN && s.number == irs
    ensures Sides(p, InSynSent(p, c, s, ok), isn, irs, stream)
  {
    hide Wire;
    hide SendFlags;
    var q := p.(txTimeout := 0, rseq := Add32(s.number, 1), ackedLseq := p.lseq);
    WireSame(p, q, isn);
    WireSendFlags(q, c, ACK, ok, isn);
    WireSame(SendFlags(q, c, ACK, ok), Connected(SendFlags(q, c, ACK, ok)), isn);
  }

  lemma SynGetKeeps(p: Pcb, c: Config, s: Segment, ok: bool, isn: Number, irs: Number, stream: seq<Byte>)
    requires |stream| < MOD32 && Genuine(s, irs, stream) && Tx(p, isn) && Rx(p, irs, stream) && p.state.SynGet?
    ensures Sides(p, InSynGet(p, c, s, ok), isn, irs, stream)
  {
    hide Wire;
    hide SendFlags;
    hide TakeData;
    hide Genuine;
    if s.flags == SYN {
      var q := p.(lseq := p.ackedLseq, txRetry := 3);
      WireSame(p, q, isn);
      WireSendFlags(q, c, SYN_ACK, ok, isn);
      WireSame(SendFlags(q, c, SYN_ACK, ok), SendSynAck(p.(lseq := p.ackedLseq), c, ok), isn);
    } else if s.flags.ack && s.ackNumber == Add32(p.ackedLseq, 1) {
      var q := p.(txTimeout := 0, ackedLseq := s.ackNumber, lseq := s.ackNumber);
      WireSame(p, q, isn);
      TakeDataKeeps(q, c, s, ok, isn, irs, stream);
      WireSame(TakeData(q, c, s, ok), Connected(TakeData(q, c, s, ok)), isn);
    } else if s.flags.fin {
      var q := p.(txRetry := 3);
      WireSame(p, q, isn);
      WireSendFlags(q, c, FIN, ok, isn);
      WireSame(SendFlags(q, c, FIN, ok), InSynGet(p, c, s, ok), isn);
    }
  }

  lemma FinWaitKeeps(p: Pcb, c: Config, s: Segment, ok: bool, isn: Number, irs: Number, stream: seq<Byte>)
    requires Tx(p, isn) && Rx(p, irs, stream)
    ensures p.state.FinWait1? ==> Sides(p, InFinWait1(p, c, s, ok), isn, irs, stream)
    ensures p.state.FinWait2? ==> Sides(p, InFinWait2(p, c, s, ok), isn, irs, stream)
  {
    hide Wire;
    hide RemoteClose;
    hide DropData;
    var q := p.(lclose := true, txTimeout := 0, ackedLseq := p.lseq);
    WireSame(p, q, isn);
    WireSame(p, q.(state := FinWait2), isn);
    WireTakeFin(p, c, s, ok, isn);
    WireTakeFin(q, c, s, ok, isn);
    WireDropData(p, c, s, ok, isn);
    WireDropData(q.(state := FinWait2), c, s, ok, isn);
  }

  lemma ClosingKeeps(p: Pcb, c: Config, s: Segment, ok: bool, isn: Number, irs: Number, stream: seq<Byte>)
    requires Tx(p, isn) && Rx(p, irs, stream)
    ensures p.state.LastAck? ==> Sides(p, InLastAck(p, c, s, ok), isn, irs, stream)
    ensures p.state.Closed? ==> Sides(p, SendFlags(p, c, RST, ok), isn, irs, stream)
    ensures Sides(p, Reset(p), isn, irs, stream)
  {
    hide Wire;
    hide SendFlags;
    WireSendFlags(p, c, ACK, ok, isn);
    WireSendFlags(p, c, RST, ok, isn);
    WireDrops(p, 0, isn);
    WireSame(p.(outq := []), Reset(p), isn);
    WireSame(if s.flags.fin then SendFlags(p, c, ACK, ok) else p, InLastAck(p, c, s, ok), isn);
  }

  /** What must hold of a segment for the end that gets it: it is one the peer may send, and in
      SYN_SENT it is not a bare SYN and has the peer's initial number. */
  ghost predicate Proper(p: Pcb, s: Segment, irs: Number, stream: seq<Byte>) {
    Genuine(s, irs, stream) && (p.state.SynSent? ==> s.flags.rst || (s.flags != SYN && s.number == irs))
  }

  lemma InputKeeps(p0: Pcb, c: Config, s: Segment, ok: bool, ok2: bool, isn: Number, irs: Number, stream: seq<Byte>)
    requires |stream| < MOD32 && Proper(p0, s, irs, stream) && Tx(p0, isn) && Rx(p0, irs, stream)
    ensures Sides(p0, Input(p0, c, s, ok, ok2), isn, irs, stream)
  {
    hide InEstablished;
    hide TakeAck;
    hide TakeFin;
    hide InSynSent;
    hide InSynGet;
    hide InFinWait1;
    hide InFinWait2;
    hide InLastAck;
    hide SendFlags;
    hide Reset;
    hide Genuine;
    hide Wire;
    hide Sides;
    var p := p0.(rwnd := s.window);
    WireSame(p0, p, isn);
    ClosingKeeps(p, c, s, ok, isn, irs, stream);
    if !s.flags.rst {
      match p.state
      case SynSent => SynSentKeeps(p, c, s, ok, isn, irs, stream);
      case SynGet => SynGetKeeps(p, c, s, ok, isn, irs, stream);
      case Established => EstablishedKeeps(p, c, s, ok, ok2, isn, irs, stream);
      case CloseWait => AckAndFinKeep(p, c, s, ok2, isn, irs, stream);
      case FinWait1 => FinWaitKeeps(p, c, s, ok, isn, irs, stream);
      case FinWait2 => FinWaitKeeps(p, c, s, ok, isn, irs, stream);
      case _ => SidesSelf(p, isn, irs, stream);
    }
    SidesAfter(p0, p, Input(p0, c, s, ok, ok2), isn, irs, stream);
  }

  // ---------- the tick ----------

  /** Nothing that the sides depend on moved; the wire is looked at apart. */
  ghost predicate Still(p: Pcb, q: Pcb) {
    SenderKept(p, q) && q.state == p.state && q.rseq == p.rseq && q.delivered == p.delivered && q.txWaiting == p.txWaiting
  }

  lemma StillKeeps(p: Pcb, q: Pcb, isn: Number, irs: Number, stream: seq<Byte>)
    requires Tx(p, isn) && Rx(p, irs, stream) && Still(p, q) && Wire(q, isn)
    ensures Sides(p, q, isn, irs, stream)
  {
    hide Wire;
  }

  /** The SYN or FIN is sent once more. */
  lemma RetryKeeps(p: Pcb, c: Config, ok: bool, isn: Number, irs: Number, stream: seq<Byte>)
    requires Tx(p, isn) && Rx(p, irs, stream) && p.txTimeout == 1 && Down(p.txRetry, MOD32) != 0
    ensures Sides(p, TickHandshake(p, c, ok).0, isn, irs, stream)
  {
    hide Wire;
    hide SendFlags;
    var q := p.(txTimeout := 0, txRetry := Down(p.txRetry, MOD32), lseq := p.ackedLseq);
    WireSame(p, q, isn);
    WireSendFlags(q, c, q.flags, ok, isn);
    WireSame(SendFlags(q, c, q.flags, ok), TickHandshake(p, c, ok).0, isn);
  }

  lemma HandshakeKeeps(p: Pcb, c: Config, ok: bool, isn: Number, irs: Number, stream: seq<Byte>)
    requires Tx(p, isn) && Rx(p, irs, stream)
    ensures Sides(p, TickHandshake(p, c, ok).0, isn, irs, stream)
  {
    hide Wire;
    hide SendFlags;
    if p.txTimeout == 1 && Down(p.txRetry, MOD32) != 0 {
      RetryKeeps(p, c, ok, isn, irs, stream);
    } else {
      WireSame(p, TickHandshake(p, c, ok).0, isn);
    }
  }

  lemma GiveUpKeeps(p: Pcb, c: Config, ok: bool, isn: Number, irs: Number, stream: seq<Byte>)
    requires Tx(p, isn) && Rx(p, irs, stream)
    ensures Sides(p, GiveUp(p, c, ok), isn, irs, stream)
  {
    hide Wire;
    hide SendFlags;
    WireDrops(p, 0, isn);
    var q := p.(outq := [], lseq := p.ackedLseq, txRetry := 3);
    WireSame(p.(outq := []), q, isn);
    WireSendFlags(q, c, FIN, ok, isn);
    WireSame(SendFlags(q, c, FIN, ok), GiveUp(p, c, ok), isn);
  }

  lemma ResendKeeps(p: Pcb, i: nat, b: OutBuf, isn: Number, irs: Number, stream: seq<Byte>)
    requires Tx(p, isn) && Rx(p, irs, stream) && i < |p.outq|
    requires b.addr == p.outq[i].addr && b.data == p.outq[i].data && b.room == p.outq[i].room
    requires !p.state.SynSent?
    ensures Sides(p, p.(outq := p.outq[i := b]), isn, irs, stream)
    ensures Sides(p, Resend(p.(outq := p.outq[i := b]), p.outq[i]), isn, irs, stream)
  {
    hide Wire;
    hide Resend;
    WireResend(p, i, b, isn);
  }

  lemma {:induction false} TickOutKeeps(p: Pcb, c: Config, i: nat, ok: bool, isn: Number, irs: Number, stream: seq<Byte>)
    requires Tx(p, isn) && Rx(p, irs, stream)
    ensures Sides(p, TickOut(p, c, i, ok).0, isn, irs, stream)
    decreases |p.outq| - i
  {
    hide Wire;
    hide Rx;
    hide Resend;
    hide GiveUp;
    SidesSelf(p, isn, irs, stream);
    GiveUpKeeps(p, c, ok, isn, irs, stream);
    if i < |p.outq| {
      assert !p.state.SynSent?;
      hide Tx;
      var b := p.outq[i];
      var aged := b.(ttl := Down(b.ttl, MOD16));
      var again := b.(ttl := c.txTimeoutMs % MOD16, retry := if b.retry == 0 then 0 else b.retry - 1);
      ResendKeeps(p, i, aged, isn, irs, stream);
      ResendKeeps(p, i, again, isn, irs, stream);
      if aged.ttl != 0 {
        TickOutKeeps(p.(outq := p.outq[i := aged]), c, i + 1, ok, isn, irs, stream);
      } else if (b.retry == 0 || b.retry - 1 != 0) && !p.state.CloseWait? {
        TickOutKeeps(Resend(p.(outq := p.outq[i := again]), b), c, i + 1, ok, isn, irs, stream);
      }
    }
  }

  lemma DelayedAckKeeps(p: Pcb, c: Config, ok: bool, isn: Number, irs: Number, stream: seq<Byte>)
    requires Tx(p, isn) && Rx(p, irs, stream)
    ensures Sides(p, DelayedAck(p, c, ok), isn, irs, stream)
  {
    hide Wire;
    hide SendFlags;
    hide Sides;
    var q := p.(ackTick := Down(p.ackTick, MOD32));
    WireSame(p, q, isn);
    WireSendFlags(q, c, ACK, ok, isn);
    WireSame(SendFlags(q, c, ACK, ok), SendFlags(q, c, ACK, ok).(ackTick := TCP_ATO), isn);
    StillKeeps(p, DelayedAck(p, c, ok), isn, irs, stream);
  }

  lemma RxTimerKeeps(p: Pcb, isn: Number, irs: Number, stream: seq<Byte>)
    requires Tx(p, isn) && Rx(p, irs, stream)
    ensures Sides(p, RxTimer(p), isn, irs, stream)
  {
    hide Sides;
    hide Wire;
    WireSame(p, RxTimer(p), isn);
    StillKeeps(p, RxTimer(p), isn, irs, stream);
  }

  /** A step after a step. */
  lemma SidesChain(p: Pcb, q: Pcb, r: Pcb, isn: Number, irs: Number, stream: seq<Byte>)
    requires Sides(p, q, isn, irs, stream) && Sides(q, r, isn, irs, stream)
    ensures Sides(p, r, isn, irs, stream)
  {
    hide Tx;
    hide Rx;
  }

  lemma SidesAre(p: Pcb, q: Pcb, isn: Number, irs: Number, stream: seq<Byte>)
    requires Sides(p, q, isn, irs, stream)
    ensures Tx(q, isn) && Rx(q, irs, stream)
  {
    hide Tx;
    hide Rx;
  }

  lemma TickKeeps(p: Pcb, c: Config, ok: bool, ok2: bool, ok3: bool, isn: Number, irs: Number, stream: seq<Byte>)
    requires Tx(p, isn) && Rx(p, irs, stream)
    ensures Sides(p, Tick(p, c, ok, ok2, ok3), isn, irs, stream)
  {
    hide Tx;
    hide Rx;
    hide Sides;
    hide TickHandshake;
    hide RxTimer;
    hide TickOut;
    hide DelayedAck;
    HandshakeKeeps(p, c, ok, isn, irs, stream);
    var p1 := TickHandshake(p, c, ok).0;
    SidesAre(p, p1, isn, irs, stream);
    RxTimerKeeps(p1, isn, irs, stream);
    SidesChain(p, p1, RxTimer(p1), isn, irs, stream);
    SidesAre(p1, RxTimer(p1), isn, irs, stream);
    TickOutKeeps(RxTimer(p1), c, 0, ok2, isn, irs, stream);
    var p3 := TickOut(RxTimer(p1), c, 0, ok2).0;
    SidesChain(p, RxTimer(p1), p3, isn, irs, stream);
    SidesAre(p, p3, isn, irs, stream);
    DelayedAckKeeps(p3, c, ok3, isn, irs, stream);
    SidesChain(p, p3, DelayedAck(p3, c, ok3), isn, irs, stream);
  }

  // ---------- the application ----------

  /** A buffer accepted for sending is the next piece of the stream, on the wire and in outq. */
  lemma WireSend(p: Pcb, b: OutBuf, isn: Number)
    requires Wire(p, isn) && b.room && b.addr == p.lseq == Add32(isn, 1 + |p.accepted|)
    ensures Wire(SendDo(p.(outq := p.outq + [b], accepted := p.accepted + b.data), PSH, b.data), isn)
  {
    hide AllGenuine;
    hide QueueFrom;
    var off := Kept(p.outq, p.accepted);
    var more := p.accepted + b.data;
    QueueAppends(p.outq, b, isn, p.accepted, off);
    QueueMeasured(p.outq + [b], isn, more, off);
    GenuineGrows(p.sent, isn, p.accepted, b.data);
    assert more[|p.accepted|..|p.accepted| + |b.data|] == b.data;
    var s := Head(p.(outq := p.outq + [b], accepted := more), PSH, b.data);
    GenuineSlice(s, isn, more, |p.accepted|);
    hide SliceAt;
    GenuineMore(p.sent, s, isn, more);
  }

  lemma SendKeeps(p: Pcb, c: Config, data: seq<Byte>, routed: bool, stale: Number, isn: Number, irs: Number, stream: seq<Byte>)
    requires Tx(p, isn) && Rx(p, irs, stream) && (p.state.Established? || p.state.CloseWait?)
    ensures Sides(p, AsyncSend(p, c, data, routed, true, stale).0, isn, irs, stream)
  {
    hide Wire;
    hide SendDo;
    hide Add32;
    WireSend(p, OutBuf(p.lseq, data, c.txTimeoutMs % MOD16, TCP_RETRY, true), isn);
    NextNumber(isn, |p.accepted|, |data|);
  }

  lemma CloseKeeps(p: Pcb, c: Config, ok: bool, isn: Number, irs: Number, stream: seq<Byte>)
    requires Tx(p, isn) && Rx(p, irs, stream)
    ensures Sides(p, Close(p, c, ok), isn, irs, stream)
  {
    hide Wire;
    hide SendFlags;
    WireSame(p, p.(txWaiting := true), isn);
    var q := p.(lseq := p.ackedLseq, txRetry := 3);
    WireSame(p, q, isn);
    WireSendFlags(q, c, FIN, ok, isn);
    WireSame(SendFlags(q, c, FIN, ok), Close(p, c, ok).(sent := SendFlags(q, c, FIN, ok).sent), isn);
  }

  // ---------- exactly when ----------

  /** What an acknowledgement of the first k bytes meets in outq, which starts at off: a repeated number,
      which the code ignores, covers nothing; another one has no wrap among the buffers it is compared with. */
  predicate Unambiguous(p: Pcb, isn: Number, off: nat, k: nat) {
    if Add32(isn, 1 + k) == p.ackedLseq then p.outq == [] || k < off + |p.outq[0].data|
    else SameTurn(p.outq, isn, off, k)
  }

  lemma OutqAfterInput(p: Pcb, c: Config, s: Segment, ok: bool, ok2: bool)
    requires (p.state.Established? || p.state.CloseWait?) && !s.flags.rst
    ensures Input(p, c, s, ok, ok2).outq ==
            if s.flags.ack && s.ackNumber != p.ackedLseq then DropCovered(p.outq, s.ackNumber) else p.outq
  {
    hide TakeData;
    hide TakeAck;
    hide TakeFin;
    hide DropCovered;
  }

  /** A segment that acknowledges the first k bytes takes out of outq the buffers it covers and no others,
      exactly if it is unambiguous. */
  lemma AckDropsExactly(p: Pcb, c: Config, s: Segment, ok: bool, ok2: bool, isn: Number, k: nat)
    requires Wire(p, isn) && |p.accepted| < MOD32 && (p.state.Established? || p.state.CloseWait?)
    requires !s.flags.rst && s.flags.ack && k <= |p.accepted| && s.ackNumber == Add32(isn, 1 + k)
    ensures var off := Kept(p.outq, p.accepted);
            Input(p, c, s, ok, ok2).outq == Unacked(p.outq, off, k) <==> Unambiguous(p, isn, off, k)
  {
    hide AllGenuine;
    hide Input;
    hide SameTurn;
    var off := Kept(p.outq, p.accepted);
    OutqAfterInput(p, c, s, ok, ok2);
    LoopDropsExactly(p.outq, isn, p.accepted, off, k);
    DropsFirst(p.outq, off, k);
    hide Unacked;
    hide DropCovered;
    hide QueueFrom;
  }

  lemma DropsFirst(q: seq<OutBuf>, off: nat, k: nat)
    ensures Unacked(q, off, k) == q <==> q == [] || k < off + |q[0].data|
  {
    if q != [] {
      DropsSome(q[1..], 0, off + |q[0].data|, k);
    }
  }

  /** When the timer of a SYN or FIN runs out with retries left, a segment goes out under the acknowledged
      number. It carries a SYN, or a FIN, exactly if the flags held at that moment do, and only then does
      the timer run again. What the flags are, over whole runs, is the matter of TcpRetry. */
  lemma ResentExactly(q: Pcb, c: Config)
    requires q.txTimeout == 1 && q.txRetry > 1
    ensures var r := TickHandshake(q, c, true).0;
            && |r.sent| == |q.sent| + 1 && r.sent[..|q.sent|] == q.sent && r.sent[|q.sent|].number == q.ackedLseq
            && (r.sent[|q.sent|].flags.syn <==> q.flags.syn) && (r.sent[|q.sent|].flags.fin <==> q.flags.fin)
            && r.txTimeout == if q.flags.syn || q.flags.fin then c.txTimeoutMs else 0
  {
    hide SendFlags;
  }

  /** A SYN or FIN is remembered exactly if its first attempt finds a buffer, or the flags were the same before. */
  lemma RememberedExactly(p: Pcb, c: Config, flags: Flags, ok: bool)
    requires flags.syn || flags.fin
    ensures SendFlags(p, c, flags, ok).flags == flags <==> ok || p.flags == flags
  {
  }

  /** So a client whose first SYN found no buffer never sends one: the one retry has no SYN, the timer is off
      after it, and lseq falls back to the SYN's number. */
  lemma FirstSynResent(p: Pcb, c: Config, tsn: Number, ok: bool)
    requires Blank(p)
    ensures var q := Connect(p, c, tsn, ok).(txTimeout := 1);
            var r := TickHandshake(q, c, true).0;
            && |r.sent| == |q.sent| + 1 && r.sent[|q.sent|].number == tsn
            && (r.sent[|q.sent|].flags.syn <==> ok) && r.lseq == (if ok then Add32(tsn, 1) else tsn)
            && (!ok ==> r.txTimeout == 0 && q.sent == [])
  {
    hide SendFlags;
  }

  /** The time of a buffer is up with this tick. */
  predicate Expires(b: OutBuf) {
    Down(b.ttl, MOD16) == 0
  }

  /** Nothing may be sent again any more. */
  predicate Final(p: Pcb, j: nat)
    requires j < |p.outq|
  {
    Expires(p.outq[j]) && (p.outq[j].retry == 1 || p.state.CloseWait?)
  }

  /** The walk over outq gives up exactly if some buffer's time is up and its last retry is spent, or the
      peer has closed: a retry count of 0 is never spent. */
  lemma {:induction false} WalkGivesUp(p: Pcb, c: Config, i: nat, ok: bool)
    ensures TickOut(p, c, i, ok).1 <==> exists j :: i <= j < |p.outq| && Final(p, j)
    decreases |p.outq| - i
  {
    hide Resend;
    hide GiveUp;
    if i < |p.outq| {
      var b := p.outq[i];
      var aged := b.(ttl := Down(b.ttl, MOD16));
      var again := b.(ttl := c.txTimeoutMs % MOD16, retry := if b.retry == 0 then 0 else b.retry - 1);
      if Final(p, i) {
      } else {
        var q := if aged.ttl != 0 then p.(outq := p.outq[i := aged]) else Resend(p.(outq := p.outq[i := again]), b);
        WalkGivesUp(q, c, i + 1, ok);
        assert forall j :: i < j < |p.outq| ==> Final(q, j) == Final(p, j);
      }
    }
  }

  /** The buffers whose time is up and that have room for a header, in order. */
  function Again(q: seq<OutBuf>): seq<OutBuf> {
    if q == [] then [] else (if Expires(q[0]) && q[0].room then [q[0]] else []) + Again(q[1..])
  }

  /** What is sent again: each of these, under its own number. */
  ghost predicate Repeats(more: seq<Segment>, q: seq<OutBuf>) {
    |more| == |q| && forall k :: 0 <= k < |q| ==> more[k].number == q[k].addr && more[k].data == q[k].data
  }

  lemma RepeatsOne(s: Segment, more: seq<Segment>, b: OutBuf, q: seq<OutBuf>)
    requires Repeats(more, q) && s.number == b.addr && s.data == b.data
    ensures Repeats([s] + more, [b] + q)
  {
  }

  /** What the delayed acknowledgement depends on: anything sent acknowledges up to rseq. */
  predicate AckState(p: Pcb, q: Pcb, sends: bool) {
    && q.rseq == p.rseq && q.ackTick == p.ackTick && q.lseq == p.lseq
    && q.ackedRseq == if sends then p.rseq else p.ackedRseq
  }

  /** Buffer i is aged, or sent again. */
  function Aged(p: Pcb, c: Config, i: nat): (q: Pcb)
    requires i < |p.outq|
    ensures |q.outq| == |p.outq| && q.outq[i + 1..] == p.outq[i + 1..]
    ensures q.sent == if Expires(p.outq[i]) && p.outq[i].room
                      then p.sent + [Head(q.(lseq := p.outq[i].addr), PSH, p.outq[i].data)] else p.sent
    ensures AckState(p, q, Expires(p.outq[i]) && p.outq[i].room)
  {
    var b := p.outq[i];
    var aged := b.(ttl := Down(b.ttl, MOD16));
    var again := b.(ttl := c.txTimeoutMs % MOD16, retry := if b.retry == 0 then 0 else b.retry - 1);
    if Expires(b) then Resend(p.(outq := p.outq[i := again]), b) else p.(outq := p.outq[i := aged])
  }

  lemma NextBuffer(p: Pcb, c: Config, i: nat, ok: bool)
    requires i < |p.outq| && !TickOut(p, c, i, ok).1
    ensures TickOut(p, c, i, ok) == TickOut(Aged(p, c, i), c, i + 1, ok)
  {
    hide Resend;
    hide GiveUp;
  }

  lemma AgainFirst(q: seq<OutBuf>)
    requires q != []
    ensures Again(q) == (if Expires(q[0]) && q[0].room then [q[0]] else []) + Again(q[1..])
  {
  }

  /** A walk that does not give up sends again exactly the buffers whose time is up, each once and in order. */
  lemma {:induction false} WalkResends(p: Pcb, c: Config, i: nat, ok: bool) returns (more: seq<Segment>)
    requires i <= |p.outq| && !TickOut(p, c, i, ok).1
    ensures TickOut(p, c, i, ok).0.sent == p.sent + more && Repeats(more, Again(p.outq[i..]))
    ensures AckState(p, TickOut(p, c, i, ok).0, more != [])
    decreases |p.outq| - i
  {
    more := [];
    if i < |p.outq| {
      NextBuffer(p, c, i, ok);
      AgainFirst(p.outq[i..]);
      hide TickOut;
      hide Repeats;
      hide Aged;
      hide Again;
      var q, b := Aged(p, c, i), p.outq[i];
      assert p.outq[i..][1..] == p.outq[i + 1..];
      more := WalkResends(q, c, i + 1, ok);
      if Expires(b) && b.room {
        var s := Head(q.(lseq := b.addr), PSH, b.data);
        RepeatsOne(s, more, b, Again(p.outq[i + 1..]));
        assert p.sent + [s] + more == p.sent + ([s] + more);
        more := [s] + more;
      } else {
        assert [] + Again(p.outq[i + 1..]) == Again(p.outq[i + 1..]);
      }
    }
  }

  /** A tick gets to outq at all: neither the handshake is given up in it nor does a receiver's time run out. */
  predicate Walks(p: Pcb) {
    !(p.txTimeout == 1 && Down(p.txRetry, MOD32) == 0) && p.rxTimeout != 1
  }

  lemma {:induction false} WalkLength(p: Pcb, c: Config, i: nat, ok: bool)
    requires i <= |p.outq|
    ensures var (q, done) := TickOut(p, c, i, ok); if done then q.outq == [] && p.outq != [] else |q.outq| == |p.outq|
    decreases |p.outq| - i
  {
    if i < |p.outq| {
      if TickOut(p, c, i, ok).1 {
        WalkGivenUp(p, c, i, ok);
      } else {
        NextBuffer(p, c, i, ok);
        var q := Aged(p, c, i);
        hide TickOut;
        hide Aged;
        WalkLength(q, c, i + 1, ok);
      }
    }
  }

  lemma {:induction false} WalkGivenUp(p: Pcb, c: Config, i: nat, ok: bool)
    requires TickOut(p, c, i, ok).1
    ensures TickOut(p, c, i, ok).0.outq == []
    decreases |p.outq| - i
  {
    hide Resend;
    hide SendFlags;
    if i < |p.outq| {
      var b := p.outq[i];
      var aged := b.(ttl := Down(b.ttl, MOD16));
      var again := b.(ttl := c.txTimeoutMs % MOD16, retry := if b.retry == 0 then 0 else b.retry - 1);
      if aged.ttl != 0 {
        WalkGivenUp(p.(outq := p.outq[i := aged]), c, i + 1, ok);
      } else if (b.retry == 0 || b.retry - 1 != 0) && !p.state.CloseWait? {
        WalkGivenUp(Resend(p.(outq := p.outq[i := again]), b), c, i + 1, ok);
      }
    }
  }

  lemma FlagsAcknowledge(p: Pcb, c: Config, flags: Flags, ok: bool)
    ensures SendFlags(p, c, flags, ok).ackedRseq == if ok then p.rseq else p.ackedRseq
  {
  }

  lemma RetryKeepsOut(p: Pcb, c: Config, n: nat, ok: bool)
    ensures var q := p.(txTimeout := 0, txRetry := n, lseq := p.ackedLseq);
            var t := SendFlags(q, c, p.flags, ok);
            && t.sent == p.sent + (if ok then [Head(q, p.flags, [])] else [])
            && t.outq == p.outq && t.rxTimeout == p.rxTimeout && t.state == p.state
            && AckState(p, t.(lseq := p.lseq), ok) && AckState(p, p, false)
  {
    FlagsAcknowledge(p.(txTimeout := 0, txRetry := n, lseq := p.ackedLseq), c, p.flags, ok);
    hide SendFlags;
  }

  /** What comes before the walk in a tick: at most one segment without data, and no change to outq. */
  lemma BeforeWalk(p: Pcb, c: Config, ok: bool) returns (first: seq<Segment>)
    ensures var (q, done) := TickHandshake(p, c, ok);
            && q.sent == p.sent + first && q.outq == p.outq && q.rxTimeout == p.rxTimeout
            && (done <==> p.txTimeout == 1 && Down(p.txRetry, MOD32) == 0) && (!done ==> q.state == p.state)
            && AckState(p, q.(lseq := p.lseq), first != []) && (p.txTimeout != 1 ==> q.lseq == p.lseq)
    ensures |first| == (if p.txTimeout == 1 && Down(p.txRetry, MOD32) != 0 && ok then 1 else 0)
    ensures forall s :: s in first ==> s.data == []
  {
    first := [];
    if p.txTimeout == 1 && Down(p.txRetry, MOD32) != 0 {
      RetryKeepsOut(p, c, Down(p.txRetry, MOD32), ok);
      HandshakeRetries(p, c, ok);
      if ok {
        first := [Head(p.(txTimeout := 0, txRetry := Down(p.txRetry, MOD32), lseq := p.ackedLseq), p.flags, [])];
      }
    } else {
      HandshakeElse(p, c, ok);
    }
    hide TickHandshake;
    hide SendFlags;
    hide Down;
    hide Add32;
  }

  lemma HandshakeRetries(p: Pcb, c: Config, ok: bool)
    requires p.txTimeout == 1 && Down(p.txRetry, MOD32) != 0
    ensures var t := SendFlags(p.(txTimeout := 0, txRetry := Down(p.txRetry, MOD32), lseq := p.ackedLseq), c, p.flags, ok);
            TickHandshake(p, c, ok) == (if p.flags.syn || p.flags.fin then t.(lseq := Add32(t.lseq, 1)) else t, false)
  {
    hide SendFlags;
    hide Down;
    hide Add32;
  }

  lemma HandshakeElse(p: Pcb, c: Config, ok: bool)
    requires !(p.txTimeout == 1 && Down(p.txRetry, MOD32) != 0)
    ensures var (q, done) := TickHandshake(p, c, ok);
            && q.sent == p.sent && q.outq == p.outq && q.rxTimeout == p.rxTimeout && q.lseq == p.lseq
            && (done <==> p.txTimeout == 1) && (!done ==> q.state == p.state) && AckState(p, q, false)
  {
    hide SendFlags;
    hide Down;
  }

  /** What comes after it: a delayed acknowledgement, when its time is up, or nothing. */
  lemma AfterWalk(p: Pcb, c: Config, ok: bool) returns (last: seq<Segment>)
    ensures DelayedAck(p, c, ok).sent == p.sent + last && DelayedAck(p, c, ok).outq == p.outq
    ensures last == if p.ackTick == 1 && ok then [Head(p, ACK, [])] else []
  {
    var q := p.(ackTick := Down(p.ackTick, MOD32));
    hide SendFlags;
    last := if q.ackTick == 0 && ok then [Head(q, ACK, [])] else [];
  }

  lemma RxTimerKeepsOut(p: Pcb)
    ensures RxTimer(p).outq == p.outq && RxTimer(p).sent == p.sent && RxTimer(p).state == p.state
    ensures AckState(p, RxTimer(p), false)
  {
  }

  /** A tick gives up what is queued exactly if it gets to the queue, and some buffer's time is up with its
      last retry spent or with the peer closed. */
  lemma GivesUpExactly(p: Pcb, c: Config, ok: bool, ok2: bool, ok3: bool)
    ensures (p.outq != [] && Tick(p, c, ok, ok2, ok3).outq == []) <==>
            Walks(p) && exists j :: 0 <= j < |p.outq| && Final(p, j)
  {
    hide TickHandshake;
    hide RxTimer;
    hide TickOut;
    hide DelayedAck;
    hide Down;
    var first := BeforeWalk(p, c, ok);
    var q := TickHandshake(p, c, ok).0;
    RxTimerKeepsOut(q);
    var r := RxTimer(q);
    WalkGivesUp(r, c, 0, ok2);
    WalkLength(r, c, 0, ok2);
    if Walks(p) {
      assert forall j :: 0 <= j < |p.outq| ==> (Final(r, j) <==> Final(p, j));
    }
  }

  /** A tick that does not give up sends again, each once and in order, exactly the buffers whose time is up,
      if it gets to the queue. Before them there is at most a SYN or FIN sent again. After them there is the
      delayed acknowledgement, for all that was taken in, exactly if it is due with this tick, something
      taken in is not acknowledged, nothing sent in this tick acknowledges it, and there is a buffer. */
  lemma ResendsExactly(p: Pcb, c: Config, ok: bool, ok2: bool, ok3: bool)
    returns (first: seq<Segment>, more: seq<Segment>, last: seq<Segment>)
    requires p.outq == [] || Tick(p, c, ok, ok2, ok3).outq != []
    ensures Tick(p, c, ok, ok2, ok3).sent == p.sent + first + more + last
    ensures Repeats(more, if Walks(p) then Again(p.outq) else [])
    ensures |first| <= 1 && forall s :: s in first ==> s.data == []
    ensures if Walks(p) && p.ackedRseq != p.rseq && p.ackTick == 1 && first == [] && more == [] && ok3
            then |last| == 1 && Acks(last[0], p) else last == []
  {
    hide TickHandshake;
    hide RxTimer;
    hide TickOut;
    hide DelayedAck;
    hide Down;
    hide Again;
    hide Repeats;
    first := BeforeWalk(p, c, ok);
    more, last := [], [];
    RepeatsNone();
    var q := TickHandshake(p, c, ok).0;
    RxTimerKeepsOut(q);
    var r := RxTimer(q);
    if Walks(p) {
      WalkLength(r, c, 0, ok2);
      more := WalkResends(r, c, 0, ok2);
      assert r.outq[0..] == p.outq;
      var t := TickOut(r, c, 0, ok2).0;
      if t.ackedRseq != t.rseq {
        last := AfterWalk(t, c, ok3);
      }
    }
  }

  /** A bare acknowledgement of all that was taken in, at the end of what was sent. */
  predicate Acks(s: Segment, p: Pcb) {
    s.flags == ACK && s.ackNumber == p.rseq && s.data == [] && (p.txTimeout != 1 ==> s.number == p.lseq)
  }

  lemma RepeatsNone()
    ensures Repeats([], [])
  {
  }

  // ---------- the delayed acknowledgement ----------

  /** n ticks in which nothing else happens and buffers can be had. */
  function Ticks(p: Pcb, c: Config, n: nat): Pcb
    decreases n
  {
    if n == 0 then p else Ticks(Tick(p, c, true, true, true), c, n - 1)
  }

  /** Nothing is queued, no timer runs, and something taken in is not acknowledged. */
  predicate Owes(p: Pcb) {
    p.outq == [] && p.txTimeout == 0 && p.rxTimeout == 0 && p.ackedRseq != p.rseq
  }

  lemma OwingTick(p: Pcb, c: Config)
    requires Owes(p) && p.ackTick > 0
    ensures Tick(p, c, true, true, true) ==
            if p.ackTick > 1 then p.(ackTick := p.ackTick - 1)
            else SendFlags(p.(ackTick := 0), c, ACK, true).(ackTick := TCP_ATO)
  {
    hide SendFlags;
  }

  lemma {:induction false} OwingTicks(p: Pcb, c: Config, n: nat)
    requires Owes(p) && n <= p.ackTick
    ensures n < p.ackTick ==> Ticks(p, c, n).sent == p.sent
    ensures n == p.ackTick > 0 ==> Ticks(p, c, n).sent == p.sent + [Head(p, ACK, [])]
    decreases n
  {
    if n > 0 {
      OwingTick(p, c);
      var q := Tick(p, c, true, true, true);
      if p.ackTick > 1 {
        OwingTicks(q, c, n - 1);
      } else {
        hide Tick;
        assert Ticks(p, c, n) == Ticks(q, c, 0);
      }
    }
  }

  /** Data that is taken in while nothing else happens is acknowledged by the tenth tick after it, and by none
      before it. */
  lemma AcknowledgedInTime(p: Pcb, c: Config, s: Segment, ok: bool, ok2: bool, n: nat)
    requires p.state.Established? && p.outq == [] && p.txTimeout == 0 && p.rxTimeout == 0
    requires !s.flags.rst && !s.flags.fin && s.data != [] && s.number == p.rseq
    requires p.ackedRseq != Add32(p.rseq, |s.data|) && n <= 10
    ensures var q := Input(p, c, s, ok, ok2);
            && q.rseq == Add32(p.rseq, |s.data|) && q.sent == p.sent
            && (n < 10 ==> Ticks(q, c, n).sent == p.sent)
    ensures var q, r := Input(p, c, s, ok, ok2), Ticks(Input(p, c, s, ok, ok2), c, n);
            n == 10 ==> exists a :: r.sent == p.sent + [a] && a.flags == ACK && a.ackNumber == q.rseq && a.data == []
  {
    var q := Input(p, c, s, ok, ok2);
    assert Owes(q) && q.ackTick == 10 && q.rseq == Add32(p.rseq, |s.data|) && q.sent == p.sent by {
      hide SendFlags;
      hide Add32;
    }
    hide Input;
    hide Ticks;
    OwingTicks(q, c, n);
  }

  /** The segment completes the opening of a child. */
  predicate Completes(p: Pcb, s: Segment) {
    p.state.SynGet? && s.flags != SYN && s.flags.ack && s.ackNumber == Add32(p.ackedLseq, 1)
  }

  lemma EstablishedDelivers(p: Pcb, c: Config, s: Segment, ok: bool, ok2: bool)
    ensures InEstablished(p, c, s, ok, ok2).delivered == if s.number == p.rseq then p.delivered + s.data else p.delivered
  {
    hide SendFlags;
    hide TakeAck;
    hide TakeFin;
  }

  lemma SynGetDelivers(p: Pcb, c: Config, s: Segment, ok: bool)
    requires p.state.SynGet?
    ensures InSynGet(p, c, s, ok).delivered == if Completes(p, s) && s.number == p.rseq then p.delivered + s.data else p.delivered
  {
    hide SendFlags;
  }

  /** Data is handed on exactly if it starts at rseq and the connection is up or is just completed:
      no later state delivers anything. */
  lemma DeliversExactly(p0: Pcb, c: Config, s: Segment, ok: bool, ok2: bool)
    ensures Input(p0, c, s, ok, ok2).delivered ==
            if !s.flags.rst && s.number == p0.rseq && (p0.state.Established? || Completes(p0, s))
            then p0.delivered + s.data else p0.delivered
  {
    hide InSynSent;
    hide InSynGet;
    hide InEstablished;
    hide InFinWait1;
    hide InFinWait2;
    hide InLastAck;
    hide TakeAck;
    hide TakeFin;
    hide SendFlags;
    var p := p0.(rwnd := s.window);
    if p.state.Established? {
      EstablishedDelivers(p, c, s, ok, ok2);
    } else if p.state.SynGet? {
      SynGetDelivers(p, c, s, ok);
    }
  }

  /** The answer accepted in SYN_SENT puts rseq right exactly if it brings the SYN: a bare
      acknowledgement, numbered one further, is taken too and leaves rseq one too high. */
  lemma FirstAnswer(p: Pcb, c: Config, s: Segment, ok: bool, ok2: bool, irs: Number)
    requires p.state.SynSent? && !s.flags.rst && s.flags != SYN && (s.flags.syn || s.flags.ack) && s.ackNumber == p.lseq
    requires s.number == if s.flags.syn then irs else Add32(irs, 1)
    ensures Input(p, c, s, ok, ok2).state.Established?
    ensures Input(p, c, s, ok, ok2).rseq == Add32(irs, 1) <==> s.flags.syn
  {
    hide SendFlags;
  }

  /** In a simultaneous open the SYN | ACK goes out one number too high: lseq is past the SYN already. */
  lemma SimultaneousOpen(p: Pcb, c: Config, s: Segment, ok2: bool, isn: Number)
    requires Tx(p, isn) && p.state.SynSent? && s.flags == SYN
    ensures var q := Input(p, c, s, true, ok2);
            && q.sent[..|p.sent|] == p.sent && |q.sent| == |p.sent| + 1 && q.sent[|p.sent|].flags == SYN_ACK
            && q.sent[|p.sent|].number == Add32(isn, 1) && q.sent[|p.sent|].number != isn
  {
    hide SendFlags;
    hide Wire;
  }
}
