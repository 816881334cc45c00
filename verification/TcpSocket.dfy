/** The connection as the code keeps it: its control block updated in place, field after field, by every
    segment, call and tick. */
module TcpSocket {
  import opened Wrappers
  import opened Tcp

  class Socket {
    const config: Config
    var pcb: Pcb
    var listener: Listener

    constructor (c: Config, rxWindow: nat, txWindow: nat)
      ensures config == c && Blank(pcb) && pcb.rxWindow == rxWindow && pcb.txWindow == txWindow
      ensures listener == Listener(0, 0, false)
    {
      config := c;
      listener := Listener(0, 0, false);
      pcb := Pcb(Closed, 0, 0, 0, 0, 0, false, 0, 0, txWindow, false, 0, rxWindow, 0, true, true, NO_FLAGS, [], [], [], [], [], []);
    }

    /** The sum over a buffer list. */
    method ListLength(list: seq<seq<Byte>>) returns (n: nat)
      ensures n == QueueLength(list)
    {
      n := 0;
      var i := 0;
      while i < |list|
        invariant 0 <= i <= |list|
        invariant n + QueueLength(list[i..]) == QueueLength(list)
      {
        n := n + |list[i]|;
        i := i + 1;
      }
    }

    method QueuedLength() returns (n: nat)
      ensures n == OutLength(pcb.outq)
    {
      n := 0;
      var i := 0;
      while i < |pcb.outq|
        invariant 0 <= i <= |pcb.outq|
        invariant n + OutLength(pcb.outq[i..]) == OutLength(pcb.outq)
      {
        n := n + |pcb.outq[i].data|;
        i := i + 1;
      }
    }

    method DoSend(f: Flags, data: seq<Byte>)
      modifies this`pcb
      ensures pcb == SendDo(old(pcb), f, data)
    {
      var queued := ListLength(pcb.inq);
      var head := Segment(pcb.lseq, pcb.rseq, if pcb.rseq != 0 then f.(ack := true) else f, (pcb.rxWindow - queued) % MOD16, data);
      pcb := pcb.(ackedRseq := pcb.rseq, sent := pcb.sent + [head]);
      if f.fin || f.syn || |data| > 0 {
        pcb := pcb.(flags := f);
      }
      pcb := pcb.(lseq := Add32(pcb.lseq, |data|));
    }

    method DoSendFlags(f: Flags, ok: bool)
      modifies this`pcb
      ensures pcb == SendFlags(old(pcb), config, f, ok)
    {
      hide SendDo;
      if f.syn || f.fin {
        pcb := pcb.(txTimeout := config.txTimeoutMs);
      }
      if ok {
        DoSend(f, []);
      }
    }

    method StartConnect(tsn: Number, ok: bool)
      modifies this`pcb
      ensures pcb == Connect(old(pcb), config, tsn, ok)
    {
      hide SendFlags;
      pcb := pcb.(lseq := tsn, ackedLseq := tsn, rseq := 0, txRetry := 3);
      DoSendFlags(SYN, ok);
      pcb := pcb.(lseq := Add32(pcb.lseq, 1), state := SynSent, txWaiting := true);
    }

    /** On the child that a listener made for the segment. */
    method StartAccept(s: Segment, tsn: Number, ok: bool)
      modifies this`pcb
      ensures pcb == Accept(old(pcb), config, s, tsn, ok)
    {
      hide SendFlags;
      pcb := pcb.(lseq := tsn, ackedLseq := tsn, state := SynGet, rseq := Add32(s.number, 1), txRetry := 3);
      DoSendFlags(SYN_ACK, ok);
      pcb := pcb.(lseq := Add32(pcb.lseq, 1), rclose := false);
    }

    method ReceiveData(s: Segment, ok: bool)
      modifies this`pcb
      ensures pcb == TakeData(old(pcb), config, s, ok)
    {
      hide SendFlags;
      if |s.data| > 0 {
        if pcb.rseq == s.number {
          pcb := pcb.(rseq := Add32(pcb.rseq, |s.data|), ackTick := TCP_ATO, delivered := pcb.delivered + s.data);
          if !config.hasCallback {
            pcb := pcb.(inq := pcb.inq + [s.data]);
          }
        } else {
          DoSendFlags(ACK, ok);
        }
      }
    }

    method ReceiveAck(s: Segment)
      modifies this`pcb
      ensures pcb == TakeAck(old(pcb), s)
    {
      if s.flags.ack && s.ackNumber != pcb.ackedLseq {
        pcb := pcb.(txTimeout := 0, ackedLseq := s.ackNumber);
        ghost var before := pcb;
        while pcb.outq != [] && pcb.ackedLseq >= Add32(pcb.outq[0].addr, |pcb.outq[0].data|)
          invariant pcb == before.(outq := pcb.outq)
          invariant DropCovered(pcb.outq, s.ackNumber) == DropCovered(before.outq, s.ackNumber)
          decreases |pcb.outq|
        {
          pcb := pcb.(outq := pcb.outq[1..]);
        }
        pcb := pcb.(txWaiting := false);
      }
    }

    method ReceiveFin(s: Segment, ok: bool)
      modifies this`pcb
      ensures pcb == RemoteClose(old(pcb), config, s, ok)
    {
      hide SendFlags;
      pcb := pcb.(rclose := true, rseq := Add32(s.number, 1));
      DoSendFlags(ACK, ok);
      pcb := pcb.(state := if pcb.lclose then Closed else CloseWait, rxWaiting := false);
      if pcb.state.Closed? {
        pcb := pcb.(txWaiting := false);
      }
    }

    method DiscardData(s: Segment, ok: bool)
      modifies this`pcb
      ensures pcb == DropData(old(pcb), config, s, ok)
    {
      hide SendFlags;
      if |s.data| > 0 {
        if pcb.rseq == s.number {
          pcb := pcb.(rseq := Add32(pcb.rseq, |s.data|));
        }
        DoSendFlags(ACK, ok);
      }
    }

    method Open()
      modifies this`pcb
      ensures pcb == Connected(old(pcb))
    {
      pcb := pcb.(rclose := false, lclose := false, state := Established, txWaiting := false);
    }

    method AnswerSyn(ok: bool)
      modifies this`pcb
      ensures pcb == SendSynAck(old(pcb), config, ok)
    {
      hide SendFlags;
      pcb := pcb.(txRetry := 3);
      DoSendFlags(SYN_ACK, ok);
      pcb := pcb.(lseq := Add32(pcb.lseq, 1), state := SynGet);
    }

    method InputSynSent(s: Segment, ok: bool)
      modifies this`pcb
      ensures pcb == InSynSent(old(pcb), config, s, ok)
    {
      hide SendFlags;
      hide SendSynAck;
      hide Connected;
      if s.flags == SYN {
        pcb := pcb.(rseq := Add32(s.number, 1));
        AnswerSyn(ok);
      } else if (s.flags.syn || s.flags.ack) && s.ackNumber == pcb.lseq {
        pcb := pcb.(txTimeout := 0, rseq := Add32(s.number, 1), ackedLseq := pcb.lseq);
        DoSendFlags(ACK, ok);
        Open();
      }
    }

    method InputSynGet(s: Segment, ok: bool)
      modifies this`pcb
      ensures pcb == InSynGet(old(pcb), config, s, ok)
    {
      hide SendFlags;
      hide SendSynAck;
      hide Connected;
      hide TakeData;
      if s.flags == SYN {
        pcb := pcb.(lseq := pcb.ackedLseq);
        AnswerSyn(ok);
      } else if s.flags.ack && s.ackNumber == Add32(pcb.ackedLseq, 1) {
        pcb := pcb.(txTimeout := 0, ackedLseq := s.ackNumber, lseq := s.ackNumber);
        ReceiveData(s, ok);
        Open();
      } else if s.flags.fin {
        pcb := pcb.(txRetry := 3);
        DoSendFlags(FIN, ok);
        pcb := pcb.(lseq := Add32(pcb.lseq, 1), state := FinWait1, lclose := true);
      }
    }

    method InputEstablished(s: Segment, ok: bool, ok2: bool)
      modifies this`pcb
      ensures pcb == InEstablished(old(pcb), config, s, ok, ok2)
    {
      hide TakeData;
      hide TakeAck;
      hide RemoteClose;
      var inOrder := |s.data| > 0 && pcb.rseq == s.number;
      ReceiveData(s, ok);
      if inOrder {
        pcb := pcb.(rxWaiting := false);
      }
      ReceiveAck(s);
      if s.flags.fin {
        ReceiveFin(s, ok2);
      }
    }

    method InputFinWait1(s: Segment, ok: bool)
      modifies this`pcb
      ensures pcb == InFinWait1(old(pcb), config, s, ok)
    {
      hide RemoteClose;
      hide DropData;
      if s.flags.ack && s.ackNumber == pcb.lseq {
        pcb := pcb.(lclose := true, txTimeout := 0, ackedLseq := pcb.lseq);
        if s.flags.fin {
          ReceiveFin(s, ok);
          return;
        }
        pcb := pcb.(state := FinWait2);
      }
      DiscardData(s, ok);
    }

    method InputLastAck(s: Segment, ok: bool)
      modifies this`pcb
      ensures pcb == InLastAck(old(pcb), config, s, ok)
    {
      hide SendFlags;
      if s.flags.fin {
        DoSendFlags(ACK, ok);
      }
      if s.flags == ACK && s.ackNumber == pcb.lseq {
        pcb := pcb.(lclose := true, txTimeout := 0, ackedLseq := pcb.lseq, state := Closed, txWaiting := false);
      }
    }

    /** vsfip_tcp_socket_input: the whole new state, for any segment in any state. */
    method Receive(s: Segment, ok: bool, ok2: bool)
      modifies this`pcb
      ensures pcb == Input(old(pcb), config, s, ok, ok2)
    {
      hide InSynSent;
      hide InSynGet;
      hide InEstablished;
      hide TakeAck;
      hide RemoteClose;
      hide InFinWait1;
      hide DropData;
      hide InLastAck;
      hide SendFlags;
      pcb := pcb.(rwnd := s.window);
      if s.flags.rst {
        pcb := pcb.(txTimeout := 0, rxTimeout := 0, state := Closed, inq := [], outq := [], txWaiting := false, rxWaiting := false);
        return;
      }
      match pcb.state {
        case Invalid =>
        case Closed => DoSendFlags(RST, ok);
        case Listen =>
        case SynSent => InputSynSent(s, ok);
        case SynGet => InputSynGet(s, ok);
        case Established => InputEstablished(s, ok, ok2);
        case CloseWait =>
          ReceiveAck(s);
          if s.flags.fin {
            ReceiveFin(s, ok2);
          }
        case FinWait1 => InputFinWait1(s, ok);
        case FinWait2 =>
          if s.flags.fin {
            ReceiveFin(s, ok);
          } else {
            DiscardData(s, ok);
          }
        case LastAck => InputLastAck(s, ok);
      }
    }

    /** vsfip_tcp_socket_input on any socket; child is the one that vsfip_childsocket would give. */
    method ReceiveAny(s: Segment, child: Socket?, tsn: Number, ok: bool, ok2: bool) returns (made: bool)
      requires child != this && (child != null ==> child.config == config)
      modifies this, if child == null then {} else {child}
      ensures (pcb, listener, if made && child != null then Some(child.pcb) else None)
              == ListenInput(old(pcb), old(listener), config, s, tsn, if child == null then None else Some(old(child.pcb)), ok, ok2)
      ensures !made && child != null ==> child.pcb == old(child.pcb)
      ensures made ==> child != null
    {
      hide Input;
      hide Accept;
      made := false;
      if listener.backlog > 0 && s.flags != SYN {
        return;
      }
      if pcb.state.Listen? && s.flags == SYN && listener.accepted < listener.backlog && !listener.closing && child != null {
        pcb := pcb.(rwnd := s.window);
        listener := listener.(accepted := listener.accepted + 1);
        child.pcb := child.pcb.(txWaiting := pcb.txWaiting);
        child.StartAccept(s, tsn, ok);
        made := true;
      } else {
        Receive(s, ok, ok2);
      }
    }

    /** vsfip_tcp_async_send: a buffer is queued and sent exactly if nobody waits, the end is open, the
        queue with it stays within both windows and there is a route. */
    method Send(data: seq<Byte>, routed: bool, room: bool, stale: Number) returns (result: Result)
      modifies this`pcb
      ensures (pcb, result) == AsyncSend(old(pcb), config, data, routed, room, stale)
      ensures result.Done? <==> (!old(pcb.txWaiting) && !old(pcb.lclose) && routed && room
        && OutLength(old(pcb.outq)) + |data| <= old(pcb.txWindow) && OutLength(old(pcb.outq)) + |data| <= old(pcb.rwnd))
    {
      hide SendDo;
      if pcb.txWaiting {
        return Bug;
      }
      if pcb.lclose {
        return Failed;
      }
      var size := QueuedLength();
      if size + |data| > Min(pcb.txWindow, pcb.rwnd) {
        return NotReady;
      }
      if !routed {
        return Failed;
      }
      var b := OutBuf(stale, data, config.txTimeoutMs % MOD16, TCP_RETRY, room);
      if room {
        pcb := pcb.(outq := pcb.outq + [b.(addr := pcb.lseq)], accepted := pcb.accepted + data);
        DoSend(PSH, data);
        result := Done;
      } else {
        pcb := pcb.(outq := pcb.outq + [b]);
        result := Failed;
      }
    }

    /** vsfip_tcp_async_recv: a buffer comes back exactly if nobody waits, the peer has not closed, and there is
        one; it is the oldest. */
    method TryReceive() returns (result: Result, data: seq<Byte>)
      modifies this`pcb
      ensures (pcb, result, data) == AsyncRecv(old(pcb))
      ensures result.Done? <==> !old(pcb.rxWaiting) && !old(pcb.rclose) && old(pcb.inq) != []
      ensures result.Done? ==> [data] + pcb.inq == old(pcb.inq) && pcb.fetched == old(pcb.fetched) + data
    {
      data := [];
      if pcb.rxWaiting {
        return Bug, data;
      }
      if pcb.rclose {
        return Failed, data;
      }
      if pcb.inq == [] {
        return NotReady, data;
      }
      data := pcb.inq[0];
      pcb := pcb.(inq := pcb.inq[1..], fetched := pcb.fetched + data);
      result := Done;
    }

    /** vsfip_tcp_recv up to its wait. */
    method ReceiveOrWait(rxTimeoutMs: nat) returns (result: Result, data: seq<Byte>)
      modifies this`pcb
      ensures (pcb, result, data) == Recv(old(pcb), rxTimeoutMs)
    {
      result, data := TryReceive();
      if !result.Done? {
        pcb := pcb.(rxTimeout := rxTimeoutMs, rxWaiting := true);
        result, data := NotReady, [];
      }
    }

    method Shut(ok: bool)
      modifies this`pcb
      ensures pcb == Close(old(pcb), config, ok)
    {
      hide SendFlags;
      if !pcb.lclose {
        pcb := pcb.(lseq := pcb.ackedLseq, txRetry := 3);
        DoSendFlags(FIN, ok);
        pcb := pcb.(lseq := Add32(pcb.lseq, 1), state := if pcb.rclose then LastAck else FinWait1);
      }
      pcb := pcb.(txWaiting := true);
    }

    method HandshakeTimer(ok: bool) returns (done: bool)
      modifies this`pcb
      ensures (pcb, done) == TickHandshake(old(pcb), config, ok)
    {
      hide SendFlags;
      done := false;
      if pcb.txTimeout > 0 {
        pcb := pcb.(txTimeout := pcb.txTimeout - 1);
        if pcb.txTimeout == 0 {
          pcb := pcb.(txRetry := Down(pcb.txRetry, MOD32));
          if pcb.txRetry != 0 {
            var f := pcb.flags;
            pcb := pcb.(lseq := pcb.ackedLseq);
            DoSendFlags(f, ok);
            if f.syn || f.fin {
              pcb := pcb.(lseq := Add32(pcb.lseq, 1));
            }
          } else {
            if pcb.state.SynSent? || pcb.state.SynGet? || pcb.state.LastAck? {
              pcb := pcb.(state := Closed);
            }
            pcb := pcb.(txWaiting := false);
            done := true;
          }
        }
      }
    }

    method GiveUpAll(ok: bool)
      modifies this`pcb
      ensures pcb == GiveUp(old(pcb), config, ok)
    {
      hide SendFlags;
      pcb := pcb.(outq := [], lseq := pcb.ackedLseq, txRetry := 3);
      DoSendFlags(FIN, ok);
      pcb := pcb.(lseq := Add32(pcb.lseq, 1), state := if pcb.rclose then LastAck else FinWait1, lclose := true, txWaiting := false);
    }

    method SendAgain(b: OutBuf)
      modifies this`pcb
      ensures pcb == Resend(old(pcb), b)
    {
      hide SendDo;
      var saved := pcb.lseq;
      if b.room {
        pcb := pcb.(lseq := b.addr);
        DoSend(PSH, b.data);
      }
      pcb := pcb.(lseq := saved);
    }

    /** The walk over outq. */
    method AgeQueue(ok: bool) returns (done: bool)
      modifies this`pcb
      ensures (pcb, done) == TickOut(old(pcb), config, 0, ok)
    {
      hide Resend;
      hide GiveUp;
      var i := 0;
      ghost var target := TickOut(pcb, config, 0, ok);
      while i < |pcb.outq|
        invariant 0 <= i <= |pcb.outq|
        invariant TickOut(pcb, config, i, ok) == target
        decreases |pcb.outq| - i
      {
        var b := pcb.outq[i];
        var ttl := Down(b.ttl, MOD16);
        if ttl != 0 {
          pcb := pcb.(outq := pcb.outq[i := b.(ttl := ttl)]);
        } else if (b.retry == 0 || b.retry - 1 != 0) && !pcb.state.CloseWait? {
          var again := b.(ttl := config.txTimeoutMs % MOD16, retry := if b.retry == 0 then 0 else b.retry - 1);
          pcb := pcb.(outq := pcb.outq[i := again]);
          SendAgain(b);
        } else {
          GiveUpAll(ok);
          return true;
        }
        i := i + 1;
      }
      done := false;
    }

    /** vsfip_tcp_socket_tick. */
    method OneMs(ok: bool, ok2: bool, ok3: bool)
      modifies this`pcb
      ensures pcb == Tick(old(pcb), config, ok, ok2, ok3)
    {
      hide TickHandshake;
      hide TickOut;
      hide SendFlags;
      var done := HandshakeTimer(ok);
      if done {
        return;
      }
      if pcb.rxTimeout > 0 {
        pcb := pcb.(rxTimeout := pcb.rxTimeout - 1);
        if pcb.rxTimeout == 0 {
          pcb := pcb.(rxWaiting := false);
          return;
        }
      }
      done := AgeQueue(ok2);
      if done {
        return;
      }
      if pcb.ackedRseq != pcb.rseq {
        pcb := pcb.(ackTick := Down(pcb.ackTick, MOD32));
        if pcb.ackTick == 0 {
          DoSendFlags(ACK, ok3);
          pcb := pcb.(ackTick := TCP_ATO);
        }
      }
    }
  }
}
