/** One TCP connection of vsfip.c: what every event does to the protocol control block. Callbacks of
    the application leave the block alone. */
module Tcp {
  import opened Wrappers

  const MOD32: nat := 0x1_0000_0000
  type Number = n: nat | n < 0x1_0000_0000
  const MOD16: nat := 0x1_0000
  const TCP_RETRY: nat := 3
  const TCP_ATO: nat := 10

  datatype Flags = Flags(fin: bool, syn: bool, rst: bool, psh: bool, ack: bool, urg: bool)
  const NO_FLAGS := Flags(false, false, false, false, false, false)
  const FIN := NO_FLAGS.(fin := true)
  const SYN := NO_FLAGS.(syn := true)
  const RST := NO_FLAGS.(rst := true)
  const PSH := NO_FLAGS.(psh := true)
  const ACK := NO_FLAGS.(ack := true)
  const SYN_ACK := SYN.(ack := true)

  /** A segment as it stands on the wire, header fields in host order. */
  datatype Segment = Segment(number: Number, ackNumber: Number, flags: Flags, window: nat, data: seq<Byte>)

  datatype Stat = Invalid | Closed | Listen | SynSent | SynGet | Established | FinWait1 | FinWait2 | CloseWait | LastAck

  /** A buffer waiting in outq for its acknowledgement; room says that a header fits before its data. */
  datatype OutBuf = OutBuf(addr: Number, data: seq<Byte>, ttl: nat, retry: nat, room: bool)

  /** Fixed for a socket: its timeout, and whether on_input takes its data. */
  datatype Config = Config(txTimeoutMs: nat, hasCallback: bool)

  datatype Pcb = Pcb(
    state: Stat, lseq: Number, ackedLseq: Number, rseq: Number, ackedRseq: Number, rwnd: nat,
    txWaiting: bool, txTimeout: nat, txRetry: nat, txWindow: nat,
    rxWaiting: bool, rxTimeout: nat, rxWindow: nat,
    ackTick: nat, rclose: bool, lclose: bool, flags: Flags,
    inq: seq<seq<Byte>>, outq: seq<OutBuf>,
    // history: bytes the application gave, bytes taken in for it, those of them that it has fetched, segments
    // put on the wire
    accepted: seq<Byte>, delivered: seq<Byte>, fetched: seq<Byte>, sent: seq<Segment>)

  /** A control block as vsfip_socket leaves it, but for its windows. */
  predicate Blank(p: Pcb) {
    && p.state.Closed? && p.txTimeout == 0 && !p.rxWaiting && p.rclose && p.lclose && p.flags == NO_FLAGS
    && p.rseq == 0 && p.ackedRseq == 0 && p.inq == [] && p.outq == []
    && p.accepted == [] && p.delivered == [] && p.fetched == [] && p.sent == []
  }

  function Add32(a: nat, n: nat): Number {
    (a + n) % MOD32
  }

  function QueueLength(q: seq<seq<Byte>>): nat {
    if q == [] then 0 else |q[0]| + QueueLength(q[1..])
  }

  function OutLength(q: seq<OutBuf>): nat {
    if q == [] then 0 else |q[0].data| + OutLength(q[1..])
  }

  // ---------- output ----------

  /** The header vsfip_add_tcphead writes. */
  function Head(p: Pcb, flags: Flags, data: seq<Byte>): Segment {
    Segment(p.lseq, p.rseq, if p.rseq != 0 then flags.(ack := true) else flags,
            (p.rxWindow - QueueLength(p.inq)) % MOD16, data)
  }

  /** What sending a segment leaves alone. */
  predicate Untouched(p: Pcb, r: Pcb) {
    && r.state == p.state && r.rseq == p.rseq && r.ackedLseq == p.ackedLseq && r.rwnd == p.rwnd
    && r.txWaiting == p.txWaiting && r.txRetry == p.txRetry && r.txWindow == p.txWindow
    && r.rxWaiting == p.rxWaiting && r.rxTimeout == p.rxTimeout && r.rxWindow == p.rxWindow
    && r.ackTick == p.ackTick && r.rclose == p.rclose && r.lclose == p.lclose
    && r.inq == p.inq && r.outq == p.outq && r.accepted == p.accepted && r.delivered == p.delivered
    && r.fetched == p.fetched
  }

  /** The sending side is as it was; pure acknowledgements may have gone out. */
  predicate SenderKept(p: Pcb, r: Pcb) {
    && r.lseq == p.lseq && r.ackedLseq == p.ackedLseq && r.txTimeout == p.txTimeout && r.flags == p.flags
    && r.lclose == p.lclose && r.accepted == p.accepted && r.outq == p.outq
  }

  /** vsfip_tcp_send_do on a buffer with room for the header. */
  function SendDo(p: Pcb, flags: Flags, data: seq<Byte>): (r: Pcb)
    ensures Untouched(p, r) && r.txTimeout == p.txTimeout && r.lseq == Add32(p.lseq, |data|)
    ensures r.sent == p.sent + [Head(p, flags, data)]
    ensures r.flags == if flags.fin || flags.syn || data != [] then flags else p.flags
  {
    p.(sent := p.sent + [Head(p, flags, data)],
       ackedRseq := p.rseq,
       flags := if flags.fin || flags.syn || data != [] then flags else p.flags,
       lseq := Add32(p.lseq, |data|))
  }

  /** vsfip_tcp_sendflags; ok says that there was a buffer and a route. */
  function SendFlags(p: Pcb, c: Config, flags: Flags, ok: bool): (r: Pcb)
    ensures Untouched(p, r) && r.lseq == p.lseq
    ensures r.txTimeout == if flags.syn || flags.fin then c.txTimeoutMs else p.txTimeout
    ensures r.sent == if ok then p.sent + [Head(p, flags, [])] else p.sent
    ensures r.flags == if ok && (flags.fin || flags.syn) then flags else p.flags
  {
    var q := if flags.syn || flags.fin then p.(txTimeout := c.txTimeoutMs) else p;
    if ok then SendDo(q, flags, []) else q
  }

  // ---------- opening ----------

  /** The part of vsfip_tcp_connect up to the wait; tsn is the number vsfip_get_tsn gives. */
  function Connect(p: Pcb, c: Config, tsn: Number, ok: bool): Pcb {
    var q := SendFlags(p.(lseq := tsn, ackedLseq := tsn, rseq := 0, txRetry := 3), c, SYN, ok);
    q.(lseq := Add32(q.lseq, 1), state := SynSent, txWaiting := true)
  }

  /** What a listener does for the child socket it makes for a SYN. */
  function Accept(p: Pcb, c: Config, s: Segment, tsn: Number, ok: bool): Pcb {
    var q := SendFlags(p.(lseq := tsn, ackedLseq := tsn, state := SynGet, rseq := Add32(s.number, 1), txRetry := 3),
                       c, SYN_ACK, ok);
    q.(lseq := Add32(q.lseq, 1), rclose := false)
  }

  // ---------- input ----------

  /** vsfip_tcp_data_input. */
  function DataInput(p: Pcb, c: Config, data: seq<Byte>): Pcb {
    p.(rseq := Add32(p.rseq, |data|), ackTick := TCP_ATO, delivered := p.delivered + data,
       inq := if c.hasCallback then p.inq else p.inq + [data])
  }

  /** In-order data is taken, other data answered with what is expected. */
  function TakeData(p: Pcb, c: Config, s: Segment, ok: bool): (r: Pcb)
    ensures SenderKept(p, r) && r.state == p.state
  {
    if s.data == [] then p
    else if p.rseq == s.number then DataInput(p, c, s.data)
    else SendFlags(p, c, ACK, ok)
  }

  function Connected(p: Pcb): Pcb {
    p.(rclose := false, lclose := false, state := Established, txWaiting := false)
  }

  /** The buffers left when every leading one that the number covers is gone. */
  function DropCovered(q: seq<OutBuf>, number: Number): seq<OutBuf> {
    if q != [] && number >= Add32(q[0].addr, |q[0].data|) then DropCovered(q[1..], number) else q
  }

  function TakeAck(p: Pcb, s: Segment): (r: Pcb)
    ensures r.lseq == p.lseq && r.accepted == p.accepted && r.delivered == p.delivered && r.sent == p.sent
    ensures r.state == p.state && r.rseq == p.rseq && r.txTimeout <= p.txTimeout
    ensures r.outq == if s.flags.ack && s.ackNumber != p.ackedLseq then DropCovered(p.outq, s.ackNumber) else p.outq
  {
    if s.flags.ack && s.ackNumber != p.ackedLseq then
      p.(txTimeout := 0, ackedLseq := s.ackNumber, outq := DropCovered(p.outq, s.ackNumber), txWaiting := false)
    else p
  }

  /** The label remote_close. */
  function RemoteClose(p: Pcb, c: Config, s: Segment, ok: bool): (r: Pcb)
    ensures SenderKept(p, r) && r.delivered == p.delivered
    ensures r.state == if p.lclose then Closed else CloseWait
  {
    var q := SendFlags(p.(rclose := true, rseq := Add32(s.number, 1)), c, ACK, ok);
    if q.lclose then q.(state := Closed, rxWaiting := false, txWaiting := false)
    else q.(state := CloseWait, rxWaiting := false)
  }

  function TakeFin(p: Pcb, c: Config, s: Segment, ok: bool): (r: Pcb)
    ensures SenderKept(p, r) && r.delivered == p.delivered
    ensures r.state == if s.flags.fin then if p.lclose then Closed else CloseWait else p.state
    ensures !s.flags.fin ==> r == p
  {
    if s.flags.fin then RemoteClose(p, c, s, ok) else p
  }

  /** The label check_data_in_FIN: data is acknowledged but goes nowhere. */
  function DropData(p: Pcb, c: Config, s: Segment, ok: bool): (r: Pcb)
    ensures SenderKept(p, r) && r.delivered == p.delivered && r.state == p.state
  {
    if s.data == [] then p
    else SendFlags(if p.rseq == s.number then p.(rseq := Add32(p.rseq, |s.data|)) else p, c, ACK, ok)
  }

  /** Open with SYN | ACK from state p, one sequence number further on. */
  function SendSynAck(p: Pcb, c: Config, ok: bool): Pcb {
    var q := SendFlags(p.(txRetry := 3), c, SYN_ACK, ok);
    q.(lseq := Add32(q.lseq, 1), state := SynGet)
  }

  function InSynSent(p: Pcb, c: Config, s: Segment, ok: bool): (r: Pcb)
    ensures r.outq == p.outq && r.delivered == p.delivered
    ensures r.accepted == p.accepted && (r.state.SynSent? ==> p.state.SynSent?)
  {
    if s.flags == SYN then
      SendSynAck(p.(rseq := Add32(s.number, 1)), c, ok)
    else if (s.flags.syn || s.flags.ack) && s.ackNumber == p.lseq then
      Connected(SendFlags(p.(txTimeout := 0, rseq := Add32(s.number, 1), ackedLseq := p.lseq), c, ACK, ok))
    else p
  }

  function InSynGet(p: Pcb, c: Config, s: Segment, ok: bool): (r: Pcb)
    ensures r.outq == p.outq
    ensures r.accepted == p.accepted && (r.state.SynSent? ==> p.state.SynSent?)
  {
    if s.flags == SYN then
      SendSynAck(p.(lseq := p.ackedLseq), c, ok)
    else if s.flags.ack && s.ackNumber == Add32(p.ackedLseq, 1) then
      Connected(TakeData(p.(txTimeout := 0, ackedLseq := s.ackNumber, lseq := s.ackNumber), c, s, ok))
    else if s.flags.fin then
      var q := SendFlags(p.(txRetry := 3), c, FIN, ok);
      q.(lseq := Add32(q.lseq, 1), state := FinWait1, lclose := true)
    else p
  }

  function InEstablished(p: Pcb, c: Config, s: Segment, ok: bool, ok2: bool): (r: Pcb)
    ensures r.outq == p.outq || (s.flags.ack && r.outq == DropCovered(p.outq, s.ackNumber))
    ensures r.accepted == p.accepted && (r.state.SynSent? ==> p.state.SynSent?)
    ensures r.state.SynGet? ==> p.state.SynGet? || p.state.SynSent?
  {
    var q := TakeData(p, c, s, ok);
    TakeFin(TakeAck(if s.data != [] && p.rseq == s.number then q.(rxWaiting := false) else q, s), c, s, ok2)
  }

  function InFinWait1(p: Pcb, c: Config, s: Segment, ok: bool): (r: Pcb)
    ensures r.outq == p.outq && r.delivered == p.delivered
    ensures r.accepted == p.accepted && (r.state.SynSent? ==> p.state.SynSent?)
    ensures r.state.SynGet? ==> p.state.SynGet? || p.state.SynSent?
  {
    if s.flags.ack && s.ackNumber == p.lseq then
      var q := p.(lclose := true, txTimeout := 0, ackedLseq := p.lseq);
      if s.flags.fin then RemoteClose(q, c, s, ok) else DropData(q.(state := FinWait2), c, s, ok)
    else DropData(p, c, s, ok)
  }

  function InFinWait2(p: Pcb, c: Config, s: Segment, ok: bool): (r: Pcb)
    ensures r.outq == p.outq && r.delivered == p.delivered
    ensures r.accepted == p.accepted && (r.state.SynSent? ==> p.state.SynSent?)
    ensures r.state.SynGet? ==> p.state.SynGet? || p.state.SynSent?
  {
    if s.flags.fin then RemoteClose(p, c, s, ok) else DropData(p, c, s, ok)
  }

  function InLastAck(p: Pcb, c: Config, s: Segment, ok: bool): (r: Pcb)
    ensures r.outq == p.outq && r.delivered == p.delivered
    ensures r.accepted == p.accepted && (r.state.SynSent? ==> p.state.SynSent?)
    ensures r.state.SynGet? ==> p.state.SynGet? || p.state.SynSent?
  {
    var q := if s.flags.fin then SendFlags(p, c, ACK, ok) else p;
    if s.flags == ACK && s.ackNumber == q.lseq then
      q.(lclose := true, txTimeout := 0, ackedLseq := q.lseq, state := Closed, txWaiting := false)
    else q
  }

  function Reset(p: Pcb): Pcb {
    p.(txTimeout := 0, rxTimeout := 0, state := Closed, inq := [], outq := [], txWaiting := false, rxWaiting := false)
  }

  /** vsfip_tcp_socket_input on a socket that is not a listener. ok and ok2 say whether the first and
      the second segment it wants to send find a buffer. */
  function Input(p0: Pcb, c: Config, s: Segment, ok: bool, ok2: bool): (r: Pcb)
    ensures s.flags.rst || r.outq == p0.outq || (s.flags.ack && r.outq == DropCovered(p0.outq, s.ackNumber))
    ensures r.accepted == p0.accepted && (r.state.SynSent? ==> p0.state.SynSent?)
    ensures r.state.SynGet? ==> p0.state.SynGet? || p0.state.SynSent?
  {
    var p := p0.(rwnd := s.window);
    if s.flags.rst then
      Reset(p)
    else
      match p.state
      case Invalid => p
      case Closed => SendFlags(p, c, RST, ok)
      case Listen => p
      case SynSent => InSynSent(p, c, s, ok)
      case SynGet => InSynGet(p, c, s, ok)
      case Established => InEstablished(p, c, s, ok, ok2)
      case CloseWait => TakeFin(TakeAck(p, s), c, s, ok2)
      case FinWait1 => InFinWait1(p, c, s, ok)
      case FinWait2 => InFinWait2(p, c, s, ok)
      case LastAck => InLastAck(p, c, s, ok)
  }

  /** What makes a socket a listener. */
  datatype Listener = Listener(backlog: nat, accepted: nat, closing: bool)

  /** vsfip_tcp_socket_input in full. A listener looks at nothing but a SYN, and makes a child for it while its
      backlog lasts; blank is the control block of the socket that the child gets, if there is one left. */
  function ListenInput(p: Pcb, l: Listener, c: Config, s: Segment, tsn: Number, blank: Option<Pcb>, ok: bool, ok2: bool):
    (Pcb, Listener, Option<Pcb>)
  {
    if l.backlog > 0 && s.flags != SYN then (p, l, None)
    else if p.state.Listen? && s.flags == SYN && l.accepted < l.backlog && !l.closing && blank.Some? then
      (p.(rwnd := s.window), l.(accepted := l.accepted + 1),
       Some(Accept(blank.value.(txWaiting := p.txWaiting), c, s, tsn, ok)))
    else (Input(p, c, s, ok, ok2), l, None)
  }

  // ---------- sending ----------

  datatype Result = Done | NotReady | Bug | Failed

  /** vsfip_tcp_async_send. routed: there is a route. room: the buffer has room for the header;
      stale is the sequence number an earlier use left in it. */
  function AsyncSend(p: Pcb, c: Config, data: seq<Byte>, routed: bool, room: bool, stale: Number): (Pcb, Result) {
    if p.txWaiting then (p, Bug)
    else if p.lclose then (p, Failed)
    else if OutLength(p.outq) + |data| > Min(p.txWindow, p.rwnd) then (p, NotReady)
    else if !routed then (p, Failed)
    else
      var b := OutBuf(stale, data, c.txTimeoutMs % MOD16, TCP_RETRY, room);
      if room then
        (SendDo(p.(outq := p.outq + [b.(addr := p.lseq)], accepted := p.accepted + data), PSH, data), Done)
      else
        (p.(outq := p.outq + [b]), Failed)
  }

  /** vsfip_tcp_close, once the wait for outq is over; the caller then waits for the end. */
  function Close(p: Pcb, c: Config, ok: bool): (r: Pcb)
    ensures r.accepted == p.accepted && (r.state == p.state || r.state.Closed? || r.state.FinWait1? || r.state.LastAck?)
  {
    if p.lclose then p.(txWaiting := true)
    else
      var q := SendFlags(p.(lseq := p.ackedLseq, txRetry := 3), c, FIN, ok);
      q.(lseq := Add32(q.lseq, 1), state := if q.rclose then LastAck else FinWait1, txWaiting := true)
  }

  // ---------- receiving ----------

  /** vsfip_tcp_async_recv: the first buffer of inq, if nobody waits for one and the peer has not closed. */
  function AsyncRecv(p: Pcb): (Pcb, Result, seq<Byte>) {
    if p.rxWaiting then (p, Bug, [])
    else if p.rclose then (p, Failed, [])
    else if p.inq == [] then (p, NotReady, [])
    else (p.(inq := p.inq[1..], fetched := p.fetched + p.inq[0]), Done, p.inq[0])
  }

  /** vsfip_tcp_recv up to the wait: whatever the refusal, it waits. Woken, it calls vsfip_tcp_async_recv. */
  function Recv(p: Pcb, rxTimeoutMs: nat): (Pcb, Result, seq<Byte>) {
    var (q, r, data) := AsyncRecv(p);
    if r.Done? then (q, r, data) else (q.(rxTimeout := rxTimeoutMs, rxWaiting := true), NotReady, [])
  }

  // ---------- the millisecond tick ----------

  /** The timer of an unanswered SYN or FIN; true says that the tick ends here. */
  function TickHandshake(p: Pcb, c: Config, ok: bool): (r: (Pcb, bool))
    ensures r.0.outq == p.outq
    ensures r.0.accepted == p.accepted && (r.0.state == p.state || r.0.state.Closed? || r.0.state.FinWait1? || r.0.state.LastAck?)
  {
    if p.txTimeout == 0 then (p, false)
    else if p.txTimeout > 1 then (p.(txTimeout := p.txTimeout - 1), false)
    else
      var q := p.(txTimeout := 0, txRetry := Down(p.txRetry, MOD32));
      if q.txRetry != 0 then
        var t := SendFlags(q.(lseq := q.ackedLseq), c, q.flags, ok);
        (if q.flags.syn || q.flags.fin then t.(lseq := Add32(t.lseq, 1)) else t, false)
      else if q.state.SynSent? || q.state.SynGet? || q.state.LastAck? then
        (q.(state := Closed, txWaiting := false), true)
      else
        (q.(txWaiting := false), true)
  }

  /** A queued buffer goes out again under its own number. */
  function Resend(p: Pcb, b: OutBuf): (r: Pcb)
    ensures Untouched(p, r) && r.txTimeout == p.txTimeout && r.lseq == p.lseq
    ensures b.room ==> r.sent == p.sent + [Head(p.(lseq := b.addr), PSH, b.data)]
    ensures !b.room ==> r.sent == p.sent
  {
    if b.room then SendDo(p.(lseq := b.addr), PSH, b.data).(lseq := p.lseq) else p
  }

  /** Everything in outq is given up and a FIN goes out. */
  function GiveUp(p: Pcb, c: Config, ok: bool): (r: Pcb)
    ensures r.accepted == p.accepted && (r.state == p.state || r.state.Closed? || r.state.FinWait1? || r.state.LastAck?)
  {
    var q := SendFlags(p.(outq := [], lseq := p.ackedLseq, txRetry := 3), c, FIN, ok);
    q.(lseq := Add32(q.lseq, 1), state := if q.rclose then LastAck else FinWait1, lclose := true, txWaiting := false)
  }

  /** The buffers from i on are aged; one whose time is up is sent again, or everything is given up. */
  function TickOut(p: Pcb, c: Config, i: nat, ok: bool): (r: (Pcb, bool))
    ensures r.0.accepted == p.accepted && (r.0.state == p.state || r.0.state.Closed? || r.0.state.FinWait1? || r.0.state.LastAck?)
    decreases |p.outq| - i
  {
    if i >= |p.outq| then (p, false)
    else
      var b := p.outq[i];
      var ttl := Down(b.ttl, MOD16);
      if ttl != 0 then
        TickOut(p.(outq := p.outq[i := b.(ttl := ttl)]), c, i + 1, ok)
      else if (b.retry == 0 || b.retry - 1 != 0) && !p.state.CloseWait? then
        var again := b.(ttl := c.txTimeoutMs % MOD16, retry := if b.retry == 0 then 0 else b.retry - 1);
        TickOut(Resend(p.(outq := p.outq[i := again]), b), c, i + 1, ok)
      else
        (GiveUp(p, c, ok), true)
  }

  /** The timer of a receiver that waits. */
  function RxTimer(p: Pcb): (r: Pcb)
    ensures r.outq == p.outq
    ensures r.accepted == p.accepted && (r.state == p.state || r.state.Closed? || r.state.FinWait1? || r.state.LastAck?)
  {
    if p.rxTimeout == 0 then p
    else if p.rxTimeout == 1 then p.(rxTimeout := 0, rxWaiting := false)
    else p.(rxTimeout := p.rxTimeout - 1)
  }

  function DelayedAck(p: Pcb, c: Config, ok: bool): (r: Pcb)
    ensures r.outq == p.outq
    ensures r.accepted == p.accepted && (r.state == p.state || r.state.Closed? || r.state.FinWait1? || r.state.LastAck?)
  {
    var q := p.(ackTick := Down(p.ackTick, MOD32));
    if q.ackTick == 0 then SendFlags(q, c, ACK, ok).(ackTick := TCP_ATO) else q
  }

  /** vsfip_tcp_socket_tick, for a socket that vsfip_close does not take away. ok, ok2 and ok3 are for
      the handshake, the FIN after giving up and the delayed ACK. */
  function Tick(p: Pcb, c: Config, ok: bool, ok2: bool, ok3: bool): (r: Pcb)
    ensures r.accepted == p.accepted && (r.state == p.state || r.state.Closed? || r.state.FinWait1? || r.state.LastAck?)
  {
    var (p1, done1) := TickHandshake(p, c, ok);
    if done1 then p1
    else if p1.rxTimeout == 1 then RxTimer(p1)
    else
      var (p3, done3) := TickOut(RxTimer(p1), c, 0, ok2);
      if done3 || p3.ackedRseq == p3.rseq then p3 else DelayedAck(p3, c, ok3)
  }
}
