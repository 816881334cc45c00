/** Nothing that was accepted for sending is lost while both ends are up. */
module TcpLoss {
  import opened Wrappers
  import opened Tcp
  import opened TcpStream
  import opened TcpEnd
  import opened TcpNet

  // ---------- acknowledgements tell the truth ----------

  ghost predicate AckFor(number: Number, irs: Number, k: nat) {
    number == Add32(irs, 1 + k)
  }

  ghost predicate Acknowledges(number: Number, irs: Number, n: nat) {
    exists k: nat :: k <= n && AckFor(number, irs, k)
  }

  /** Every acknowledgement sent is for bytes that were handed on. */
  ghost predicate AllHonest(sent: seq<Segment>, irs: Number, n: nat) {
    forall s :: s in sent ==> !s.flags.ack || Acknowledges(s.ackNumber, irs, n)
  }

  predicate Up(p: Pcb) {
    p.state.SynSent? || p.state.SynGet? || p.state.Established?
  }

  predicate Sending(p: Pcb) {
    p.state.Established? || p.state.CloseWait?
  }

  ghost predicate Honest(p: Pcb, irs: Number) {
    Up(p) ==> AllHonest(p.sent, irs, |p.delivered|)
  }

  lemma HonestMore(sent: seq<Segment>, s: Segment, irs: Number, n: nat, m: nat)
    requires AllHonest(sent, irs, n) && n <= m && s.ackNumber == Add32(irs, 1 + m)
    ensures AllHonest(sent, irs, m) && AllHonest(sent + [s], irs, m)
  {
    forall x | x in sent ensures !x.flags.ack || Acknowledges(x.ackNumber, irs, m) {
    }
    assert AckFor(s.ackNumber, irs, m);
    assert Acknowledges(s.ackNumber, irs, m);
  }

  lemma HonestFlags(p: Pcb, c: Config, flags: Flags, ok: bool, irs: Number, n: nat)
    requires AllHonest(p.sent, irs, n) && n <= |p.delivered| && p.rseq == Add32(irs, 1 + |p.delivered|)
    ensures AllHonest(SendFlags(p, c, flags, ok).sent, irs, |p.delivered|)
  {
    hide AllHonest;
    HonestMore(p.sent, Head(p, flags, []), irs, n, |p.delivered|);
  }

  lemma BareIsHonest(sent: seq<Segment>, irs: Number, n: nat)
    requires BareSyns(sent)
    ensures AllHonest(sent, irs, n)
  {
  }

  lemma HonestData(p: Pcb, c: Config, s: Segment, ok: bool, irs: Number)
    requires AllHonest(p.sent, irs, |p.delivered|) && p.rseq == Add32(irs, 1 + |p.delivered|)
    ensures AllHonest(TakeData(p, c, s, ok).sent, irs, |TakeData(p, c, s, ok).delivered|)
  {
    hide AllHonest;
    if s.data != [] && p.rseq == s.number {
      NextNumber(irs, |p.delivered|, |s.data|);
      HonestMore(p.sent, Head(DataInput(p, c, s.data), ACK, []), irs, |p.delivered|, |p.delivered + s.data|);
    } else {
      HonestFlags(p, c, ACK, ok, irs, |p.delivered|);
    }
  }

  lemma StaysDown(p: Pcb, c: Config, s: Segment, ok: bool, ok2: bool)
    requires Up(Input(p, c, s, ok, ok2))
    ensures Up(p) && !s.flags.rst
  {
    hide SendFlags;
    hide TakeData;
    hide TakeAck;
    hide DropData;
  }

  lemma HonestSynSent(p: Pcb, c: Config, s: Segment, ok: bool, irs: Number)
    requires BareSyns(p.sent) && p.delivered == [] && s.number == irs && s.flags != SYN
    ensures var q := InSynSent(p, c, s, ok); AllHonest(q.sent, irs, |q.delivered|)
  {
    hide AllHonest;
    hide BareSyns;
    BareIsHonest(p.sent, irs, 0);
    HonestFlags(p.(txTimeout := 0, rseq := Add32(s.number, 1), ackedLseq := p.lseq), c, ACK, ok, irs, 0);
  }

  lemma HonestSynGet(p: Pcb, c: Config, s: Segment, ok: bool, irs: Number)
    requires AllHonest(p.sent, irs, 0) && p.delivered == [] && p.rseq == Add32(irs, 1)
    ensures var q := InSynGet(p, c, s, ok); Up(q) ==> AllHonest(q.sent, irs, |q.delivered|)
  {
    hide AllHonest;
    hide TakeData;
    hide SendFlags;
    hide Add32;
    HonestFlags(p.(lseq := p.ackedLseq, txRetry := 3), c, SYN_ACK, ok, irs, 0);
    HonestData(p.(txTimeout := 0, ackedLseq := s.ackNumber, lseq := s.ackNumber), c, s, ok, irs);
  }

  lemma HonestEstablished(p: Pcb, c: Config, s: Segment, ok: bool, ok2: bool, irs: Number)
    requires AllHonest(p.sent, irs, |p.delivered|) && p.rseq == Add32(irs, 1 + |p.delivered|) && p.state.Established?
    ensures var q := InEstablished(p, c, s, ok, ok2); Up(q) ==> AllHonest(q.sent, irs, |q.delivered|)
  {
    hide AllHonest;
    hide TakeData;
    hide TakeAck;
    hide TakeFin;
    HonestData(p, c, s, ok, irs);
  }

  lemma HonestInput(p0: Pcb, c: Config, s: Segment, ok: bool, ok2: bool, irs: Number, stream: seq<Byte>)
    requires Honest(p0, irs) && Rx(p0, irs, stream) && Proper(p0, s, irs, stream) && (p0.state.SynSent? ==> Asking(p0))
    ensures Honest(Input(p0, c, s, ok, ok2), irs)
  {
    hide AllHonest;
    hide Genuine;
    hide BareSyns;
    hide InSynSent;
    hide InSynGet;
    hide InEstablished;
    if Up(Input(p0, c, s, ok, ok2)) {
      StaysDown(p0, c, s, ok, ok2);
      var p := p0.(rwnd := s.window);
      match p.state
      case SynSent => HonestSynSent(p, c, s, ok, irs);
      case SynGet => HonestSynGet(p, c, s, ok, irs);
      case Established => HonestEstablished(p, c, s, ok, ok2, irs);
    }
  }

  lemma HonestResend(p: Pcb, b: OutBuf, irs: Number)
    requires AllHonest(p.sent, irs, |p.delivered|) && p.rseq == Add32(irs, 1 + |p.delivered|)
    ensures AllHonest(Resend(p, b).sent, irs, |p.delivered|)
  {
    hide AllHonest;
    HonestMore(p.sent, Head(p.(lseq := b.addr), PSH, b.data), irs, |p.delivered|, |p.delivered|);
  }

  lemma HonestGiveUp(p: Pcb, c: Config, ok: bool, irs: Number)
    requires AllHonest(p.sent, irs, |p.delivered|) && p.rseq == Add32(irs, 1 + |p.delivered|)
    ensures var q := GiveUp(p, c, ok);
            AllHonest(q.sent, irs, |q.delivered|) && q.delivered == p.delivered && q.rseq == p.rseq
  {
    hide AllHonest;
    HonestFlags(p.(outq := [], lseq := p.ackedLseq, txRetry := 3), c, FIN, ok, irs, |p.delivered|);
  }

  lemma {:induction false} HonestTickOut(p: Pcb, c: Config, i: nat, ok: bool, irs: Number)
    requires AllHonest(p.sent, irs, |p.delivered|) && p.rseq == Add32(irs, 1 + |p.delivered|)
    ensures var q := TickOut(p, c, i, ok).0;
            AllHonest(q.sent, irs, |q.delivered|) && q.delivered == p.delivered && q.rseq == p.rseq
    decreases |p.outq| - i
  {
    hide AllHonest;
    hide Resend;
    hide GiveUp;
    hide Add32;
    if i < |p.outq| {
      var b := p.outq[i];
      var aged := b.(ttl := Down(b.ttl, MOD16));
      var again := b.(ttl := c.txTimeoutMs % MOD16, retry := if b.retry == 0 then 0 else b.retry - 1);
      var r := Resend(p.(outq := p.outq[i := again]), b);
      HonestResend(p.(outq := p.outq[i := again]), b, irs);
      HonestGiveUp(p, c, ok, irs);
      if aged.ttl != 0 {
        HonestTickOut(p.(outq := p.outq[i := aged]), c, i + 1, ok, irs);
      } else if (b.retry == 0 || b.retry - 1 != 0) && !p.state.CloseWait? {
        HonestTickOut(r, c, i + 1, ok, irs);
      }
    }
  }

  lemma HonestHandshake(p: Pcb, c: Config, ok: bool, irs: Number)
    requires AllHonest(p.sent, irs, |p.delivered|) && p.rseq == Add32(irs, 1 + |p.delivered|)
    ensures var q := TickHandshake(p, c, ok).0;
            AllHonest(q.sent, irs, |q.delivered|) && q.delivered == p.delivered && q.rseq == p.rseq
  {
    hide AllHonest;
    hide SendFlags;
    hide Add32;
    HonestFlags(p.(txTimeout := 0, txRetry := Down(p.txRetry, MOD32), lseq := p.ackedLseq), c, p.flags, ok, irs, |p.delivered|);
  }

  lemma HonestTick(p: Pcb, c: Config, ok: bool, ok2: bool, ok3: bool, irs: Number)
    requires AllHonest(p.sent, irs, |p.delivered|) && p.rseq == Add32(irs, 1 + |p.delivered|)
    ensures var q := Tick(p, c, ok, ok2, ok3); AllHonest(q.sent, irs, |q.delivered|)
  {
    hide AllHonest;
    hide SendFlags;
    hide TickHandshake;
    hide TickOut;
    hide Add32;
    hide RxTimer;
    hide DelayedAck;
    HonestHandshake(p, c, ok, irs);
    var p1 := TickHandshake(p, c, ok).0;
    RxTimerHonest(p1);
    HonestTickOut(RxTimer(p1), c, 0, ok2, irs);
    HonestDelayed(TickOut(RxTimer(p1), c, 0, ok2).0, c, ok3, irs);
  }

  lemma RxTimerHonest(p: Pcb)
    ensures RxTimer(p).sent == p.sent && RxTimer(p).delivered == p.delivered && RxTimer(p).rseq == p.rseq
  {
  }

  lemma HonestDelayed(p: Pcb, c: Config, ok: bool, irs: Number)
    requires AllHonest(p.sent, irs, |p.delivered|) && p.rseq == Add32(irs, 1 + |p.delivered|)
    ensures var q := DelayedAck(p, c, ok); AllHonest(q.sent, irs, |q.delivered|)
  {
    hide AllHonest;
    hide SendFlags;
    hide Add32;
    HonestFlags(p.(ackTick := Down(p.ackTick, MOD32)), c, ACK, ok, irs, |p.delivered|);
  }

  lemma HonestSend(p: Pcb, c: Config, data: seq<Byte>, routed: bool, stale: Number, irs: Number)
    requires AllHonest(p.sent, irs, |p.delivered|) && p.rseq == Add32(irs, 1 + |p.delivered|)
    ensures var q := AsyncSend(p, c, data, routed, true, stale).0; AllHonest(q.sent, irs, |q.delivered|)
  {
    hide AllHonest;
    hide SendDo;
    hide Add32;
    var b := OutBuf(p.lseq, data, c.txTimeoutMs % MOD16, TCP_RETRY, true);
    var q := p.(outq := p.outq + [b], accepted := p.accepted + data);
    HonestMore(p.sent, Head(q, PSH, data), irs, |p.delivered|, |p.delivered|);
  }

  lemma LocalHonest(p: Pcb, c: Config, op: Op, peer: Pcb, isn: Number, irs: Number, stream: seq<Byte>)
    requires Possible(p, peer, op) && Tx(p, isn) && Rx(p, irs, stream) && Honest(p, irs)
    requires (p.state.SynSent? ==> Asking(p)) && (op.Arrive? ==> Proper(p, op.s, irs, stream))
    ensures Honest(Local(p, c, op), irs)
    ensures !op.Arrive? && Up(Local(p, c, op)) ==> Up(p)
  {
    hide AllHonest;
    hide BareSyns;
    hide Wire;
    hide Genuine;
    hide Input;
    hide Tick;
    match op
    case Arrive(s, ok, ok2) => HonestInput(p, c, s, ok, ok2, irs, stream);
    case Timer(ok, ok2, ok3) =>
      if p.state.SynSent? {
        AskingTicks(p, c, ok, ok2, ok3, isn);
        BareIsHonest(Tick(p, c, ok, ok2, ok3).sent, irs, |Tick(p, c, ok, ok2, ok3).delivered|);
      } else if Up(p) {
        HonestTick(p, c, ok, ok2, ok3, irs);
      }
    case Send(data, routed, stale) =>
      if Up(p) {
        HonestSend(p, c, data, routed, stale, irs);
      }
    case Shut(ok) =>
    case Take(_) =>
    case Hold(_) =>
  }

  // ---------- what is not delivered is still queued ----------

  /** Every byte past the first n is in outq. */
  ghost predicate KeepsAfter(p: Pcb, n: nat) {
    Sending(p) ==> Kept(p.outq, p.accepted) <= n
  }

  lemma StartsSending(p: Pcb, c: Config, s: Segment, ok: bool, ok2: bool, isn: Number)
    requires Numbers(p, isn) && Sending(Input(p, c, s, ok, ok2))
    ensures (Sending(p) || p.accepted == []) && !s.flags.rst
  {
    hide SendFlags;
    hide TakeData;
    hide TakeAck;
    hide DropData;
  }

  /** An honest acknowledgement takes only delivered bytes out of outq. */
  lemma HonestAckKeeps(p: Pcb, number: Number, isn: Number, n: nat)
    requires Wire(p, isn) && isn + 1 + |p.accepted| < MOD32 && Kept(p.outq, p.accepted) <= n <= |p.accepted|
    requires Acknowledges(number, isn, n)
    ensures Kept(DropCovered(p.outq, number), p.accepted) <= n
  {
    hide AllGenuine;
    var k: nat :| k <= n && AckFor(number, isn, k);
    var off := Kept(p.outq, p.accepted);
    NoWrap(p.outq, isn, p.accepted, off, k);
    LoopDropsExactly(p.outq, isn, p.accepted, off, k);
    UnackedFrom(p.outq, isn, p.accepted, off, k);
  }

  lemma KeptInput(p: Pcb, c: Config, s: Segment, ok: bool, ok2: bool, isn: Number, n: nat)
    requires Tx(p, isn) && isn + 1 + |p.accepted| < MOD32 && KeepsAfter(p, n) && n <= |p.accepted|
    requires s.flags.ack ==> Acknowledges(s.ackNumber, isn, n)
    ensures KeepsAfter(Input(p, c, s, ok, ok2), n)
  {
    hide Input;
    hide Wire;
    hide DropCovered;
    if Sending(Input(p, c, s, ok, ok2)) {
      StartsSending(p, c, s, ok, ok2, isn);
      if Sending(p) && s.flags.ack {
        HonestAckKeeps(p, s.ackNumber, isn, n);
      }
    }
  }

  lemma {:induction false} TickOutLength(p: Pcb, c: Config, i: nat, ok: bool)
    ensures var q := TickOut(p, c, i, ok).0; Sending(q) ==> OutLength(q.outq) == OutLength(p.outq)
    decreases |p.outq| - i
  {
    hide Resend;
    hide SendFlags;
    if i < |p.outq| {
      var b := p.outq[i];
      var aged := b.(ttl := Down(b.ttl, MOD16));
      var again := b.(ttl := c.txTimeoutMs % MOD16, retry := if b.retry == 0 then 0 else b.retry - 1);
      LengthAges(p.outq, i, aged);
      LengthAges(p.outq, i, again);
      TickOutLength(p.(outq := p.outq[i := aged]), c, i + 1, ok);
      TickOutLength(Resend(p.(outq := p.outq[i := again]), b), c, i + 1, ok);
    }
  }

  lemma {:induction false} LengthAges(q: seq<OutBuf>, i: nat, b: OutBuf)
    requires i < |q| && b.data == q[i].data
    ensures OutLength(q[i := b]) == OutLength(q)
  {
    if i > 0 {
      LengthAges(q[1..], i - 1, b);
      assert q[i := b][1..] == q[1..][i - 1 := b];
    } else {
      assert q[i := b][1..] == q[1..];
    }
  }

  lemma KeptTick(p: Pcb, c: Config, ok: bool, ok2: bool, ok3: bool, n: nat)
    requires KeepsAfter(p, n)
    ensures KeepsAfter(Tick(p, c, ok, ok2, ok3), n)
  {
    hide TickHandshake;
    hide RxTimer;
    hide DelayedAck;
    hide TickOut;
    hide OutLength;
    TickOutLength(RxTimer(TickHandshake(p, c, ok).0), c, 0, ok2);
  }

  lemma KeptSend(p: Pcb, c: Config, data: seq<Byte>, routed: bool, stale: Number, isn: Number, n: nat)
    requires Tx(p, isn) && Sending(p) && KeepsAfter(p, n)
    ensures KeepsAfter(AsyncSend(p, c, data, routed, true, stale).0, n)
  {
    hide AllGenuine;
    hide QueueFrom;
    hide SendDo;
    var b := OutBuf(p.lseq, data, c.txTimeoutMs % MOD16, TCP_RETRY, true);
    var off := Kept(p.outq, p.accepted);
    QueueAppends(p.outq, b, isn, p.accepted, off);
    QueueMeasured(p.outq + [b], isn, p.accepted + data, off);
  }

  lemma LocalKept(p: Pcb, c: Config, op: Op, peer: Pcb, isn: Number, n: nat)
    requires Possible(p, peer, op) && Tx(p, isn) && KeepsAfter(p, n) && n <= |p.accepted| && isn + 1 + |p.accepted| < MOD32
    requires op.Arrive? && op.s.flags.ack ==> Acknowledges(op.s.ackNumber, isn, n)
    ensures KeepsAfter(Local(p, c, op), n)
  {
    hide Tx;
    hide KeepsAfter;
    hide Acknowledges;
    match op
    case Arrive(s, ok, ok2) => KeptInput(p, c, s, ok, ok2, isn, n);
    case Timer(ok, ok2, ok3) => KeptTick(p, c, ok, ok2, ok3, n);
    case Send(data, routed, stale) => KeptSend(p, c, data, routed, stale, isn, n);
    case Shut(ok) => KeptClose(p, c, ok, n);
    case Take(wait) => KeptTake(p, c, op, n);
    case Hold(_) => KeptTake(p, c, op, n);
  }

  lemma KeptTake(p: Pcb, c: Config, op: Op, n: nat)
    requires KeepsAfter(p, n) && (op.Take? || op.Hold?)
    ensures KeepsAfter(Local(p, c, op), n)
  {
    hide OutLength;
  }

  lemma KeptClose(p: Pcb, c: Config, ok: bool, n: nat)
    requires KeepsAfter(p, n)
    ensures KeepsAfter(Close(p, c, ok), n)
  {
    hide OutLength;
  }

  // ---------- every run ----------

  ghost predicate Trust(n: Net, u: Setup) {
    Honest(n.a, u.isnB) && Honest(n.b, u.isnA)
  }

  /** While q is up, p still holds all that q was not given, as long as p's numbers do not wrap. */
  ghost predicate Backed(p: Pcb, q: Pcb, isn: Number) {
    Up(q) && isn + 1 + |p.accepted| < MOD32 ==> KeepsAfter(p, |q.delivered|)
  }

  ghost predicate Safe(n: Net, u: Setup) {
    Inv(n, u) && Trust(n, u) && Backed(n.a, n.b, u.isnA) && Backed(n.b, n.a, u.isnB)
  }

  lemma TrustKept(n: Net, u: Setup, t: Step)
    requires Inv(n, u) && Enabled(n, t) && Trust(n, u)
    ensures Trust(Do(n, u, t), u)
  {
    hide Honest;
    hide Local;
    hide Possible;
    hide Tx;
    hide Rx;
    hide Proper;
    hide Asking;
    hide Quiet;
    if t.op.Arrive? {
      ArrivalProper(n, u, t);
    }
    if t.atA {
      LocalHonest(n.a, u.ca, t.op, n.b, u.isnA, u.isnB, n.b.accepted);
    } else {
      LocalHonest(n.b, u.cb, t.op, n.a, u.isnB, u.isnA, n.a.accepted);
    }
  }

  lemma BackedBySender(p: Pcb, c: Config, op: Op, q: Pcb, isn: Number, irs: Number, stream: seq<Byte>)
    requires Possible(p, q, op) && Tx(p, isn) && Sides(p, Local(p, c, op), isn, irs, stream)
    requires Honest(q, isn) && q.delivered <= p.accepted && Backed(p, q, isn)
    ensures Backed(Local(p, c, op), q, isn)
  {
    hide Tx;
    hide Rx;
    hide Local;
    hide KeepsAfter;
    hide Acknowledges;
    var r := Local(p, c, op);
    if Up(q) && isn + 1 + |r.accepted| < MOD32 {
      LocalKept(p, c, op, q, isn, |q.delivered|);
    }
  }

  lemma StillUp(q: Pcb, c: Config, op: Op, p: Pcb)
    requires Possible(q, p, op) && Up(Local(q, c, op))
    ensures Up(q)
  {
    hide Input;
    hide Tick;
    hide Close;
    match op
    case Arrive(s, ok, ok2) => StaysDown(q, c, s, ok, ok2);
    case _ =>
  }

  lemma BackedByReceiver(p: Pcb, c: Config, op: Op, q: Pcb, isn: Number)
    requires Possible(q, p, op) && q.delivered <= Local(q, c, op).delivered && Backed(p, q, isn)
    ensures Backed(p, Local(q, c, op), isn)
  {
    hide Local;
    hide Possible;
    if Up(Local(q, c, op)) {
      StillUp(q, c, op, p);
    }
  }

  lemma SafeKept(n: Net, u: Setup, t: Step)
    requires Safe(n, u) && Enabled(n, t)
    ensures Safe(Do(n, u, t), u)
  {
    TrustKept(n, u, t);
    StepKeeps(n, u, t);
    if t.op.Arrive? {
      ArrivalProper(n, u, t);
    }
    hide Honest;
    hide Handshake;
    hide Local;
    hide Possible;
    hide Tx;
    hide Backed;
    hide Proper;
    if t.atA {
      LocalKeeps(n.a, u.ca, t.op, n.b, u.isnA, u.isnB, n.b.accepted);
      BackedBySender(n.a, u.ca, t.op, n.b, u.isnA, u.isnB, n.b.accepted);
      BackedByReceiver(n.b, u.ca, t.op, n.a, u.isnB);
    } else {
      LocalKeeps(n.b, u.cb, t.op, n.a, u.isnB, u.isnA, n.a.accepted);
      BackedBySender(n.b, u.cb, t.op, n.a, u.isnB, u.isnA, n.a.accepted);
      BackedByReceiver(n.a, u.cb, t.op, n.b, u.isnA);
    }
  }

  lemma StartsSafe(n: Net, u: Setup, p: Pcb, q: Pcb)
    requires Start(n, u, p, q)
    ensures Safe(n, u)
  {
    StartsWell(n, u, p, q);
    assert n.a.sent == [Head(p.(lseq := u.isnA, ackedLseq := u.isnA, rseq := 0, txRetry := 3), SYN, [])];
    assert n.b.sent == [Head(q.(lseq := u.isnB, rseq := Add32(n.a.sent[0].number, 1)), SYN_ACK, [])];
    assert AckFor(n.b.sent[0].ackNumber, u.isnA, 0);
  }

  lemma {:induction false} RunSafe(n: Net, u: Setup, run: seq<Step>)
    requires Safe(n, u) && Run(n, u, run)
    ensures Safe(After(n, u, run), u)
    decreases |run|
  {
    hide Safe;
    if run != [] {
      SafeKept(n, u, run[0]);
      RunSafe(Do(n, u, run[0]), u, run[1..]);
    }
  }

  /** Nothing is lost: while the sender may send and the receiver is up, what was handed on and what is
      in the retransmit queue together cover all that was accepted, however segments were lost,
      repeated or reordered. The sender's numbers must not have wrapped: see WrapLosesData. */
  lemma NothingLost(n: Net, u: Setup, p: Pcb, q: Pcb, run: seq<Step>)
    requires Start(n, u, p, q) && Run(n, u, run)
    ensures var m := After(n, u, run);
            && (Sending(m.a) && Up(m.b) && u.isnA + 1 + |m.a.accepted| < MOD32 ==> Covers(m.b.delivered, m.a))
            && (Sending(m.b) && Up(m.a) && u.isnB + 1 + |m.b.accepted| < MOD32 ==> Covers(m.a.delivered, m.b))
  {
    StartsSafe(n, u, p, q);
    RunSafe(n, u, run);
    var m := After(n, u, run);
    QueueHolds(m.a.outq, u.isnA, m.a.accepted, Kept(m.a.outq, m.a.accepted));
    QueueHolds(m.b.outq, u.isnB, m.b.accepted, Kept(m.b.outq, m.b.accepted));
  }

  /** What was delivered, and what is queued, are the accepted bytes up to some point and from an
      earlier or the same point on. */
  ghost predicate Covers(delivered: seq<Byte>, p: Pcb) {
    && delivered <= p.accepted
    && exists off: nat :: off <= |delivered| && Bytes(p.outq) == p.accepted[off..]
  }
}
