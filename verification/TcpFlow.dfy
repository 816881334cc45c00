/** Flow of an end over its life: what its windows allow is kept, and who waits to send has something to wait for. */
module TcpFlow {
  import opened Wrappers
  import opened Tcp
  import opened TcpStream
  import opened TcpEnd
  import opened TcpStates
  import opened TcpNet
  import opened TcpPeer

  predicate InUse(p: Pcb) {
    p.state.Established? || p.state.CloseWait?
  }

  /** No more is queued than the own window allows. */
  predicate Bounded(p: Pcb) {
    OutLength(p.outq) <= p.txWindow
  }

  /** Who waits to send has something queued, whose acknowledgement will wake it, or whose end. */
  predicate Expects(p: Pcb) {
    InUse(p) && p.txWaiting ==> p.outq != []
  }

  /** What a tick does here: buffers are kept, or all given up and the end closed. */
  predicate Walked(p: Pcb, q: Pcb) {
    && q.txWindow == p.txWindow && OutLength(q.outq) <= OutLength(p.outq)
    && (InUse(q) ==> q.state == p.state && |q.outq| == |p.outq| && (q.txWaiting ==> p.txWaiting))
    && (Flagged(p) ==> Flagged(q))
  }

  lemma WalkedChain(p: Pcb, q: Pcb, r: Pcb)
    requires Walked(p, q) && Walked(q, r)
    ensures Walked(p, r)
  {
    hide Flagged;
  }

  lemma {:induction false} Shorter(q: seq<OutBuf>, number: Number)
    ensures OutLength(DropCovered(q, number)) <= OutLength(q)
  {
    if q != [] {
      Shorter(q[1..], number);
    }
  }

  lemma {:induction false} OneLonger(q: seq<OutBuf>, b: OutBuf)
    ensures OutLength(q + [b]) == OutLength(q) + |b.data|
  {
    if q == [] {
      assert [b][1..] == [];
    } else {
      OneLonger(q[1..], b);
      assert (q + [b])[1..] == q[1..] + [b];
    }
  }

  lemma {:induction false} SameLength(q: seq<OutBuf>, i: nat, b: OutBuf)
    requires i < |q| && b.data == q[i].data
    ensures OutLength(q[i := b]) == OutLength(q)
  {
    if i > 0 {
      SameLength(q[1..], i - 1, b);
      assert q[i := b][1..] == q[1..][i - 1 := b];
    } else {
      assert q[i := b][1..] == q[1..];
    }
  }

  // ---------- the tick ----------

  lemma GiveUpWalked(p: Pcb, c: Config, ok: bool)
    ensures Walked(p, GiveUp(p, c, ok))
  {
    hide SendFlags;
    hide Add32;
  }

  lemma OneWalked(p: Pcb, i: nat, b: OutBuf)
    requires i < |p.outq| && b.data == p.outq[i].data
    ensures var r := p.(outq := p.outq[i := b]); Walked(p, r) && Walked(p, Resend(r, p.outq[i]))
  {
    SameLength(p.outq, i, b);
    hide Resend;
    hide OutLength;
  }

  lemma {:induction false} WalkWalked(p: Pcb, c: Config, i: nat, ok: bool)
    ensures Walked(p, TickOut(p, c, i, ok).0)
    decreases |p.outq| - i
  {
    hide Resend;
    hide GiveUp;
    hide Walked;
    NotWalked(p);
    if i < |p.outq| {
      GiveUpWalked(p, c, ok);
      var b := p.outq[i];
      var aged := b.(ttl := Down(b.ttl, MOD16));
      var again := b.(ttl := c.txTimeoutMs % MOD16, retry := if b.retry == 0 then 0 else b.retry - 1);
      OneWalked(p, i, aged);
      OneWalked(p, i, again);
      if aged.ttl != 0 {
        var q := p.(outq := p.outq[i := aged]);
        WalkWalked(q, c, i + 1, ok);
        WalkedChain(p, q, TickOut(q, c, i + 1, ok).0);
      } else if (b.retry == 0 || b.retry - 1 != 0) && !p.state.CloseWait? {
        var q := Resend(p.(outq := p.outq[i := again]), b);
        WalkWalked(q, c, i + 1, ok);
        WalkedChain(p, q, TickOut(q, c, i + 1, ok).0);
      }
    }
  }

  lemma NotWalked(p: Pcb)
    ensures Walked(p, p)
  {
  }

  lemma RetryWalked(p: Pcb, c: Config, ok: bool, n: nat)
    ensures var t := SendFlags(p.(txTimeout := 0, txRetry := n, lseq := p.ackedLseq), c, p.flags, ok);
            Walked(p, t) && Walked(p, t.(lseq := Add32(t.lseq, 1)))
  {
    hide SendFlags;
    hide Add32;
    hide OutLength;
  }

  lemma HandshakeWalked(p: Pcb, c: Config, ok: bool)
    ensures Walked(p, TickHandshake(p, c, ok).0)
  {
    if p.txTimeout == 1 && Down(p.txRetry, MOD32) != 0 {
      RetryWalked(p, c, ok, Down(p.txRetry, MOD32));
    }
    hide SendFlags;
    hide Down;
    hide Add32;
    hide OutLength;
    hide Untouched;
  }

  lemma TimersWalked(p: Pcb, c: Config, ok: bool)
    ensures Walked(p, RxTimer(p)) && Walked(p, DelayedAck(p, c, ok))
  {
    hide SendFlags;
    hide Down;
    hide OutLength;
  }

  lemma TickWalked(p: Pcb, c: Config, ok: bool, ok2: bool, ok3: bool)
    ensures Walked(p, Tick(p, c, ok, ok2, ok3))
  {
    hide Walked;
    hide TickHandshake;
    hide RxTimer;
    hide TickOut;
    hide DelayedAck;
    HandshakeWalked(p, c, ok);
    var p1 := TickHandshake(p, c, ok).0;
    TimersWalked(p1, c, ok);
    WalkedChain(p, p1, RxTimer(p1));
    WalkWalked(RxTimer(p1), c, 0, ok2);
    var p3 := TickOut(RxTimer(p1), c, 0, ok2).0;
    WalkedChain(p, RxTimer(p1), p3);
    TimersWalked(p3, c, ok3);
    WalkedChain(p, p3, DelayedAck(p3, c, ok3));
  }

  // ---------- segments ----------

  lemma OpensAwake(p: Pcb, c: Config, s: Segment, ok: bool)
    ensures p.state.SynSent? && InUse(InSynSent(p, c, s, ok)) ==> !InSynSent(p, c, s, ok).txWaiting
    ensures p.state.SynGet? && InUse(InSynGet(p, c, s, ok)) ==> !InSynGet(p, c, s, ok).txWaiting
  {
    hide SendFlags;
    hide Add32;
  }

  lemma ComesIntoUse(p: Pcb, c: Config, s: Segment, ok: bool, ok2: bool)
    requires !InUse(p) && InUse(Input(p, c, s, ok, ok2)) && Flagged(p)
    ensures !Input(p, c, s, ok, ok2).txWaiting
  {
    StateDiagram(p, c, s, ok, ok2);
    OpensAwake(p.(rwnd := s.window), c, s, ok);
    hide InSynSent;
    hide InSynGet;
    hide InFinWait1;
    hide InFinWait2;
    hide InLastAck;
    hide SendFlags;
    hide Add32;
  }

  lemma WindowHalf(p: Pcb, c: Config, s: Segment, ok: bool)
    ensures TakeFin(p, c, s, ok).txWindow == RemoteClose(p, c, s, ok).txWindow == TakeAck(p, s).txWindow == p.txWindow
  {
    hide SendFlags;
    hide DropCovered;
    hide Add32;
  }

  lemma WindowData(p: Pcb, c: Config, s: Segment, ok: bool)
    ensures TakeData(p, c, s, ok).txWindow == DropData(p, c, s, ok).txWindow == p.txWindow
  {
    hide SendFlags;
    hide Add32;
  }

  lemma WindowUp(p: Pcb, c: Config, s: Segment, ok: bool, ok2: bool)
    ensures InEstablished(p, c, s, ok, ok2).txWindow == p.txWindow && TakeFin(TakeAck(p, s), c, s, ok2).txWindow == p.txWindow
  {
    var q := TakeData(p, c, s, ok);
    var r := if s.data != [] && p.rseq == s.number then q.(rxWaiting := false) else q;
    WindowData(p, c, s, ok);
    WindowHalf(r, c, s, ok2);
    WindowHalf(TakeAck(r, s), c, s, ok2);
    WindowHalf(p, c, s, ok2);
    WindowHalf(TakeAck(p, s), c, s, ok2);
    hide TakeData;
    hide TakeAck;
    hide TakeFin;
  }

  lemma WindowOpening(p: Pcb, c: Config, s: Segment, ok: bool)
    ensures InSynSent(p, c, s, ok).txWindow == p.txWindow && InSynGet(p, c, s, ok).txWindow == p.txWindow
  {
    WindowData(p.(txTimeout := 0, ackedLseq := s.ackNumber, lseq := s.ackNumber), c, s, ok);
    hide TakeData;
    hide SendFlags;
    hide Add32;
    hide Untouched;
    FlagsWindow(c, ok);
  }

  lemma FlagsWindow(c: Config, ok: bool)
    ensures forall p: Pcb, flags: Flags :: SendFlags(p, c, flags, ok).txWindow == p.txWindow
  {
    hide SendFlags;
  }

  lemma WindowClosing(p: Pcb, c: Config, s: Segment, ok: bool)
    ensures InFinWait1(p, c, s, ok).txWindow == p.txWindow && InFinWait2(p, c, s, ok).txWindow == p.txWindow
    ensures InLastAck(p, c, s, ok).txWindow == p.txWindow
  {
    var q := p.(lclose := true, txTimeout := 0, ackedLseq := p.lseq);
    WindowHalf(q, c, s, ok);
    WindowHalf(p, c, s, ok);
    WindowData(q.(state := FinWait2), c, s, ok);
    WindowData(p, c, s, ok);
    hide RemoteClose;
    hide DropData;
    hide SendFlags;
  }

  lemma InputBounded(p: Pcb, c: Config, s: Segment, ok: bool, ok2: bool)
    requires Bounded(p)
    ensures var q := Input(p, c, s, ok, ok2); Bounded(q) && q.txWindow == p.txWindow
  {
    Shorter(p.outq, s.ackNumber);
    var r := p.(rwnd := s.window);
    WindowUp(r, c, s, ok, ok2);
    WindowOpening(r, c, s, ok);
    WindowClosing(r, c, s, ok);
    hide InEstablished;
    hide InSynSent;
    hide InSynGet;
    hide InFinWait1;
    hide InFinWait2;
    hide InLastAck;
    hide TakeAck;
    hide TakeFin;
    hide SendFlags;
    hide DropCovered;
  }

  lemma InputExpects(p: Pcb, c: Config, s: Segment, ok: bool, ok2: bool)
    requires Expects(p) && Flagged(p)
    ensures Expects(Input(p, c, s, ok, ok2))
  {
    if InUse(Input(p, c, s, ok, ok2)) {
      if !InUse(p) {
        ComesIntoUse(p, c, s, ok, ok2);
      } else {
        StateDiagram(p, c, s, ok, ok2);
        WokenExactly(p, c, s, ok, ok2);
        if !s.flags.rst {
          OutqAfterInput(p, c, s, ok, ok2);
        }
      }
    }
    hide Input;
    hide Flagged;
  }

  // ---------- every event ----------

  lemma CloseFlow(p: Pcb, c: Config, ok: bool)
    requires Flagged(p)
    ensures var q := Close(p, c, ok);
            && Flagged(q) && q.outq == p.outq && q.txWindow == p.txWindow && !InUse(q)
            && (p.state.Established? ==> q.state.FinWait1?) && (p.state.CloseWait? ==> q.state.LastAck?)
  {
    hide SendFlags;
    hide Add32;
  }

  lemma SendFlow(p: Pcb, c: Config, data: seq<Byte>, routed: bool, stale: Number)
    requires Flagged(p) && Bounded(p)
    ensures var (q, r) := AsyncSend(p, c, data, routed, true, stale);
            && Flagged(q) && Bounded(q) && q.txWindow == p.txWindow && (Expects(p) ==> Expects(q))
            && (r.Done? ==> OutLength(q.outq) == OutLength(p.outq) + |data| <= p.rwnd)
  {
    OneLonger(p.outq, OutBuf(p.lseq, data, c.txTimeoutMs % MOD16, TCP_RETRY, true));
    hide SendDo;
    hide OutLength;
  }

  /** The sender waits with something queued; it found room otherwise. */
  predicate Calm(p: Pcb, op: Op) {
    op.Hold? ==> p.outq != []
  }

  lemma LocalFlow(p: Pcb, c: Config, op: Op, peer: Pcb)
    requires Flagged(p) && Bounded(p) && Possible(p, peer, op)
    ensures var q := Local(p, c, op);
            Flagged(q) && Bounded(q) && q.txWindow == p.txWindow && (Expects(p) && Calm(p, op) ==> Expects(q))
  {
    match op
    case Arrive(s, ok, ok2) =>
      FlagsKept(p, c, s, ok, ok2);
      InputBounded(p, c, s, ok, ok2);
      if Expects(p) {
        InputExpects(p, c, s, ok, ok2);
      }
      hide Input;
    case Timer(ok, ok2, ok3) =>
      TickWalked(p, c, ok, ok2, ok3);
      hide Tick;
      hide Flagged;
    case Send(data, routed, stale) =>
      SendFlow(p, c, data, routed, stale);
      hide AsyncSend;
    case Shut(ok) =>
      CloseFlow(p, c, ok);
      hide Close;
    case Take(wait) =>
    case Hold(size) =>
  }

  // ---------- whole lives ----------

  /** In this life the sender never starts to wait with nothing queued. */
  ghost predicate CalmLife(v: View, c: Config, run: seq<Event>)
    decreases |run|
  {
    run == [] || ((run[0].Here? ==> Calm(v.p, run[0].op)) && CalmLife(Next(v, c, run[0]), c, run[1..]))
  }

  lemma EventFlow(v: View, c: Config, irs: Number, e: Event)
    requires Flagged(v.p) && Bounded(v.p) && Fits(v, irs, e)
    ensures var w := Next(v, c, e);
            && Flagged(w.p) && Bounded(w.p) && w.p.txWindow == v.p.txWindow
            && (Expects(v.p) && (e.Here? ==> Calm(v.p, e.op)) ==> Expects(w.p))
  {
    hide Flagged;
    hide Bounded;
    hide Expects;
    hide Calm;
    hide Local;
    hide Proper;
    if e.Here? {
      LocalFlow(v.p, c, e.op, if e.op.Arrive? then v.p.(sent := [e.op.s]) else v.p);
    }
  }

  lemma {:induction false} LifeFlow(v: View, c: Config, irs: Number, run: seq<Event>)
    requires Flagged(v.p) && Bounded(v.p) && Life(v, c, irs, run)
    ensures var w := Later(v, c, run);
            && Flagged(w.p) && Bounded(w.p) && w.p.txWindow == v.p.txWindow
            && (Expects(v.p) && CalmLife(v, c, run) ==> Expects(w.p))
    decreases |run|
  {
    hide Flagged;
    hide Bounded;
    hide Expects;
    hide Calm;
    hide Fits;
    hide Next;
    if run != [] {
      EventFlow(v, c, irs, run[0]);
      LifeFlow(Next(v, c, run[0]), c, irs, run[1..]);
    }
  }

  /** Over every life, from the SYN or the answer to one: what is queued stays within the own window; an end that
      is up was closed by neither side, and one in CLOSE_WAIT by the peer alone; and a sender that waits has
      something queued, so that an acknowledgement or the end of all tries wakes it, unless it was ever put to
      waiting with nothing queued, for a buffer larger than a window. */
  lemma FlowOverLife(p: Pcb, c: Config, isn: Number, irs: Number, blank: Pcb, syn: Segment, ok: bool, run: seq<Event>)
    requires Fresh(p, c, isn, irs, blank, syn, ok) && Life(View(p, []), c, irs, run)
    ensures var q := Later(View(p, []), c, run).p;
            && q.txWindow == blank.txWindow && OutLength(q.outq) <= q.txWindow
            && (q.state.Established? ==> !q.rclose && !q.lclose) && (q.state.CloseWait? ==> q.rclose && !q.lclose)
            && (CalmLife(View(p, []), c, run) && (q.state.Established? || q.state.CloseWait?) && q.txWaiting ==> q.outq != [])
  {
    FreshFlow(p, c, isn, irs, blank, syn, ok);
    LifeFlow(View(p, []), c, irs, run);
  }

  lemma FreshFlow(p: Pcb, c: Config, isn: Number, irs: Number, blank: Pcb, syn: Segment, ok: bool)
    requires Fresh(p, c, isn, irs, blank, syn, ok)
    ensures Flagged(p) && Bounded(p) && Expects(p) && p.txWindow == blank.txWindow
  {
    hide SendFlags;
    hide Add32;
  }

  /** A sender put to waiting with nothing queued is not woken when the window opens, only by a reset: while nothing
      is sent an acknowledgement brings no new number. */
  lemma StalledSender(p: Pcb, c: Config, s: Segment, ok: bool, ok2: bool)
    requires InUse(p) && Flagged(p) && p.txWaiting && p.outq == [] && !s.flags.rst
    requires s.flags.ack ==> s.ackNumber == p.ackedLseq
    ensures var q := Input(p, c, s, ok, ok2); q.txWaiting && q.outq == [] && q.rwnd == s.window
    ensures InUse(Input(p, c, s, ok, ok2))
  {
    WokenExactly(p, c, s, ok, ok2);
    StateDiagram(p, c, s, ok, ok2);
    OutqAfterInput(p, c, s, ok, ok2);
    NewWindow(p, c, s, ok, ok2);
    hide Input;
  }

  lemma NewWindow(p: Pcb, c: Config, s: Segment, ok: bool, ok2: bool)
    requires InUse(p) && !s.flags.rst
    ensures Input(p, c, s, ok, ok2).rwnd == s.window
  {
    var r := p.(rwnd := s.window);
    RoomUp(r, c, s, ok2);
    if p.state.Established? {
      InputUp(p, c, s, ok, ok2);
      RoomEstablished(r, c, s, ok, ok2);
      hide Input;
    }
    hide InEstablished;
    hide TakeAck;
    hide TakeFin;
    hide SendFlags;
  }

  lemma RoomEstablished(p: Pcb, c: Config, s: Segment, ok: bool, ok2: bool)
    ensures InEstablished(p, c, s, ok, ok2).rwnd == p.rwnd
  {
    var q := TakeData(p, c, s, ok);
    RoomUp(if s.data != [] && p.rseq == s.number then q.(rxWaiting := false) else q, c, s, ok2);
    assert q.rwnd == p.rwnd by {
      hide SendFlags;
    }
    hide TakeData;
    hide TakeAck;
    hide TakeFin;
  }

  lemma RoomUp(p: Pcb, c: Config, s: Segment, ok: bool)
    ensures TakeFin(TakeAck(p, s), c, s, ok).rwnd == p.rwnd
  {
    hide SendFlags;
    hide DropCovered;
    hide Add32;
  }
}
