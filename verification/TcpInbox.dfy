/** What is taken in and what the application fetches: nothing is lost in between, until a reset. */
module TcpInbox {
  import opened Wrappers
  import opened Tcp

  function Joined(q: seq<seq<Byte>>): seq<Byte> {
    if q == [] then [] else q[0] + Joined(q[1..])
  }

  lemma {:induction false} JoinedMore(q: seq<seq<Byte>>, data: seq<Byte>)
    ensures Joined(q + [data]) == Joined(q) + data
  {
    if q == [] {
      assert [data][1..] == [];
    } else {
      JoinedMore(q[1..], data);
      assert (q + [data])[1..] == q[1..] + [data];
    }
  }

  /** Fetched and queued bytes together are those taken in; on_input takes all, if there is one. */
  predicate Whole(p: Pcb, c: Config) {
    if c.hasCallback then p.inq == [] && p.fetched == [] else p.fetched + Joined(p.inq) == p.delivered
  }

  predicate InOpening(p: Pcb) {
    p.state.SynSent? || p.state.SynGet?
  }

  /** After a reset nothing is queued and nothing more taken in. */
  predicate Emptied(p: Pcb) {
    p.inq == [] && p.fetched <= p.delivered && !InOpening(p) && !p.state.Established?
  }

  /** A receiver that waits although the peer has not closed has nothing to fetch: no wake-up is missed. */
  predicate Awake(p: Pcb) {
    && (p.rxWaiting && !p.rclose ==> p.inq == [])
    && (InOpening(p) ==> !p.rxWaiting)
  }

  predicate Inbox(p: Pcb, c: Config) {
    (Whole(p, c) || (!c.hasCallback && Emptied(p))) && Awake(p)
  }

  // ---------- what an event does to the queue ----------

  /** Nothing is taken in, nor is a receiver put to waiting, nor the peer's close forgotten. */
  predicate Unmoved(p: Pcb, q: Pcb) {
    && q.inq == p.inq && q.fetched == p.fetched && q.delivered == p.delivered
    && (q.rxWaiting ==> p.rxWaiting) && (p.rclose ==> q.rclose || InOpening(p))
    && (q.state.Established? ==> p.state.Established? || InOpening(p)) && (InOpening(q) ==> InOpening(p))
  }

  /** The data is taken in, and a receiver that waited is woken. */
  predicate Grown(p: Pcb, q: Pcb, c: Config, data: seq<Byte>) {
    && q.delivered == p.delivered + data && q.fetched == p.fetched
    && q.inq == (if c.hasCallback then p.inq else p.inq + [data])
    && !q.rxWaiting && (p.rclose ==> q.rclose || InOpening(p)) && (InOpening(p) || p.state.Established?) && !InOpening(q)
  }

  lemma KeptWhole(p: Pcb, q: Pcb, c: Config)
    requires Unmoved(p, q)
    ensures Whole(p, c) ==> Whole(q, c)
    ensures Emptied(p) ==> Emptied(q)
    ensures Awake(p) ==> Awake(q)
  {
  }

  lemma GrownWhole(p: Pcb, q: Pcb, c: Config, data: seq<Byte>)
    requires Grown(p, q, c, data)
    ensures Whole(p, c) ==> Whole(q, c)
    ensures !Emptied(p) && Awake(q)
  {
    JoinedMore(p.inq, data);
    assert p.fetched + Joined(p.inq) + data == p.fetched + (Joined(p.inq) + data);
  }

  lemma KeptChain(p: Pcb, q: Pcb, r: Pcb)
    requires Unmoved(p, q) && Unmoved(q, r)
    ensures Unmoved(p, r)
  {
  }

  lemma GrownThenKept(p: Pcb, q: Pcb, r: Pcb, c: Config, data: seq<Byte>)
    requires Grown(p, q, c, data) && Unmoved(q, r)
    ensures Grown(p, r, c, data)
  {
  }

  lemma AckInbox(p: Pcb, s: Segment)
    ensures Unmoved(p, TakeAck(p, s))
  {
    hide DropCovered;
  }

  lemma FinInbox(p: Pcb, c: Config, s: Segment, ok: bool)
    ensures Unmoved(p, RemoteClose(p, c, s, ok)) && Unmoved(p, TakeFin(p, c, s, ok))
  {
    hide SendFlags;
  }

  lemma DropInbox(p: Pcb, c: Config, s: Segment, ok: bool)
    ensures Unmoved(p, DropData(p, c, s, ok))
  {
    hide SendFlags;
  }

  lemma EstablishedInbox(p: Pcb, c: Config, s: Segment, ok: bool, ok2: bool)
    requires p.state.Established?
    ensures var q := InEstablished(p, c, s, ok, ok2);
            if s.data != [] && s.number == p.rseq then Grown(p, q, c, s.data) else Unmoved(p, q)
  {
    var q := TakeData(p, c, s, ok);
    var r := if s.data != [] && p.rseq == s.number then q.(rxWaiting := false) else q;
    assert if s.data != [] && s.number == p.rseq then Grown(p, r, c, s.data) else Unmoved(p, r) by {
      hide SendFlags;
    }
    hide Unmoved;
    hide Grown;
    hide TakeData;
    hide TakeAck;
    hide TakeFin;
    var t := TakeAck(r, s);
    AckInbox(r, s);
    FinInbox(t, c, s, ok2);
    KeptChain(r, t, TakeFin(t, c, s, ok2));
    if s.data != [] && s.number == p.rseq {
      GrownThenKept(p, r, TakeFin(t, c, s, ok2), c, s.data);
    } else {
      KeptChain(p, r, TakeFin(t, c, s, ok2));
    }
  }

  lemma SynGetInbox(p: Pcb, c: Config, s: Segment, ok: bool)
    requires p.state.SynGet? && !p.rxWaiting
    ensures var q := InSynGet(p, c, s, ok);
            if s.flags != SYN && s.flags.ack && s.ackNumber == Add32(p.ackedLseq, 1) && s.data != [] && s.number == p.rseq
            then Grown(p, q, c, s.data) else Unmoved(p, q)
  {
    hide SendFlags;
    hide Add32;
  }

  lemma FinWaitInbox(p: Pcb, c: Config, s: Segment, ok: bool)
    ensures p.state.FinWait1? ==> Unmoved(p, InFinWait1(p, c, s, ok))
    ensures p.state.FinWait2? ==> Unmoved(p, InFinWait2(p, c, s, ok))
  {
    hide RemoteClose;
    hide DropData;
    hide Unmoved;
    FinInbox(p, c, s, ok);
    DropInbox(p, c, s, ok);
    var q := p.(lclose := true, txTimeout := 0, ackedLseq := p.lseq);
    FinInbox(q, c, s, ok);
    DropInbox(q.(state := FinWait2), c, s, ok);
    if p.state.FinWait1? {
      Renamed(p, q);
      KeptChain(p, q, RemoteClose(q, c, s, ok));
      KeptChain(p, q.(state := FinWait2), DropData(q.(state := FinWait2), c, s, ok));
    }
  }

  lemma Renamed(p: Pcb, q: Pcb)
    requires q == p.(lclose := true, txTimeout := 0, ackedLseq := p.lseq)
    ensures Unmoved(p, q) && Unmoved(p, q.(state := FinWait2))
  {
  }

  lemma LastAckInbox(p: Pcb, c: Config, s: Segment, ok: bool)
    ensures p.state.LastAck? ==> Unmoved(p, InLastAck(p, c, s, ok))
    ensures Unmoved(p, SendFlags(p, c, RST, ok))
  {
    hide SendFlags;
  }

  lemma SynSentInbox(p: Pcb, c: Config, s: Segment, ok: bool)
    requires p.state.SynSent? && !p.rxWaiting
    ensures Unmoved(p, InSynSent(p, c, s, ok))
  {
    hide SendFlags;
    hide Add32;
  }

  /** A segment that is no reset takes in its data or changes nothing here. */
  lemma InputInbox(p0: Pcb, c: Config, s: Segment, ok: bool, ok2: bool)
    requires !s.flags.rst && Awake(p0)
    ensures var q := Input(p0, c, s, ok, ok2); Unmoved(p0, q) || Grown(p0, q, c, s.data)
  {
    hide InEstablished;
    hide InSynSent;
    hide InSynGet;
    hide InFinWait1;
    hide InFinWait2;
    hide InLastAck;
    hide TakeAck;
    hide TakeFin;
    hide SendFlags;
    var p := p0.(rwnd := s.window);
    match p.state
    case SynSent => SynSentInbox(p, c, s, ok);
    case SynGet => SynGetInbox(p, c, s, ok);
    case Established => EstablishedInbox(p, c, s, ok, ok2);
    case CloseWait =>
      AckInbox(p, s);
      FinInbox(TakeAck(p, s), c, s, ok2);
    case FinWait1 => FinWaitInbox(p, c, s, ok);
    case FinWait2 => FinWaitInbox(p, c, s, ok);
    case _ => LastAckInbox(p, c, s, ok);
  }

  lemma {:induction false} WalkInbox(p: Pcb, c: Config, i: nat, ok: bool)
    ensures Unmoved(p, TickOut(p, c, i, ok).0)
    decreases |p.outq| - i
  {
    hide Resend;
    hide SendFlags;
    if i < |p.outq| {
      var b := p.outq[i];
      var aged := b.(ttl := Down(b.ttl, MOD16));
      var again := b.(ttl := c.txTimeoutMs % MOD16, retry := if b.retry == 0 then 0 else b.retry - 1);
      if aged.ttl != 0 {
        WalkInbox(p.(outq := p.outq[i := aged]), c, i + 1, ok);
      } else if (b.retry == 0 || b.retry - 1 != 0) && !p.state.CloseWait? {
        WalkInbox(Resend(p.(outq := p.outq[i := again]), b), c, i + 1, ok);
      }
    }
  }

  lemma HandshakeInbox(p: Pcb, c: Config, ok: bool)
    ensures Unmoved(p, TickHandshake(p, c, ok).0)
  {
    if p.txTimeout == 1 && Down(p.txRetry, MOD32) != 0 {
      RetryInbox(p, c, ok, Down(p.txRetry, MOD32));
    }
    hide SendFlags;
    hide Down;
    hide Add32;
    hide Untouched;
  }

  lemma RetryInbox(p: Pcb, c: Config, ok: bool, n: nat)
    ensures var t := SendFlags(p.(txTimeout := 0, txRetry := n, lseq := p.ackedLseq), c, p.flags, ok);
            Unmoved(p, t) && Unmoved(p, t.(lseq := Add32(t.lseq, 1)))
  {
    hide SendFlags;
    hide Add32;
  }

  lemma TimersInbox(p: Pcb, c: Config, ok: bool)
    ensures Unmoved(p, RxTimer(p)) && Unmoved(p, DelayedAck(p, c, ok))
  {
    hide SendFlags;
    hide Down;
  }

  lemma CloseInbox(p: Pcb, c: Config, ok: bool)
    ensures Unmoved(p, Close(p, c, ok))
  {
    hide SendFlags;
    hide Add32;
  }

  lemma TickInbox(p: Pcb, c: Config, ok: bool, ok2: bool, ok3: bool)
    ensures Unmoved(p, Tick(p, c, ok, ok2, ok3))
  {
    hide Unmoved;
    hide TickHandshake;
    hide RxTimer;
    hide TickOut;
    hide DelayedAck;
    HandshakeInbox(p, c, ok);
    var p1 := TickHandshake(p, c, ok).0;
    TimersInbox(p1, c, ok);
    KeptChain(p, p1, RxTimer(p1));
    WalkInbox(RxTimer(p1), c, 0, ok2);
    var p3 := TickOut(RxTimer(p1), c, 0, ok2).0;
    KeptChain(p, RxTimer(p1), p3);
    TimersInbox(p3, c, ok3);
    KeptChain(p, p3, DelayedAck(p3, c, ok3));
  }

  lemma SendInbox(p: Pcb, c: Config, data: seq<Byte>, routed: bool, room: bool, stale: Number)
    ensures Unmoved(p, AsyncSend(p, c, data, routed, room, stale).0)
  {
    hide SendDo;
  }

  lemma HoldInbox(p: Pcb)
    ensures Unmoved(p, p.(txWaiting := true))
  {
  }

  /** Fetching takes the oldest buffer, so what is fetched and what is queued stay together as they were. */
  lemma RecvInbox(p: Pcb, c: Config, ms: nat)
    requires !InOpening(p) && Awake(p)
    ensures Whole(p, c) ==> Whole(AsyncRecv(p).0, c) && Whole(Recv(p, ms).0, c)
    ensures Emptied(p) ==> Emptied(AsyncRecv(p).0) && Emptied(Recv(p, ms).0)
    ensures Awake(AsyncRecv(p).0) && Awake(Recv(p, ms).0)
  {
    if p.inq != [] {
      assert p.fetched + (p.inq[0] + Joined(p.inq[1..])) == (p.fetched + p.inq[0]) + Joined(p.inq[1..]);
    }
  }

  lemma ResetInbox(p: Pcb, c: Config, s: Segment, ok: bool, ok2: bool)
    requires s.flags.rst && Inbox(p, c)
    ensures Inbox(Input(p, c, s, ok, ok2), c)
  {
  }
}
