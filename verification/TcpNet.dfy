/** A client and the child a listener made for its SYN, over a network that loses, repeats and reorders
    segments. Every run hands the application at each end a prefix of what the other one sent. */
module TcpNet {
  import opened Wrappers
  import opened Tcp
  import opened TcpStream
  import opened TcpEnd
  import opened TcpInbox

  /** What can happen at one end. */
  datatype Op =
    | Arrive(s: Segment, ok: bool, ok2: bool)
    | Timer(ok: bool, ok2: bool, ok3: bool)
    | Send(data: seq<Byte>, routed: bool, stale: Number)
    | Shut(ok: bool)
    | Take(wait: Option<nat>)
    | Hold(size: nat)

  datatype Step = Step(atA: bool, op: Op)

  datatype Net = Net(a: Pcb, b: Pcb)

  datatype Setup = Setup(ca: Config, cb: Config, isnA: Number, isnB: Number)

  function Local(p: Pcb, c: Config, op: Op): Pcb {
    match op
    case Arrive(s, ok, ok2) => Input(p, c, s, ok, ok2)
    case Timer(ok, ok2, ok3) => Tick(p, c, ok, ok2, ok3)
    case Send(data, routed, stale) => AsyncSend(p, c, data, routed, true, stale).0
    case Shut(ok) => Close(p, c, ok)
    case Take(wait) => if wait.None? then AsyncRecv(p).0 else Recv(p, wait.value).0
    case Hold(_) => p.(txWaiting := true)
  }

  /** Any segment the peer ever sent may arrive, at any time and again. The application sends while
      the connection is up, fewer than 2^32 bytes in all, and waits when its buffer finds no room, or until
      what is queued is gone; it fetches, waits and closes once it was given the connection. */
  predicate Possible(p: Pcb, peer: Pcb, op: Op) {
    match op
    case Arrive(s, _, _) => s in peer.sent
    case Timer(_, _, _) => true
    case Send(data, _, _) => (p.state.Established? || p.state.CloseWait?) && |p.accepted| + |data| < MOD32
    case Shut(_) => !p.state.SynSent? && !p.state.SynGet?
    case Take(_) => !p.state.SynSent? && !p.state.SynGet?
    case Hold(size) =>
      && (p.state.Established? || p.state.CloseWait?) && !p.txWaiting && !p.lclose
      && (p.outq != [] || size > Min(p.txWindow, p.rwnd))
  }

  predicate Enabled(n: Net, t: Step) {
    if t.atA then Possible(n.a, n.b, t.op) else Possible(n.b, n.a, t.op)
  }

  function Do(n: Net, u: Setup, t: Step): Net {
    if t.atA then n.(a := Local(n.a, u.ca, t.op)) else n.(b := Local(n.b, u.cb, t.op))
  }

  predicate Run(n: Net, u: Setup, run: seq<Step>)
    decreases |run|
  {
    run == [] || (Enabled(n, run[0]) && Run(Do(n, u, run[0]), u, run[1..]))
  }

  function After(n: Net, u: Setup, run: seq<Step>): Net
    decreases |run|
  {
    if run == [] then n else After(Do(n, u, run[0]), u, run[1..])
  }

  /** The client has sent its SYN and a listener has answered it. */
  predicate Start(n: Net, u: Setup, p: Pcb, q: Pcb) {
    Blank(p) && Blank(q) && n.a == Connect(p, u.ca, u.isnA, true) && n.b == Accept(q, u.cb, n.a.sent[0], u.isnB, true)
  }

  // ---------- the opening ----------

  ghost predicate BareSyns(sent: seq<Segment>) {
    forall s :: s in sent ==> s.flags == SYN && s.data == []
  }

  /** Nothing goes out but resets and segments with the initial number, and no bare SYN. */
  ghost predicate Opening(sent: seq<Segment>, isn: Number) {
    forall s :: s in sent ==> s.flags.rst || (s.number == isn && s.flags != SYN)
  }

  /** The client as long as its SYN is unanswered. */
  ghost predicate Asking(p: Pcb) {
    p.rseq == 0 && p.ackedRseq == 0 && BareSyns(p.sent)
  }

  /** The server meanwhile. */
  ghost predicate Quiet(p: Pcb, isn: Number) {
    && (p.state.SynGet? || p.state.Closed? || p.state.FinWait1?) && p.ackedLseq == isn && p.ackedRseq == p.rseq
    && p.outq == [] && !p.rclose && p.flags != SYN && Opening(p.sent, isn)
  }

  lemma AskingSends(p: Pcb, c: Config, ok: bool)
    requires Asking(p)
    ensures Asking(SendFlags(p, c, SYN, ok))
  {
  }

  /** With nothing queued and nothing to acknowledge, only the timers move. */
  lemma IdleTick(p: Pcb, c: Config, ok: bool, ok2: bool, ok3: bool)
    requires var q := TickHandshake(p, c, ok).0; q.outq == [] && q.ackedRseq == q.rseq
    ensures var q := TickHandshake(p, c, ok).0; Tick(p, c, ok, ok2, ok3) == q || Tick(p, c, ok, ok2, ok3) == RxTimer(q)
  {
    hide TickHandshake;
    hide SendFlags;
    hide DelayedAck;
  }

  lemma AskingTicks(p: Pcb, c: Config, ok: bool, ok2: bool, ok3: bool, isn: Number)
    requires p.state.SynSent? && Numbers(p, isn) && Asking(p)
    ensures Asking(Tick(p, c, ok, ok2, ok3))
  {
    hide BareSyns;
    hide SendFlags;
    hide Tick;
    AskingSends(p.(txTimeout := 0, txRetry := Down(p.txRetry, MOD32), lseq := p.ackedLseq), c, ok);
    IdleTick(p, c, ok, ok2, ok3);
  }

  lemma AskingInput(p: Pcb, c: Config, s: Segment, ok: bool, ok2: bool)
    requires p.state.SynSent? && Asking(p)
    ensures Input(p, c, s, ok, ok2).state.SynSent? ==> Asking(Input(p, c, s, ok, ok2))
  {
  }

  lemma QuietSends(p: Pcb, c: Config, flags: Flags, ok: bool, isn: Number)
    requires Quiet(p, isn) && flags != SYN && (flags.rst || p.lseq == isn)
    ensures Quiet(SendFlags(p, c, flags, ok), isn)
  {
  }

  lemma QuietHandshake(p: Pcb, c: Config, ok: bool, isn: Number)
    requires Quiet(p, isn)
    ensures Quiet(TickHandshake(p, c, ok).0, isn)
  {
    hide SendFlags;
    hide Opening;
    var q := p.(txTimeout := 0, txRetry := Down(p.txRetry, MOD32), lseq := p.ackedLseq);
    QuietSends(q, c, q.flags, ok, isn);
  }

  lemma QuietTicks(p: Pcb, c: Config, ok: bool, ok2: bool, ok3: bool, isn: Number)
    requires Quiet(p, isn)
    ensures Quiet(Tick(p, c, ok, ok2, ok3), isn)
  {
    hide TickHandshake;
    hide Tick;
    hide Opening;
    QuietHandshake(p, c, ok, isn);
    IdleTick(p, c, ok, ok2, ok3);
  }

  lemma QuietInput(p: Pcb, c: Config, s: Segment, ok: bool, ok2: bool, isn: Number)
    requires Quiet(p, isn) && s.flags == SYN && s.data == []
    ensures Quiet(Input(p, c, s, ok, ok2), isn)
  {
  }

  lemma QuietCloses(p: Pcb, c: Config, ok: bool, isn: Number)
    requires Quiet(p, isn)
    ensures Quiet(Close(p, c, ok), isn)
  {
  }

  // ---------- what the application fetches ----------

  predicate IsReset(op: Op) {
    op.Arrive? && op.s.flags.rst
  }

  lemma LocalInbox(p: Pcb, c: Config, op: Op)
    requires Inbox(p, c) && (op.Take? ==> !p.state.SynSent? && !p.state.SynGet?)
    ensures Inbox(Local(p, c, op), c) && (Whole(p, c) && !IsReset(op) ==> Whole(Local(p, c, op), c))
  {
    var q := Local(p, c, op);
    match op
    case Arrive(s, ok, ok2) =>
      if s.flags.rst {
        ResetInbox(p, c, s, ok, ok2);
      } else {
        InputInbox(p, c, s, ok, ok2);
        hide Input;
        hide Unmoved;
        hide Grown;
        if Grown(p, q, c, s.data) {
          GrownWhole(p, q, c, s.data);
        } else {
          KeptWhole(p, q, c);
        }
      }
    case Take(wait) => RecvInbox(p, c, if wait.Some? then wait.value else 0);
    case _ =>
      hide Whole;
      hide Emptied;
      hide Awake;
      hide Unmoved;
      OtherOps(p, c, op);
      KeptWhole(p, q, c);
  }

  lemma OtherOps(p: Pcb, c: Config, op: Op)
    requires op.Timer? || op.Send? || op.Shut? || op.Hold?
    ensures Unmoved(p, Local(p, c, op))
  {
    hide Unmoved;
    match op
    case Timer(ok, ok2, ok3) => TickInbox(p, c, ok, ok2, ok3);
    case Send(data, routed, stale) => SendInbox(p, c, data, routed, true, stale);
    case Shut(ok) => CloseInbox(p, c, ok);
    case Hold(_) => HoldInbox(p);
  }

  /** No reset arrives at this end. */
  predicate Unreset(run: seq<Step>, atA: bool) {
    forall t :: t in run ==> !(t.atA == atA && IsReset(t.op))
  }

  lemma {:induction false} RunInbox(n: Net, u: Setup, run: seq<Step>)
    requires Run(n, u, run) && Inbox(n.a, u.ca) && Inbox(n.b, u.cb)
    ensures var m := After(n, u, run);
            && Inbox(m.a, u.ca) && (Whole(n.a, u.ca) && Unreset(run, true) ==> Whole(m.a, u.ca))
            && Inbox(m.b, u.cb) && (Whole(n.b, u.cb) && Unreset(run, false) ==> Whole(m.b, u.cb))
    decreases |run|
  {
    hide Inbox;
    hide Whole;
    if run != [] {
      StepInbox(n, u, run[0]);
      RunInbox(Do(n, u, run[0]), u, run[1..]);
    }
  }

  lemma StepInbox(n: Net, u: Setup, t: Step)
    requires Enabled(n, t) && Inbox(n.a, u.ca) && Inbox(n.b, u.cb)
    ensures var m := Do(n, u, t);
            && Inbox(m.a, u.ca) && (Whole(n.a, u.ca) && !(t.atA && IsReset(t.op)) ==> Whole(m.a, u.ca))
            && Inbox(m.b, u.cb) && (Whole(n.b, u.cb) && !(!t.atA && IsReset(t.op)) ==> Whole(m.b, u.cb))
  {
    hide Inbox;
    hide Whole;
    hide Local;
    if t.atA {
      LocalInbox(n.a, u.ca, t.op);
    } else {
      LocalInbox(n.b, u.cb, t.op);
    }
  }

  lemma StartInbox(n: Net, u: Setup, p: Pcb, q: Pcb)
    requires Start(n, u, p, q)
    ensures Whole(n.a, u.ca) && Inbox(n.a, u.ca) && Whole(n.b, u.cb) && Inbox(n.b, u.cb)
  {
    hide SendFlags;
  }

  // ---------- every run ----------

  /** While the client waits for its answer the server has sent nothing else. */
  ghost predicate Handshake(n: Net, u: Setup) {
    && !n.b.state.SynSent?
    && (n.a.state.SynSent? ==> Asking(n.a) && Quiet(n.b, u.isnB))
  }

  ghost predicate Ends(n: Net, u: Setup) {
    && |n.a.accepted| < MOD32 && |n.b.accepted| < MOD32
    && Tx(n.a, u.isnA) && Tx(n.b, u.isnB)
    && Rx(n.a, u.isnB, n.b.accepted) && Rx(n.b, u.isnA, n.a.accepted)
  }

  ghost predicate Inv(n: Net, u: Setup) {
    Ends(n, u) && Handshake(n, u)
  }

  lemma StartsWell(n: Net, u: Setup, p: Pcb, q: Pcb)
    requires Start(n, u, p, q)
    ensures Inv(n, u)
  {
    assert n.a.sent == [Head(p.(lseq := u.isnA, ackedLseq := u.isnA, rseq := 0, txRetry := 3), SYN, [])];
    assert n.b.sent == [Head(q.(lseq := u.isnB, rseq := Add32(n.a.sent[0].number, 1)), SYN_ACK, [])];
  }

  lemma SynSentStays(p: Pcb, c: Config, op: Op, peer: Pcb)
    requires Possible(p, peer, op) && Local(p, c, op).state.SynSent?
    ensures p.state.SynSent? && !op.Shut? && !op.Send?
  {
    hide Input;
    hide Tick;
  }

  /** One event at one end, on a segment that is proper. */
  lemma LocalKeeps(p: Pcb, c: Config, op: Op, peer: Pcb, isn: Number, irs: Number, stream: seq<Byte>)
    requires Possible(p, peer, op) && |stream| < MOD32 && Tx(p, isn) && Rx(p, irs, stream)
    requires op.Arrive? ==> Proper(p, op.s, irs, stream)
    ensures Sides(p, Local(p, c, op), isn, irs, stream)
  {
    hide Tx;
    hide Rx;
    hide Sides;
    hide Proper;
    match op
    case Arrive(s, ok, ok2) => InputKeeps(p, c, s, ok, ok2, isn, irs, stream);
    case Timer(ok, ok2, ok3) => TickKeeps(p, c, ok, ok2, ok3, isn, irs, stream);
    case Send(data, routed, stale) => SendKeeps(p, c, data, routed, stale, isn, irs, stream);
    case Shut(ok) => CloseKeeps(p, c, ok, isn, irs, stream);
    case Take(wait) => TakeKeeps(p, c, op, isn, irs, stream);
    case Hold(_) => HoldKeeps(p, isn, irs, stream);
  }

  lemma TakeKeeps(p: Pcb, c: Config, op: Op, isn: Number, irs: Number, stream: seq<Byte>)
    requires Tx(p, isn) && Rx(p, irs, stream) && op.Take?
    ensures Sides(p, Local(p, c, op), isn, irs, stream)
  {
    var q := Local(p, c, op);
    assert Still(p, q) && q.sent == p.sent;
    hide Local;
    hide Wire;
    hide Rx;
    hide Still;
    StillSends(p, q);
    WireSame(p, q, isn);
    StillKeeps(p, q, isn, irs, stream);
  }

  lemma StillSends(p: Pcb, q: Pcb)
    requires Still(p, q)
    ensures SenderKept(p, q)
  {
  }

  lemma HoldKeeps(p: Pcb, isn: Number, irs: Number, stream: seq<Byte>)
    requires Tx(p, isn) && Rx(p, irs, stream)
    ensures Sides(p, p.(txWaiting := true), isn, irs, stream)
  {
    hide Wire;
    hide Add32;
    WireSame(p, p.(txWaiting := true), isn);
  }

  lemma RxGrows(p: Pcb, irs: Number, stream: seq<Byte>, more: seq<Byte>)
    requires Rx(p, irs, stream) && stream <= more
    ensures Rx(p, irs, more)
  {
  }

  lemma StreamBounded(p: Pcb, c: Config, op: Op, peer: Pcb)
    requires Possible(p, peer, op) && |p.accepted| < MOD32
    ensures |Local(p, c, op).accepted| < MOD32
  {
    hide Input;
    hide Tick;
    hide Close;
  }

  lemma ArrivalProper(n: Net, u: Setup, t: Step)
    requires Inv(n, u) && Enabled(n, t) && t.op.Arrive?
    ensures if t.atA then Proper(n.a, t.op.s, u.isnB, n.b.accepted) else Proper(n.b, t.op.s, u.isnA, n.a.accepted)
  {
  }

  lemma EndsKept(n: Net, u: Setup, t: Step)
    requires Inv(n, u) && Enabled(n, t)
    ensures Ends(Do(n, u, t), u)
  {
    if t.op.Arrive? {
      ArrivalProper(n, u, t);
    }
    hide Local;
    hide Tx;
    hide Rx;
    hide Handshake;
    hide Possible;
    if t.atA {
      LocalKeeps(n.a, u.ca, t.op, n.b, u.isnA, u.isnB, n.b.accepted);
      StreamBounded(n.a, u.ca, t.op, n.b);
      RxGrows(n.b, u.isnA, n.a.accepted, Local(n.a, u.ca, t.op).accepted);
    } else {
      LocalKeeps(n.b, u.cb, t.op, n.a, u.isnB, u.isnA, n.a.accepted);
      StreamBounded(n.b, u.cb, t.op, n.a);
      RxGrows(n.a, u.isnB, n.b.accepted, Local(n.b, u.cb, t.op).accepted);
    }
  }

  lemma HandshakeKept(n: Net, u: Setup, t: Step)
    requires Inv(n, u) && Enabled(n, t)
    ensures Handshake(Do(n, u, t), u)
  {
    hide Input;
    hide Tick;
    hide AsyncSend;
    hide Close;
    hide Wire;
    hide Rx;
    var m := Do(n, u, t);
    if t.atA {
      if m.a.state.SynSent? {
        SynSentStays(n.a, u.ca, t.op, n.b);
        match t.op
        case Arrive(s, ok, ok2) => AskingInput(n.a, u.ca, s, ok, ok2);
        case Timer(ok, ok2, ok3) => AskingTicks(n.a, u.ca, ok, ok2, ok3, u.isnA);
        case _ =>
      }
    } else {
      if m.b.state.SynSent? {
        SynSentStays(n.b, u.cb, t.op, n.a);
      }
      if m.a.state.SynSent? {
        match t.op
        case Arrive(s, ok, ok2) => QuietInput(n.b, u.cb, s, ok, ok2, u.isnB);
        case Timer(ok, ok2, ok3) => QuietTicks(n.b, u.cb, ok, ok2, ok3, u.isnB);
        case Shut(ok) => QuietCloses(n.b, u.cb, ok, u.isnB);
        case _ =>
      }
    }
  }

  lemma {:induction false} RunKeeps(n: Net, u: Setup, run: seq<Step>)
    requires Inv(n, u) && Run(n, u, run)
    ensures Inv(After(n, u, run), u)
    decreases |run|
  {
    hide Inv;
    if run != [] {
      StepKeeps(n, u, run[0]);
      RunKeeps(Do(n, u, run[0]), u, run[1..]);
    }
  }

  lemma StepKeeps(n: Net, u: Setup, t: Step)
    requires Inv(n, u) && Enabled(n, t)
    ensures Inv(Do(n, u, t), u)
  {
    EndsKept(n, u, t);
    HandshakeKept(n, u, t);
    hide Ends;
    hide Handshake;
  }

  /** What the application at one end was given: with on_input all that was taken in; without it, what it
      fetched and what still waits for it in inq are together what was taken in, as long as no reset came. */
  ghost predicate Given(p: Pcb, c: Config, reset: bool) {
    if c.hasCallback then p.inq == [] && p.fetched == []
    else p.fetched <= p.delivered && (!reset ==> p.fetched + Joined(p.inq) == p.delivered)
  }

  /** In order, whatever the network did: what was taken in for either application is a prefix of what the other
      gave, an end that is up expects exactly the byte that follows, the application gets every byte taken
      in, and it does not wait for one that is there. */
  lemma DeliveredInOrder(n: Net, u: Setup, p: Pcb, q: Pcb, run: seq<Step>)
    requires Start(n, u, p, q) && Run(n, u, run)
    ensures var m := After(n, u, run);
            && m.a.delivered <= m.b.accepted && m.b.delivered <= m.a.accepted
            && (m.a.state.Established? ==> m.a.rseq == Add32(u.isnB, 1 + |m.a.delivered|))
            && (m.b.state.Established? ==> m.b.rseq == Add32(u.isnA, 1 + |m.b.delivered|))
            && Given(m.a, u.ca, !Unreset(run, true)) && Given(m.b, u.cb, !Unreset(run, false))
            && (m.a.rxWaiting && !m.a.rclose ==> m.a.inq == []) && (m.b.rxWaiting && !m.b.rclose ==> m.b.inq == [])
  {
    StartsWell(n, u, p, q);
    RunKeeps(n, u, run);
    StartInbox(n, u, p, q);
    RunInbox(n, u, run);
    var m := After(n, u, run);
    GivenOf(m.a, u.ca, !Unreset(run, true));
    GivenOf(m.b, u.cb, !Unreset(run, false));
    hide Given;
    hide Inbox;
    hide Whole;
    hide Unreset;
    hide Joined;
    hide Start;
    hide Run;
    hide After;
    hide Genuine;
    hide Queued;
    hide Handshake;
    hide Add32;
  }

  lemma GivenOf(p: Pcb, c: Config, reset: bool)
    requires Inbox(p, c) && (!reset ==> Whole(p, c))
    ensures Given(p, c, reset) && (p.rxWaiting && !p.rclose ==> p.inq == [])
  {
    hide Joined;
  }

  /** Whatever is on the wire, first sending or repeat, is a slice of its sender's stream under its own number,
      and the retransmit queue is the unacknowledged end of the stream up to lseq. */
  lemma SentIsGenuine(n: Net, u: Setup, p: Pcb, q: Pcb, run: seq<Step>)
    requires Start(n, u, p, q) && Run(n, u, run)
    ensures var m := After(n, u, run);
            && (forall s :: s in m.a.sent ==> Genuine(s, u.isnA, m.a.accepted))
            && (forall s :: s in m.b.sent ==> Genuine(s, u.isnB, m.b.accepted))
            && Queued(m.a.outq, u.isnA, m.a.accepted) && Queued(m.b.outq, u.isnB, m.b.accepted)
            && (m.a.state.Established? || m.a.state.CloseWait? ==> m.a.lseq == Add32(u.isnA, 1 + |m.a.accepted|))
            && (m.b.state.Established? || m.b.state.CloseWait? ==> m.b.lseq == Add32(u.isnB, 1 + |m.b.accepted|))
  {
    StartsWell(n, u, p, q);
    RunKeeps(n, u, run);
    hide Start;
    hide Run;
    hide After;
    hide Genuine;
    hide Queued;
    hide Handshake;
    hide Add32;
  }
}
