/** One end against any peer: whatever slices of its stream the peer puts into segments, in whatever order. */
module TcpPeer {
  import opened Wrappers
  import opened Tcp
  import opened TcpStream
  import opened TcpEnd
  import opened TcpInbox
  import opened TcpNet

  /** Something happens at this end, or the peer gets more to send. */
  datatype Event = Here(op: Op) | More(data: seq<Byte>)

  /** An end and all that the peer had to send so far. */
  datatype View = View(p: Pcb, stream: seq<Byte>)

  /** Any proper segment may arrive: data is some slice of the stream, and the answer to a SYN brings the
      peer's own. */
  ghost predicate Fits(v: View, irs: Number, e: Event) {
    match e
    case Here(op) =>
      if op.Arrive? then Proper(v.p, op.s, irs, v.stream) else Possible(v.p, v.p, op)
    case More(data) => |v.stream| + |data| < MOD32
  }

  function Next(v: View, c: Config, e: Event): View {
    match e
    case Here(op) => v.(p := Local(v.p, c, op))
    case More(data) => v.(stream := v.stream + data)
  }

  ghost predicate Life(v: View, c: Config, irs: Number, run: seq<Event>)
    decreases |run|
  {
    run == [] || (Fits(v, irs, run[0]) && Life(Next(v, c, run[0]), c, irs, run[1..]))
  }

  function Later(v: View, c: Config, run: seq<Event>): View
    decreases |run|
  {
    if run == [] then v else Later(Next(v, c, run[0]), c, run[1..])
  }

  ghost predicate Sound(v: View, isn: Number, irs: Number) {
    |v.stream| < MOD32 && Tx(v.p, isn) && Rx(v.p, irs, v.stream)
  }

  lemma EventKeeps(v: View, c: Config, e: Event, isn: Number, irs: Number)
    requires Sound(v, isn, irs) && Fits(v, irs, e)
    ensures Sound(Next(v, c, e), isn, irs)
  {
    hide Tx;
    hide Rx;
    hide Local;
    hide Proper;
    match e
    case Here(op) =>
      LocalKeeps(v.p, c, op, if op.Arrive? then v.p.(sent := [op.s]) else v.p, isn, irs, v.stream);
    case More(data) => RxGrows(v.p, irs, v.stream, v.stream + data);
  }

  lemma {:induction false} LifeKeeps(v: View, c: Config, run: seq<Event>, isn: Number, irs: Number)
    requires Sound(v, isn, irs) && Life(v, c, irs, run)
    ensures Sound(Later(v, c, run), isn, irs)
    decreases |run|
  {
    hide Sound;
    hide Fits;
    if run != [] {
      EventKeeps(v, c, run[0], isn, irs);
      LifeKeeps(Next(v, c, run[0]), c, run[1..], isn, irs);
    }
  }

  /** An end that has sent its SYN, or the child that a listener made for one, whether or not its answer
      found a buffer. */
  predicate Fresh(p: Pcb, c: Config, isn: Number, irs: Number, blank: Pcb, syn: Segment, ok: bool) {
    Blank(blank) && ((ok && p == Connect(blank, c, isn, ok)) || (syn.number == irs && p == Accept(blank, c, syn, isn, ok)))
  }

  lemma FreshIsSound(p: Pcb, c: Config, isn: Number, irs: Number, blank: Pcb, syn: Segment, ok: bool)
    requires Fresh(p, c, isn, irs, blank, syn, ok)
    ensures Sound(View(p, []), isn, irs)
  {
  }

  /** A listener makes a child exactly for a SYN that it may take; the child is such an end, for the peer that
      sent the SYN. */
  lemma ListenerMakesChild(p: Pcb, l: Listener, c: Config, s: Segment, tsn: Number, blank: Option<Pcb>, ok: bool, ok2: bool)
    requires blank.Some? ==> Blank(blank.value)
    ensures var (q, m, child) := ListenInput(p, l, c, s, tsn, blank, ok, ok2);
            && (child.Some? <==> p.state.Listen? && s.flags == SYN && l.accepted < l.backlog && !l.closing && blank.Some?)
            && (child.Some? ==> Sound(View(child.value, []), tsn, s.number) && m.accepted == l.accepted + 1 <= l.backlog)
            && (child.None? ==> m == l) && (l.backlog > 0 && s.flags != SYN ==> q == p)
  {
    hide Sound;
    hide Input;
    if blank.Some? {
      var b := blank.value.(txWaiting := p.txWaiting);
      FreshIsSound(Accept(b, c, s, tsn, ok), c, tsn, s.number, b, s, ok);
    }
  }

  /** No reset arrives. */
  predicate Unbroken(run: seq<Event>) {
    forall e :: e in run ==> !(e.Here? && IsReset(e.op))
  }

  lemma {:induction false} LifeInbox(v: View, c: Config, irs: Number, run: seq<Event>)
    requires Life(v, c, irs, run) && Inbox(v.p, c)
    ensures var w := Later(v, c, run); Inbox(w.p, c) && (Whole(v.p, c) && Unbroken(run) ==> Whole(w.p, c))
    decreases |run|
  {
    hide Inbox;
    hide Whole;
    hide Proper;
    hide Local;
    if run != [] {
      if run[0].Here? {
        LocalInbox(v.p, c, run[0].op);
      }
      LifeInbox(Next(v, c, run[0]), c, irs, run[1..]);
    }
  }

  lemma FreshInbox(p: Pcb, c: Config, isn: Number, irs: Number, blank: Pcb, syn: Segment, ok: bool)
    requires Fresh(p, c, isn, irs, blank, syn, ok)
    ensures Inbox(p, c) && Whole(p, c)
  {
    hide SendFlags;
  }

  /** Once the peer has closed nothing more is fetched, over every life: what inq still holds is lost to the
      application. */
  lemma {:induction false} ClosedUnread(v: View, c: Config, irs: Number, run: seq<Event>)
    requires Life(v, c, irs, run) && Inbox(v.p, c) && v.p.rclose && !InOpening(v.p)
    ensures Later(v, c, run).p.fetched == v.p.fetched
    decreases |run|
  {
    hide Inbox;
    hide Proper;
    hide Local;
    if run != [] {
      if run[0].Here? {
        LocalInbox(v.p, c, run[0].op);
        StaysClosed(v.p, c, run[0].op);
      }
      ClosedUnread(Next(v, c, run[0]), c, irs, run[1..]);
    }
  }

  lemma ResetClosed(p: Pcb, c: Config, s: Segment, ok: bool, ok2: bool)
    requires s.flags.rst
    ensures var q := Input(p, c, s, ok, ok2); q.rclose == p.rclose && q.state.Closed? && q.fetched == p.fetched
  {
  }

  lemma StaysClosed(p: Pcb, c: Config, op: Op)
    requires Inbox(p, c) && p.rclose && !InOpening(p)
    ensures var q := Local(p, c, op); q.rclose && !InOpening(q) && q.fetched == p.fetched
  {
    hide Whole;
    hide Emptied;
    match op
    case Arrive(s, ok, ok2) =>
      if s.flags.rst {
        ResetClosed(p, c, s, ok, ok2);
      } else {
        InputInbox(p, c, s, ok, ok2);
      }
      hide Input;
    case Take(wait) =>
    case _ =>
      hide Local;
      OtherOps(p, c, op);
  }

  /** Data that comes in the same segment as the FIN, while no receiver waits that would be called in between, is taken
      in, but never fetched, over every life after it. */
  lemma DataWithFin(v: View, c: Config, irs: Number, s: Segment, ok: bool, ok2: bool, run: seq<Event>)
    requires v.p.state.Established? && Inbox(v.p, c) && !c.hasCallback && !v.p.rxWaiting
    requires !s.flags.rst && s.flags.fin && s.data != [] && s.number == v.p.rseq
    requires Life(v.(p := Input(v.p, c, s, ok, ok2)), c, irs, run)
    ensures Input(v.p, c, s, ok, ok2).delivered == v.p.delivered + s.data
    ensures Later(v.(p := Input(v.p, c, s, ok, ok2)), c, run).p.fetched == v.p.fetched
  {
    DeliversExactly(v.p, c, s, ok, ok2);
    LocalInbox(v.p, c, Arrive(s, ok, ok2));
    InputInbox(v.p, c, s, ok, ok2);
    FinCloses(v.p, c, s, ok, ok2);
    hide Inbox;
    hide Input;
    hide Proper;
    ClosedUnread(v.(p := Input(v.p, c, s, ok, ok2)), c, irs, run);
  }

  lemma FinCloses(p: Pcb, c: Config, s: Segment, ok: bool, ok2: bool)
    requires p.state.Established? && !s.flags.rst && s.flags.fin
    ensures var q := Input(p, c, s, ok, ok2); q.rclose && !InOpening(q)
  {
    var p1 := p.(rwnd := s.window);
    var q := TakeData(p1, c, s, ok);
    var r := if s.data != [] && p1.rseq == s.number then q.(rxWaiting := false) else q;
    FinSets(TakeAck(r, s), c, s, ok2);
    hide TakeData;
    hide TakeAck;
    hide TakeFin;
  }

  lemma FinSets(p: Pcb, c: Config, s: Segment, ok: bool)
    requires s.flags.fin
    ensures TakeFin(p, c, s, ok).rclose && !InOpening(TakeFin(p, c, s, ok))
  {
    hide SendFlags;
  }

  /** In order, from any peer: under loss, repetition, reordering and re-slicing the application gets a
      prefix of the peer's stream, an end that is up expects exactly the byte that follows, what it sends
      are slices of its own stream, and the application gets every byte taken in. */
  lemma AnyPeerInOrder(p: Pcb, c: Config, isn: Number, irs: Number, blank: Pcb, syn: Segment, ok: bool, run: seq<Event>)
    requires Fresh(p, c, isn, irs, blank, syn, ok) && Life(View(p, []), c, irs, run)
    ensures var v := Later(View(p, []), c, run);
            && v.p.delivered <= v.stream
            && (v.p.state.Established? ==> v.p.rseq == Add32(irs, 1 + |v.p.delivered|))
            && (forall s :: s in v.p.sent ==> Genuine(s, isn, v.p.accepted))
            && Queued(v.p.outq, isn, v.p.accepted)
            && Given(v.p, c, !Unbroken(run)) && (v.p.rxWaiting && !v.p.rclose ==> v.p.inq == [])
  {
    FreshIsSound(p, c, isn, irs, blank, syn, ok);
    LifeKeeps(View(p, []), c, run, isn, irs);
    FreshInbox(p, c, isn, irs, blank, syn, ok);
    LifeInbox(View(p, []), c, irs, run);
    GivenOf(Later(View(p, []), c, run).p, c, !Unbroken(run));
    hide Given;
    hide Inbox;
    hide Whole;
    hide Unbroken;
    hide Queued;
    hide Genuine;
  }
}
