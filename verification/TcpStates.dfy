/** What a segment does to the state of an end, to those that wait there, and what answers it. */
module TcpStates {
  import opened Wrappers
  import opened Tcp
  import opened TcpStream
  import opened TcpEnd

  /** The segment acknowledges the FIN that went out last. */
  predicate AcksFin(p: Pcb, s: Segment) {
    s.flags.ack && s.ackNumber == p.lseq
  }

  /** The segment brings a FIN, in a state that looks at it. */
  predicate FinTaken(p: Pcb, s: Segment) {
    s.flags.fin && (p.state.Established? || p.state.CloseWait? || p.state.FinWait2? || (p.state.FinWait1? && AcksFin(p, s)))
  }

  /** It answers the SYN of a client. */
  predicate AnswersSyn(p: Pcb, s: Segment) {
    p.state.SynSent? && s.flags != SYN && (s.flags.syn || s.flags.ack) && s.ackNumber == p.lseq
  }

  /** An end that is up is closed by neither side, one in CLOSE_WAIT by the peer alone. */
  predicate Flagged(p: Pcb) {
    && (p.state.Established? ==> !p.rclose && !p.lclose) && (p.state.CloseWait? ==> p.rclose && !p.lclose)
    && (p.state.FinWait2? ==> p.lclose)
  }

  // ---------- states ----------

  lemma DiagramUp(p: Pcb, c: Config, s: Segment, ok: bool, ok2: bool)
    requires Flagged(p)
    ensures p.state.Established? ==> InEstablished(p, c, s, ok, ok2).state == if s.flags.fin then CloseWait else Established
    ensures p.state.CloseWait? ==> TakeFin(TakeAck(p, s), c, s, ok2).state.CloseWait?
  {
    hide SendFlags;
    hide DropCovered;
  }

  lemma DiagramOpening(p: Pcb, c: Config, s: Segment, ok: bool)
    ensures p.state.SynSent? ==>
              InSynSent(p, c, s, ok).state == if s.flags == SYN then SynGet else if AnswersSyn(p, s) then Established else SynSent
    ensures p.state.SynGet? ==>
              InSynGet(p, c, s, ok).state ==
              if s.flags == SYN then SynGet else if Completes(p, s) then Established else if s.flags.fin then FinWait1 else SynGet
  {
    hide SendFlags;
    hide Add32;
  }

  lemma DiagramClosing(p: Pcb, c: Config, s: Segment, ok: bool)
    requires Flagged(p)
    ensures p.state.FinWait1? ==>
              InFinWait1(p, c, s, ok).state == if !AcksFin(p, s) then FinWait1 else if s.flags.fin then Closed else FinWait2
    ensures p.state.FinWait2? ==> InFinWait2(p, c, s, ok).state == if s.flags.fin then Closed else FinWait2
    ensures p.state.LastAck? ==> InLastAck(p, c, s, ok).state == if s.flags == ACK && s.ackNumber == p.lseq then Closed else LastAck
  {
    hide SendFlags;
    hide Add32;
  }

  /** The state diagram, by the states that a segment leads to: exactly when each is reached. There is no CLOSING and
      no TIME_WAIT: a FIN that comes before the own one is acknowledged is passed over, and the last one closes
      at once. */
  lemma StateDiagram(p: Pcb, c: Config, s: Segment, ok: bool, ok2: bool)
    requires Flagged(p)
    ensures var q := Input(p, c, s, ok, ok2);
            if s.flags.rst then q.state.Closed? else
            && (q.state.Established? <==> (p.state.Established? && !s.flags.fin) || AnswersSyn(p, s) || Completes(p, s))
            && (q.state.CloseWait? <==> (p.state.Established? && s.flags.fin) || p.state.CloseWait?)
            && (q.state.SynSent? <==> p.state.SynSent? && s.flags != SYN && !AnswersSyn(p, s))
            && (q.state.SynGet? <==> (s.flags == SYN && (p.state.SynSent? || p.state.SynGet?))
                                     || (p.state.SynGet? && !Completes(p, s) && !s.flags.fin))
            && (q.state.FinWait1? <==> (p.state.FinWait1? && !AcksFin(p, s))
                                       || (p.state.SynGet? && s.flags != SYN && !Completes(p, s) && s.flags.fin))
            && (q.state.FinWait2? <==> !s.flags.fin && (p.state.FinWait2? || (p.state.FinWait1? && AcksFin(p, s))))
            && (q.state.LastAck? <==> p.state.LastAck? && !(s.flags == ACK && s.ackNumber == p.lseq))
  {
    var r := p.(rwnd := s.window);
    DiagramUp(r, c, s, ok, ok2);
    DiagramOpening(r, c, s, ok);
    DiagramClosing(r, c, s, ok);
    hide InEstablished;
    hide InSynSent;
    hide InSynGet;
    hide InFinWait1;
    hide InFinWait2;
    hide InLastAck;
    hide TakeAck;
    hide TakeFin;
    hide SendFlags;
    hide Add32;
  }

  lemma FlagsUp(p: Pcb, c: Config, s: Segment, ok: bool, ok2: bool)
    requires Flagged(p)
    ensures p.state.Established? ==> Flagged(InEstablished(p, c, s, ok, ok2))
    ensures p.state.CloseWait? ==> Flagged(TakeFin(TakeAck(p, s), c, s, ok2))
  {
    var q := TakeData(p, c, s, ok);
    var r := if s.data != [] && p.rseq == s.number then q.(rxWaiting := false) else q;
    assert q.rclose == p.rclose && q.lclose == p.lclose by {
      hide SendFlags;
    }
    if p.state.Established? {
      FlagsHalf(r, c, s, ok2);
    } else if p.state.CloseWait? {
      FlagsHalf(p, c, s, ok2);
    }
    hide TakeData;
    hide TakeAck;
    hide TakeFin;
  }

  lemma FlagsHalf(p: Pcb, c: Config, s: Segment, ok2: bool)
    requires (p.state.Established? || p.state.CloseWait?) && Flagged(p)
    ensures Flagged(TakeFin(TakeAck(p, s), c, s, ok2))
  {
    hide SendFlags;
    hide DropCovered;
  }

  lemma FlagsOther(p: Pcb, c: Config, s: Segment, ok: bool)
    requires Flagged(p)
    ensures p.state.SynSent? ==> Flagged(InSynSent(p, c, s, ok))
    ensures p.state.SynGet? ==> Flagged(InSynGet(p, c, s, ok))
    ensures p.state.FinWait1? ==> Flagged(InFinWait1(p, c, s, ok))
    ensures p.state.FinWait2? ==> Flagged(InFinWait2(p, c, s, ok))
    ensures p.state.LastAck? ==> Flagged(InLastAck(p, c, s, ok))
  {
    hide SendFlags;
    hide Add32;
  }

  lemma FlagsKept(p: Pcb, c: Config, s: Segment, ok: bool, ok2: bool)
    requires Flagged(p)
    ensures Flagged(Input(p, c, s, ok, ok2))
  {
    var r := p.(rwnd := s.window);
    FlagsUp(r, c, s, ok, ok2);
    FlagsOther(r, c, s, ok);
    hide InEstablished;
    hide InSynSent;
    hide InSynGet;
    hide InFinWait1;
    hide InFinWait2;
    hide InLastAck;
    hide TakeAck;
    hide TakeFin;
    hide SendFlags;
  }

  // ---------- who is woken ----------

  lemma WokenUp(p: Pcb, c: Config, s: Segment, ok: bool, ok2: bool)
    requires p.state.Established?
    ensures var q := InEstablished(p, c, s, ok, ok2);
            && (q.rxWaiting <==> p.rxWaiting && !(s.data != [] && s.number == p.rseq) && !s.flags.fin)
            && (q.txWaiting <==> p.txWaiting && !(s.flags.ack && s.ackNumber != p.ackedLseq) && !(s.flags.fin && p.lclose))
  {
    var q := TakeData(p, c, s, ok);
    var r := if s.data != [] && p.rseq == s.number then q.(rxWaiting := false) else q;
    DataWakes(p, c, s, ok);
    WokenHalf(r, c, s, ok2);
    hide TakeData;
    hide TakeAck;
    hide TakeFin;
  }

  lemma DataWakes(p: Pcb, c: Config, s: Segment, ok: bool)
    ensures var q := TakeData(p, c, s, ok);
            q.rxWaiting == p.rxWaiting && q.txWaiting == p.txWaiting && q.ackedLseq == p.ackedLseq && q.lclose == p.lclose
  {
    hide SendFlags;
    hide Add32;
  }

  lemma WokenHalf(p: Pcb, c: Config, s: Segment, ok2: bool)
    ensures var q := TakeFin(TakeAck(p, s), c, s, ok2);
            && (q.rxWaiting <==> p.rxWaiting && !s.flags.fin)
            && (q.txWaiting <==> p.txWaiting && !(s.flags.ack && s.ackNumber != p.ackedLseq) && !(s.flags.fin && p.lclose))
  {
    hide SendFlags;
    hide DropCovered;
  }

  /** Who waits at an end that is up is woken exactly by this: a receiver by data that is in order, by a FIN and by a
      reset; a sender by an acknowledgement with a new number and by a reset. A wider window alone wakes nobody. */
  lemma WokenExactly(p: Pcb, c: Config, s: Segment, ok: bool, ok2: bool)
    requires (p.state.Established? || p.state.CloseWait?) && Flagged(p)
    ensures var q := Input(p, c, s, ok, ok2);
            && (q.rxWaiting <==> p.rxWaiting && !s.flags.rst && !s.flags.fin
                                 && !(p.state.Established? && s.data != [] && s.number == p.rseq))
            && (q.txWaiting <==> p.txWaiting && !s.flags.rst && !(s.flags.ack && s.ackNumber != p.ackedLseq))
  {
    var r := p.(rwnd := s.window);
    if p.state.Established? {
      WokenUp(r, c, s, ok, ok2);
    } else {
      WokenHalf(r, c, s, ok2);
    }
    hide InEstablished;
    hide TakeAck;
    hide TakeFin;
  }

  // ---------- what is answered ----------

  /** A bare acknowledgement. */
  predicate AckOf(s: Segment, number: Number, ackNumber: Number) {
    s.number == number && s.ackNumber == ackNumber && s.flags == ACK && s.data == []
  }

  /** An end that is up answers at once exactly this: data that is out of order, with what it expects, and a FIN,
      with the number after it. Data in order is acknowledged later (AcknowledgedInTime). */
  lemma AnswersExactly(p: Pcb, c: Config, s: Segment, ok: bool, ok2: bool) returns (more: seq<Segment>)
    requires p.state.Established? && !s.flags.rst
    ensures Input(p, c, s, ok, ok2).sent == p.sent + more
    ensures var late := s.data != [] && s.number != p.rseq && ok;
            && |more| == (if late then 1 else 0) + (if s.flags.fin && ok2 then 1 else 0)
            && (late ==> AckOf(more[0], p.lseq, p.rseq))
            && (s.flags.fin && ok2 ==> AckOf(more[|more| - 1], p.lseq, Add32(s.number, 1)))
  {
    var a, b := InputSent(p, c, s, ok, ok2);
    hide Input;
    hide Add32;
    hide AckOf;
    var one := if s.data != [] && s.number != p.rseq && ok then [a] else [];
    var two := if s.flags.fin && ok2 then [b] else [];
    more := one + two;
    assert (p.sent + one) + two == p.sent + more;
  }

  lemma InputSent(p: Pcb, c: Config, s: Segment, ok: bool, ok2: bool) returns (a: Segment, b: Segment)
    requires p.state.Established? && !s.flags.rst
    ensures AckOf(a, p.lseq, p.rseq) && AckOf(b, p.lseq, Add32(s.number, 1))
    ensures Input(p, c, s, ok, ok2).sent ==
            p.sent + (if s.data != [] && s.number != p.rseq && ok then [a] else []) + if s.flags.fin && ok2 then [b] else []
  {
    var r := p.(rwnd := s.window);
    InputUp(p, c, s, ok, ok2);
    var u := Answered(r, c, s, ok, ok2);
    BareAck(r);
    BareAck(u);
    a, b := Head(r, ACK, []), Head(u, ACK, []);
    hide Input;
    hide InEstablished;
    hide Head;
    hide Add32;
    hide AckOf;
  }

  lemma BareAck(p: Pcb)
    ensures AckOf(Head(p, ACK, []), p.lseq, p.rseq)
  {
  }

  lemma InputUp(p: Pcb, c: Config, s: Segment, ok: bool, ok2: bool)
    requires p.state.Established? && !s.flags.rst
    ensures Input(p, c, s, ok, ok2) == InEstablished(p.(rwnd := s.window), c, s, ok, ok2)
  {
    hide InEstablished;
    hide SendFlags;
  }

  /** The block that the answer to a FIN is sent from, and what both answers are. */
  lemma Answered(p: Pcb, c: Config, s: Segment, ok: bool, ok2: bool) returns (u: Pcb)
    requires p.state.Established?
    ensures u.lseq == p.lseq && u.rseq == Add32(s.number, 1)
    ensures InEstablished(p, c, s, ok, ok2).sent ==
            p.sent + (if s.data != [] && s.number != p.rseq && ok then [Head(p, ACK, [])] else [])
            + if s.flags.fin && ok2 then [Head(u, ACK, [])] else []
  {
    DataAnswer(p, c, s, ok);
    var q := TakeData(p, c, s, ok);
    hide TakeData;
    var r := if s.data != [] && p.rseq == s.number then q.(rxWaiting := false) else q;
    var t := TakeAck(r, s);
    assert t.sent == q.sent && t.lseq == p.lseq;
    FinAnswer(t, c, s, ok2);
    u := t.(rclose := true, rseq := Add32(s.number, 1));
    hide TakeFin;
    hide TakeAck;
    hide Head;
    hide Add32;
  }

  lemma DataAnswer(p: Pcb, c: Config, s: Segment, ok: bool)
    ensures var q := TakeData(p, c, s, ok);
            q.lseq == p.lseq && q.sent == p.sent + if s.data != [] && s.number != p.rseq && ok then [Head(p, ACK, [])] else []
  {
    hide SendFlags;
    hide Add32;
  }

  lemma FinAnswer(t: Pcb, c: Config, s: Segment, ok: bool)
    ensures TakeFin(t, c, s, ok).sent ==
            t.sent + if s.flags.fin && ok then [Head(t.(rclose := true, rseq := Add32(s.number, 1)), ACK, [])] else []
  {
    hide SendFlags;
    hide Add32;
  }

  /** Everything sent is these bare acknowledgements, of what is expected now: one if due, else none. */
  ghost predicate Acknowledged(p: Pcb, q: Pcb, due: bool, number: Number) {
    && |q.sent| == |p.sent| + (if due then 1 else 0) && q.sent[..|p.sent|] == p.sent
    && (due ==> AckOf(q.sent[|p.sent|], number, q.rseq))
  }

  lemma RemoteAnswer(p: Pcb, c: Config, s: Segment, ok: bool)
    ensures var q := RemoteClose(p, c, s, ok); q.rseq == Add32(s.number, 1) && Acknowledged(p, q, ok, p.lseq)
  {
    hide SendFlags;
    hide Add32;
  }

  lemma DropAnswer(p: Pcb, c: Config, s: Segment, ok: bool)
    ensures var q := DropData(p, c, s, ok);
            && q.rseq == (if s.data != [] && p.rseq == s.number then Add32(p.rseq, |s.data|) else p.rseq)
            && Acknowledged(p, q, s.data != [] && ok, p.lseq)
  {
    hide SendFlags;
    hide Add32;
  }

  lemma LastAnswer(p: Pcb, c: Config, s: Segment, ok: bool)
    ensures var q := InLastAck(p, c, s, ok); q.rseq == p.rseq && Acknowledged(p, q, s.flags.fin && ok, p.lseq)
  {
    hide SendFlags;
    hide Add32;
  }

  lemma FinWait1Answer(p: Pcb, c: Config, s: Segment, ok: bool)
    requires p.state.FinWait1?
    ensures var q := InFinWait1(p, c, s, ok);
            && q.rseq == (if FinTaken(p, s) then Add32(s.number, 1)
                          else if s.data != [] && s.number == p.rseq then Add32(p.rseq, |s.data|) else p.rseq)
            && Acknowledged(p, q, ok && (s.data != [] || FinTaken(p, s)), p.lseq)
  {
    var q := p.(lclose := true, txTimeout := 0, ackedLseq := p.lseq);
    RemoteAnswer(q, c, s, ok);
    DropAnswer(q.(state := FinWait2), c, s, ok);
    DropAnswer(p, c, s, ok);
    hide RemoteClose;
    hide DropData;
    hide Add32;
    hide AckOf;
  }

  lemma FinWait2Answer(p: Pcb, c: Config, s: Segment, ok: bool)
    requires p.state.FinWait2?
    ensures var q := InFinWait2(p, c, s, ok);
            && q.rseq == (if FinTaken(p, s) then Add32(s.number, 1)
                          else if s.data != [] && s.number == p.rseq then Add32(p.rseq, |s.data|) else p.rseq)
            && Acknowledged(p, q, ok && (s.data != [] || FinTaken(p, s)), p.lseq)
  {
    RemoteAnswer(p, c, s, ok);
    DropAnswer(p, c, s, ok);
    hide RemoteClose;
    hide DropData;
    hide Add32;
    hide AckOf;
  }

  lemma InputClosing(p: Pcb, c: Config, s: Segment, ok: bool, ok2: bool)
    requires !s.flags.rst
    ensures var r := p.(rwnd := s.window);
            && (p.state.FinWait1? ==> Input(p, c, s, ok, ok2) == InFinWait1(r, c, s, ok))
            && (p.state.FinWait2? ==> Input(p, c, s, ok, ok2) == InFinWait2(r, c, s, ok))
            && (p.state.LastAck? ==> Input(p, c, s, ok, ok2) == InLastAck(r, c, s, ok))
  {
    hide InFinWait1;
    hide InFinWait2;
    hide InLastAck;
  }

  /** An end that has closed acknowledges, up to where it then is, exactly data, in order or not, the FIN, and in LAST_ACK
      only a FIN that comes again. */
  lemma ClosingAnswers(p: Pcb, c: Config, s: Segment, ok: bool, ok2: bool)
    requires (p.state.FinWait1? || p.state.FinWait2? || p.state.LastAck?) && !s.flags.rst
    ensures var q := Input(p, c, s, ok, ok2);
            && Acknowledged(p, q, ok && (if p.state.LastAck? then s.flags.fin else s.data != [] || FinTaken(p, s)), p.lseq)
            && q.rseq == (if FinTaken(p, s) then Add32(s.number, 1)
                          else if !p.state.LastAck? && s.data != [] && s.number == p.rseq then Add32(p.rseq, |s.data|) else p.rseq)
  {
    var r := p.(rwnd := s.window);
    InputClosing(p, c, s, ok, ok2);
    hide Input;
    hide AckOf;
    hide Add32;
    match p.state
    case FinWait1 => FinWait1Answer(r, c, s, ok);
    case FinWait2 => FinWait2Answer(r, c, s, ok);
    case LastAck => LastAnswer(r, c, s, ok);
    hide InFinWait1;
    hide InFinWait2;
    hide InLastAck;
  }

  /** The timer of a SYN or FIN that is out stops exactly when that is acknowledged, or the end is reset; an end that
      opens and gets a SYN starts it anew. */
  lemma TimerStopsExactly(p: Pcb, c: Config, s: Segment, ok: bool, ok2: bool)
    requires p.txTimeout > 0 && c.txTimeoutMs > 0
    requires p.state.SynSent? || p.state.SynGet? || p.state.FinWait1? || p.state.LastAck?
    ensures Input(p, c, s, ok, ok2).txTimeout == 0 <==>
            || s.flags.rst || AnswersSyn(p, s) || Completes(p, s) || (p.state.FinWait1? && AcksFin(p, s))
            || (p.state.LastAck? && s.flags == ACK && s.ackNumber == p.lseq)
  {
    var r := p.(rwnd := s.window);
    OpeningTimer(r, c, s, ok);
    ClosingTimer(r, c, s, ok);
    hide InSynSent;
    hide InSynGet;
    hide InFinWait1;
    hide InLastAck;
    hide SendFlags;
    hide Add32;
  }

  lemma OpeningTimer(p: Pcb, c: Config, s: Segment, ok: bool)
    requires p.txTimeout > 0 && c.txTimeoutMs > 0
    ensures p.state.SynSent? ==> (InSynSent(p, c, s, ok).txTimeout == 0 <==> AnswersSyn(p, s))
    ensures p.state.SynGet? ==> (InSynGet(p, c, s, ok).txTimeout == 0 <==> Completes(p, s))
  {
    hide SendFlags;
    hide Add32;
  }

  lemma ClosingTimer(p: Pcb, c: Config, s: Segment, ok: bool)
    requires p.txTimeout > 0 && c.txTimeoutMs > 0
    ensures p.state.FinWait1? ==> (InFinWait1(p, c, s, ok).txTimeout == 0 <==> AcksFin(p, s))
    ensures p.state.LastAck? ==> (InLastAck(p, c, s, ok).txTimeout == 0 <==> s.flags == ACK && s.ackNumber == p.lseq)
  {
    hide SendFlags;
    hide Add32;
  }

  /** What an end that opens answers: a SYN with SYN and ACK, in SYN_SENT under the number after its own SYN, later
      under the number of that; the answer to its SYN with an acknowledgement; data out of order, with what completes
      the opening, with what it expects; and a FIN that completes nothing with a FIN. */
  lemma OpeningAnswers(p: Pcb, c: Config, s: Segment, ok2: bool) returns (more: seq<Segment>)
    requires (p.state.SynSent? || p.state.SynGet?) && !s.flags.rst && (p.state.SynGet? ==> p.rseq != 0)
    ensures Input(p, c, s, true, ok2).sent == p.sent + more && |more| <= 1
    ensures s.flags == SYN ==> |more| == 1 && more[0].flags == SYN_ACK
    ensures s.flags == SYN && p.state.SynSent? ==> more[0].number == p.lseq && more[0].ackNumber == Add32(s.number, 1)
    ensures s.flags == SYN && p.state.SynGet? ==> more[0].number == p.ackedLseq && more[0].ackNumber == p.rseq
    ensures AnswersSyn(p, s) ==> |more| == 1 && AckOf(more[0], p.lseq, Add32(s.number, 1))
    ensures s.flags != SYN && p.state.SynSent? && !AnswersSyn(p, s) ==> more == []
    ensures Completes(p, s) ==> |more| == if s.data != [] && s.number != p.rseq then 1 else 0
    ensures Completes(p, s) && more != [] ==> AckOf(more[0], s.ackNumber, p.rseq)
    ensures s.flags != SYN && p.state.SynGet? && !Completes(p, s) ==> |more| == if s.flags.fin then 1 else 0
    ensures s.flags != SYN && p.state.SynGet? && !Completes(p, s) && more != [] ==> more[0].flags == FIN.(ack := true) && more[0].number == p.lseq
  {
    var r := p.(rwnd := s.window);
    if p.state.SynSent? {
      more := SynSentAnswers(r, c, s);
    } else {
      more := SynGetAnswers(r, c, s);
    }
    hide InSynSent;
    hide InSynGet;
    hide SendFlags;
    hide Add32;
  }

  lemma SynSentAnswers(p: Pcb, c: Config, s: Segment) returns (more: seq<Segment>)
    requires p.state.SynSent?
    ensures InSynSent(p, c, s, true).sent == p.sent + more && |more| <= 1
    ensures s.flags == SYN ==>
              |more| == 1 && more[0].flags == SYN_ACK && more[0].number == p.lseq && more[0].ackNumber == Add32(s.number, 1)
    ensures AnswersSyn(p, s) ==> |more| == 1 && AckOf(more[0], p.lseq, Add32(s.number, 1))
    ensures s.flags != SYN && !AnswersSyn(p, s) ==> more == []
  {
    hide SendFlags;
    hide Add32;
    more := InSynSent(p, c, s, true).sent[|p.sent|..];
  }

  lemma SynGetAnswers(p: Pcb, c: Config, s: Segment) returns (more: seq<Segment>)
    requires p.state.SynGet? && p.rseq != 0
    ensures InSynGet(p, c, s, true).sent == p.sent + more && |more| <= 1
    ensures s.flags == SYN ==> |more| == 1 && more[0].flags == SYN_ACK && more[0].number == p.ackedLseq && more[0].ackNumber == p.rseq
    ensures Completes(p, s) ==> |more| == if s.data != [] && s.number != p.rseq then 1 else 0
    ensures Completes(p, s) && more != [] ==> AckOf(more[0], s.ackNumber, p.rseq)
    ensures s.flags != SYN && !Completes(p, s) ==> |more| == if s.flags.fin then 1 else 0
    ensures s.flags != SYN && !Completes(p, s) && more != [] ==> more[0].flags == FIN.(ack := true) && more[0].number == p.lseq
  {
    hide SendFlags;
    hide Add32;
    more := InSynGet(p, c, s, true).sent[|p.sent|..];
  }

  /** A closed end answers every segment but a reset with a reset, and does nothing else. */
  lemma ClosedAnswers(p: Pcb, c: Config, s: Segment, ok2: bool)
    requires p.state.Closed? && !s.flags.rst
    ensures var q := Input(p, c, s, true, ok2);
            && |q.sent| == |p.sent| + 1 && q.sent[..|p.sent|] == p.sent && q.sent[|p.sent|].flags.rst
            && q.state.Closed? && q.delivered == p.delivered && q.accepted == p.accepted
  {
    hide SendFlags;
  }

  /** Every segment that goes out offers the room that the window leaves beside what waits to be fetched. */
  lemma OffersRoom(p: Pcb, c: Config, flags: Flags)
    requires QueueLength(p.inq) <= p.rxWindow < 0x1_0000
    ensures var q := SendFlags(p, c, flags, true);
            && |q.sent| == |p.sent| + 1 && q.sent[|p.sent|].window + QueueLength(p.inq) == p.rxWindow
  {
  }

  /** The last segment of the peer's stream, with its FIN: the connection is closed from that side whether or not what
      comes before it is there, so all of the stream is delivered exactly if nothing was missing; and the
      number expected next is the one after the FIN exactly if the segment brings no data. */
  lemma FinExactly(p: Pcb, c: Config, s: Segment, ok: bool, ok2: bool, irs: Number, stream: seq<Byte>, off: nat)
    requires p.state.Established? && Flagged(p) && |stream| < MOD32 - 2 && Rx(p, irs, stream) && !s.flags.rst && s.flags.fin
    requires off <= |stream| && s.data == stream[off..] && s.number == Add32(irs, 1 + off)
    ensures var q := Input(p, c, s, ok, ok2);
            && q.state.CloseWait? && q.rclose
            && (q.delivered == stream <==> |p.delivered| == off || |p.delivered| == |stream|)
            && (q.rseq == Add32(irs, 2 + |stream|) <==> s.data == [])
  {
    StateDiagram(p, c, s, ok, ok2);
    DeliversExactly(p, c, s, ok, ok2);
    FinNumber(p, c, s, ok, ok2);
    hide Input;
    if s.number == p.rseq {
      OffsetUnique(irs, off, |p.delivered|);
      assert p.delivered + s.data == stream;
    } else {
      assert off != |p.delivered|;
    }
    NextAfter(irs, off, |stream|);
  }

  lemma NextAfter(irs: Number, off: nat, n: nat)
    requires off <= n < MOD32 - 2
    ensures Add32(Add32(irs, 1 + off), 1) == Add32(irs, 2 + off)
    ensures Add32(irs, 2 + off) == Add32(irs, 2 + n) <==> off == n
  {
  }

  lemma FinNumber(p: Pcb, c: Config, s: Segment, ok: bool, ok2: bool)
    requires p.state.Established? && !s.flags.rst && s.flags.fin
    ensures var q := Input(p, c, s, ok, ok2); q.rseq == Add32(s.number, 1) && q.rclose
  {
    var r := p.(rwnd := s.window);
    var q := TakeData(r, c, s, ok);
    var t := TakeAck(if s.data != [] && p.rseq == s.number then q.(rxWaiting := false) else q, s);
    RemoteNumber(t, c, s, ok2);
    hide TakeData;
    hide TakeAck;
    hide RemoteClose;
    hide Add32;
  }

  lemma RemoteNumber(p: Pcb, c: Config, s: Segment, ok: bool)
    ensures var q := RemoteClose(p, c, s, ok); q.rseq == Add32(s.number, 1) && q.rclose
  {
    hide SendFlags;
    hide Add32;
  }

  /** A buffer is refused and queued all the same exactly if it would have been sent but for the room for its header. It
      is never sent from there. */
  lemma RefusedYetQueued(p: Pcb, c: Config, data: seq<Byte>, routed: bool, room: bool, stale: Number)
    ensures var (q, r) := AsyncSend(p, c, data, routed, room, stale);
            && (r.Failed? && q.outq != p.outq <==>
                !room && routed && !p.txWaiting && !p.lclose
                && OutLength(p.outq) + |data| <= p.txWindow && OutLength(p.outq) + |data| <= p.rwnd)
            && (!r.Done? ==> q.sent == p.sent && q.accepted == p.accepted)
            && (r.Done? ==> q.outq == p.outq + [OutBuf(p.lseq, data, c.txTimeoutMs % MOD16, 3, true)])
            && (r.Bug? <==> p.txWaiting)
  {
    hide SendDo;
    hide OutLength;
  }
}
