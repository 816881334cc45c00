/** What a timer that runs out sends again: the flags of a SYN or FIN are remembered as long as no data goes
    out in between. */
module TcpRetry {
  import opened Wrappers
  import opened Tcp
  import opened TcpEnd
  import opened TcpNet

  /** Any segment may arrive here; the application behaves as in TcpNet. */
  predicate Allowed(p: Pcb, op: Op) {
    op.Arrive? || Possible(p, p, op)
  }

  predicate Life(p: Pcb, c: Config, ops: seq<Op>)
    decreases |ops|
  {
    ops == [] || (Allowed(p, ops[0]) && Life(Local(p, c, ops[0]), c, ops[1..]))
  }

  function Later(p: Pcb, c: Config, ops: seq<Op>): Pcb
    decreases |ops|
  {
    if ops == [] then p else Later(Local(p, c, ops[0]), c, ops[1..])
  }

  /** A SYN is out and remembered. */
  predicate Asks(p: Pcb) {
    p.state.SynSent? && p.flags == SYN && p.outq == []
  }

  /** A SYN and ACK is out and remembered. */
  predicate Answers(p: Pcb) {
    p.state.SynGet? && p.flags == SYN_ACK && p.outq == []
  }

  /** A FIN is out and remembered, and nothing is queued behind which it could be forgotten. */
  predicate Finishes(p: Pcb) {
    && (p.state.FinWait1? || p.state.FinWait2? || p.state.LastAck? || p.state.Closed?)
    && p.flags == FIN && p.outq == [] && (p.state.FinWait2? ==> p.lclose)
  }

  // ---------- what one event keeps ----------

  /** Remembered flags, an empty queue, and no state but Closed gained. */
  predicate Same(p: Pcb, q: Pcb) {
    q.flags == p.flags && q.outq == p.outq && q.lclose == p.lclose && (q.state == p.state || q.state.Closed?)
  }

  lemma HandshakeQuiet(p: Pcb, c: Config, ok: bool)
    ensures Same(p, TickHandshake(p, c, ok).0)
  {
    var q := p.(txTimeout := 0, txRetry := Down(p.txRetry, MOD32), lseq := p.ackedLseq);
    FlagsKept(q, c, ok);
    hide SendFlags;
    hide Down;
  }

  lemma FlagsKept(q: Pcb, c: Config, ok: bool)
    ensures SendFlags(q, c, q.flags, ok).flags == q.flags && SendFlags(q, c, ACK, ok).flags == q.flags
  {
  }

  lemma TimersQuiet(p: Pcb, c: Config, ok: bool)
    ensures Same(p, RxTimer(p)) && Same(p, DelayedAck(p, c, ok))
  {
    FlagsKept(p.(ackTick := Down(p.ackTick, MOD32)), c, ok);
    hide SendFlags;
  }

  /** With nothing queued only the timers move. */
  lemma TickForms(p: Pcb, c: Config, ok: bool, ok2: bool, ok3: bool)
    requires p.outq == []
    ensures var q, r := TickHandshake(p, c, ok).0, Tick(p, c, ok, ok2, ok3);
            r == q || r == RxTimer(q) || r == DelayedAck(RxTimer(q), c, ok3)
  {
    hide TickHandshake;
    hide RxTimer;
    hide DelayedAck;
  }

  /** With nothing queued a tick sends flags only, those remembered or an acknowledgement. */
  lemma QuietTick(p: Pcb, c: Config, ok: bool, ok2: bool, ok3: bool)
    requires p.outq == []
    ensures Same(p, Tick(p, c, ok, ok2, ok3))
  {
    hide Tick;
    hide TickHandshake;
    hide RxTimer;
    hide DelayedAck;
    var q := TickHandshake(p, c, ok).0;
    HandshakeQuiet(p, c, ok);
    TickForms(p, c, ok, ok2, ok3);
    TimersQuiet(q, c, ok3);
    TimersQuiet(RxTimer(q), c, ok3);
  }

  lemma AskStep(p: Pcb, c: Config, op: Op)
    requires Asks(p) && Allowed(p, op) && Local(p, c, op).state.SynSent?
    ensures Asks(Local(p, c, op))
  {
    hide SendFlags;
    hide Tick;
    match op
    case Timer(ok, ok2, ok3) => QuietTick(p, c, ok, ok2, ok3);
    case _ =>
  }

  lemma AnswerStep(p: Pcb, c: Config, op: Op)
    requires Answers(p) && Allowed(p, op) && Local(p, c, op).state.SynGet?
    ensures Answers(Local(p, c, op))
  {
    hide SendFlags;
    hide Tick;
    match op
    case Timer(ok, ok2, ok3) => QuietTick(p, c, ok, ok2, ok3);
    case _ =>
  }

  lemma FinInput(p: Pcb, c: Config, s: Segment, ok: bool, ok2: bool)
    requires Finishes(p)
    ensures Finishes(Input(p, c, s, ok, ok2))
  {
    hide SendFlags;
    hide TakeData;
    hide TakeAck;
  }

  lemma FinStep(p: Pcb, c: Config, op: Op)
    requires Finishes(p) && Allowed(p, op)
    ensures Finishes(Local(p, c, op))
  {
    hide Input;
    hide Tick;
    match op
    case Arrive(s, ok, ok2) => FinInput(p, c, s, ok, ok2);
    case Timer(ok, ok2, ok3) => QuietTick(p, c, ok, ok2, ok3);
    case _ =>
  }

  /** Where the opening is left, it is not entered again. */
  lemma OpeningLeft(p: Pcb, c: Config, op: Op)
    requires Allowed(p, op)
    ensures Local(p, c, op).state.SynSent? ==> p.state.SynSent?
    ensures Local(p, c, op).state.SynGet? ==> p.state.SynGet? || p.state.SynSent?
  {
    hide Tick;
    hide Input;
    hide Close;
  }

  // ---------- whole lives ----------

  lemma {:induction false} NeverOpens(p: Pcb, c: Config, ops: seq<Op>)
    requires Life(p, c, ops) && !p.state.SynSent?
    ensures !Later(p, c, ops).state.SynSent? && (Later(p, c, ops).state.SynGet? ==> p.state.SynGet?)
    decreases |ops|
  {
    if ops != [] {
      OpeningLeft(p, c, ops[0]);
      hide Local;
      NeverOpens(Local(p, c, ops[0]), c, ops[1..]);
    }
  }

  lemma {:induction false} AsksOn(p: Pcb, c: Config, ops: seq<Op>)
    requires Asks(p) && Life(p, c, ops)
    ensures Later(p, c, ops).state.SynSent? ==> Asks(Later(p, c, ops))
    decreases |ops|
  {
    if ops != [] {
      var q := Local(p, c, ops[0]);
      if q.state.SynSent? {
        AskStep(p, c, ops[0]);
        hide Local;
        hide Asks;
        AsksOn(q, c, ops[1..]);
      } else {
        hide Local;
        NeverOpens(q, c, ops[1..]);
      }
    }
  }

  lemma {:induction false} AnswersOn(p: Pcb, c: Config, ops: seq<Op>)
    requires Answers(p) && Life(p, c, ops)
    ensures Later(p, c, ops).state.SynGet? ==> Answers(Later(p, c, ops))
    decreases |ops|
  {
    if ops != [] {
      var q := Local(p, c, ops[0]);
      OpeningLeft(p, c, ops[0]);
      if q.state.SynGet? {
        AnswerStep(p, c, ops[0]);
        hide Local;
        AnswersOn(q, c, ops[1..]);
      } else {
        hide Local;
        NeverOpens(q, c, ops[1..]);
      }
    }
  }

  lemma {:induction false} FinishesOn(p: Pcb, c: Config, ops: seq<Op>)
    requires Finishes(p) && Life(p, c, ops)
    ensures Finishes(Later(p, c, ops))
    decreases |ops|
  {
    if ops != [] {
      FinStep(p, c, ops[0]);
      hide Local;
      hide Finishes;
      FinishesOn(Local(p, c, ops[0]), c, ops[1..]);
    }
  }

  /** The segment that a timer sends again carries these flags, under the acknowledged number. */
  ghost predicate Repeats(q: Pcb, c: Config, flags: Flags) {
    q.txTimeout == 1 && q.txRetry > 1 ==>
      var r := TickHandshake(q, c, true).0;
      && |r.sent| == |q.sent| + 1 && r.sent[|q.sent|].number == q.ackedLseq
      && r.sent[|q.sent|].flags.syn == flags.syn && r.sent[|q.sent|].flags.fin == flags.fin
  }

  lemma RemembersIs(q: Pcb, c: Config, flags: Flags)
    requires q.flags == flags
    ensures Repeats(q, c, flags)
  {
    if q.txTimeout == 1 && q.txRetry > 1 {
      ResentExactly(q, c);
    }
  }

  /** A client whose SYN found a buffer sends that SYN again whenever its timer runs out, whatever
      happened in between, for as long as it is unanswered. */
  lemma SynIsResent(blank: Pcb, c: Config, tsn: Number, ops: seq<Op>)
    requires Blank(blank) && Life(Connect(blank, c, tsn, true), c, ops)
    ensures var q := Later(Connect(blank, c, tsn, true), c, ops);
            q.state.SynSent? ==> Repeats(q, c, SYN)
  {
    hide Repeats;
    var p := Connect(blank, c, tsn, true);
    assert Asks(p);
    AsksOn(p, c, ops);
    var q := Later(p, c, ops);
    if q.state.SynSent? {
      RemembersIs(q, c, SYN);
    }
  }

  /** So does a child with its SYN and ACK. */
  lemma AnswerIsResent(blank: Pcb, c: Config, s: Segment, tsn: Number, ops: seq<Op>)
    requires Blank(blank) && Life(Accept(blank, c, s, tsn, true), c, ops)
    ensures var q := Later(Accept(blank, c, s, tsn, true), c, ops);
            q.state.SynGet? ==> Repeats(q, c, SYN_ACK)
  {
    hide Repeats;
    var p := Accept(blank, c, s, tsn, true);
    assert Answers(p);
    AnswersOn(p, c, ops);
    var q := Later(p, c, ops);
    if q.state.SynGet? {
      RemembersIs(q, c, SYN_ACK);
    }
  }

  /** And so does an end with the FIN it sent with nothing queued, which is when vsfip_tcp_close sends it. */
  lemma FinIsResent(p: Pcb, c: Config, ops: seq<Op>)
    requires p.outq == [] && !p.lclose && Life(Close(p, c, true), c, ops)
    ensures Repeats(Later(Close(p, c, true), c, ops), c, FIN)
  {
    hide Repeats;
    var q := Close(p, c, true);
    assert Finishes(q);
    FinishesOn(q, c, ops);
    RemembersIs(Later(q, c, ops), c, FIN);
  }

  // ---------- a FIN that is forgotten ----------

  const CONFIG: Config := Config(2, true)
  const QUEUED: OutBuf := OutBuf(1, [7], 1, 3, true)
  const FINAL: Segment := Segment(1, 1, FIN.(ack := true), 100, [])
  const DATA: Segment := Segment(1, 1, PSH.(ack := true), 100, [7])
  const LAST: Segment := Segment(1, 1, PSH.(ack := true), 100, [])

  const BUSY: Pcb := Pcb(Established, 2, 1, 1, 1, 100, false, 0, 0, 100, false, 0, 100, 0, false, false, PSH,
                         [], [QUEUED], [7], [], [], [])
  const CLOSING: Pcb := BUSY.(state := FinWait1, txWaiting := true, txTimeout := 2, txRetry := 3, flags := FIN, sent := [FINAL])
  const RESENT: Pcb := CLOSING.(txTimeout := 1, flags := PSH, outq := [QUEUED.(ttl := 2, retry := 2)], sent := [FINAL, DATA])
  const FORGOTTEN: Pcb := RESENT.(txTimeout := 0, txRetry := 2, lseq := 1, outq := [QUEUED.(ttl := 1, retry := 2)],
                                  sent := [FINAL, DATA, LAST])

  lemma FinGoesOut()
    ensures Close(BUSY, CONFIG, true) == CLOSING
  {
  }

  lemma DataGoesAgain()
    ensures Tick(CLOSING, CONFIG, true, true, true) == RESENT
  {
    var p := CLOSING.(txTimeout := 1);
    assert TickHandshake(CLOSING, CONFIG, true) == (p, false);
    assert p.outq[0 := QUEUED.(ttl := 2, retry := 2)] == RESENT.outq;
    assert Resend(p.(outq := RESENT.outq), QUEUED) == RESENT;
    assert TickOut(p, CONFIG, 0, true) == TickOut(RESENT, CONFIG, 1, true) == (RESENT, false);
  }

  lemma TimerSendsNoFin()
    ensures Tick(RESENT, CONFIG, true, true, true) == FORGOTTEN
  {
    var p := RESENT.(txTimeout := 0, txRetry := 2, lseq := 1, sent := [FINAL, DATA, LAST]);
    assert [FINAL, DATA] + [LAST] == p.sent;
    assert SendFlags(p.(sent := [FINAL, DATA]), CONFIG, PSH, true) == p;
    assert TickHandshake(RESENT, CONFIG, true) == (p, false);
    assert p.outq[0 := QUEUED.(ttl := 1, retry := 2)] == FORGOTTEN.outq;
    assert TickOut(p, CONFIG, 0, true) == TickOut(FORGOTTEN, CONFIG, 1, true) == (FORGOTTEN, false);
  }

  /** Sent with a buffer still queued, the FIN is forgotten when that buffer goes out again: its timer then
      sends a segment without FIN and does not run any more. vsfip_tcp_close waits for the queue first. */
  lemma FinForgotten()
    ensures var ops := [Shut(true), Timer(true, true, true), Timer(true, true, true)];
            && Life(BUSY, CONFIG, ops) && Later(BUSY, CONFIG, ops) == FORGOTTEN
            && FINAL.flags.fin && FORGOTTEN.sent == [FINAL, DATA, LAST] && !LAST.flags.fin && FORGOTTEN.txTimeout == 0
  {
    FinGoesOut();
    DataGoesAgain();
    TimerSendsNoFin();
    hide Close;
    hide Tick;
    var ops := [Shut(true), Timer(true, true, true), Timer(true, true, true)];
    assert ops[1..] == [ops[1], ops[2]] && ops[1..][1..] == [ops[2]] && [ops[2]][1..] == [];
    assert Later(RESENT, CONFIG, [ops[2]]) == Later(FORGOTTEN, CONFIG, []) == FORGOTTEN;
    assert Later(CLOSING, CONFIG, [ops[1], ops[2]]) == Later(RESENT, CONFIG, [ops[2]]);
  }
}
