/** What an end that is left alone does as time passes: how often it tries, and when it stops. */
module TcpTimers {
  import opened Wrappers
  import opened Tcp
  import opened TcpEnd

  lemma {:induction false} TicksAdd(p: Pcb, c: Config, n: nat, m: nat)
    ensures Ticks(p, c, n + m) == Ticks(Ticks(p, c, n), c, m)
    decreases n
  {
    hide Tick;
    if n > 0 {
      TicksAdd(Tick(p, c, true, true, true), c, n - 1, m);
    }
  }

  lemma NextTick(p: Pcb, c: Config, n: nat)
    ensures Ticks(p, c, 0) == p && Ticks(p, c, 1) == Tick(p, c, true, true, true)
    ensures Ticks(p, c, n + 1) == Tick(Ticks(p, c, n), c, true, true, true)
  {
    TicksAdd(p, c, n, 1);
    hide Tick;
    assert forall q :: Ticks(q, c, 1) == Ticks(Tick(q, c, true, true, true), c, 0);
  }

  // ---------- a buffer that is not acknowledged ----------

  /** Up, and nothing owed or waited for. */
  predicate Idle(p: Pcb) {
    p.state.Established? && !p.rclose && p.ackedRseq == p.rseq && p.rxTimeout == 0 && p.txTimeout == 0
  }

  /** A segment with this data under this number. */
  predicate Repeat(s: Segment, number: Number, data: seq<Byte>) {
    s.number == number && s.data == data && s.flags.psh && !s.flags.fin && !s.flags.syn && !s.flags.rst
  }

  lemma LoneAges(p: Pcb, c: Config, b: OutBuf)
    requires Idle(p) && p.outq == [b] && b.ttl > 1
    ensures Tick(p, c, true, true, true) == p.(outq := [b.(ttl := b.ttl - 1)])
  {
    hide GiveUp;
    hide Resend;
    var q := p.(outq := [b.(ttl := b.ttl - 1)]);
    assert p.outq[0 := b.(ttl := b.ttl - 1)] == q.outq;
    assert TickOut(q, c, 1, true) == (q, false);
  }

  lemma LoneResent(p: Pcb, c: Config, b: OutBuf)
    requires Idle(p) && p.outq == [b] && b.ttl == 1 && b.retry > 1 && b.room
    ensures var q := Tick(p, c, true, true, true);
            && Idle(q) && q.outq == [b.(ttl := c.txTimeoutMs % MOD16, retry := b.retry - 1)] && q.ackedLseq == p.ackedLseq
            && |q.sent| == |p.sent| + 1 && q.sent[..|p.sent|] == p.sent && Repeat(q.sent[|p.sent|], b.addr, b.data)
  {
    var again := b.(ttl := c.txTimeoutMs % MOD16, retry := b.retry - 1);
    var r := p.(outq := [again]);
    assert p.outq[0 := again] == r.outq;
    var q := Resend(r, b);
    assert q.ackedRseq == q.rseq && q.ackedLseq == p.ackedLseq && q.txTimeout == 0;
    assert TickOut(q, c, 1, true) == (q, false);
    hide GiveUp;
    hide Resend;
    hide Add32;
  }

  lemma LoneGivenUp(p: Pcb, c: Config, b: OutBuf)
    requires Idle(p) && p.outq == [b] && b.ttl == 1 && b.retry == 1
    ensures var q := Tick(p, c, true, true, true);
            && q.outq == [] && q.state.FinWait1? && q.lclose && !q.txWaiting
            && |q.sent| == |p.sent| + 1 && q.sent[..|p.sent|] == p.sent
            && q.sent[|p.sent|].flags.fin && q.sent[|p.sent|].number == p.ackedLseq && q.sent[|p.sent|].data == []
  {
    hide Add32;
    hide SendDo;
    assert TickOut(p, c, 0, true) == (GiveUp(p, c, true), true);
  }

  lemma {:induction false} LoneTicks(p: Pcb, c: Config, b: OutBuf, n: nat)
    requires Idle(p) && p.outq == [b] && n < b.ttl
    ensures Ticks(p, c, n) == p.(outq := [b.(ttl := b.ttl - n)])
  {
    hide Tick;
    hide Ticks;
    NextTick(p, c, if n > 0 then n - 1 else 0);
    if n > 0 {
      LoneTicks(p, c, b, n - 1);
      LoneAges(p.(outq := [b.(ttl := b.ttl - (n - 1))]), c, b.(ttl := b.ttl - (n - 1)));
    }
  }

  /** k segments more, all with this data under this number. */
  ghost predicate Tried(p: Pcb, q: Pcb, k: nat, number: Number, data: seq<Byte>) {
    && |q.sent| == |p.sent| + k && q.sent[..|p.sent|] == p.sent
    && forall i :: |p.sent| <= i < |q.sent| ==> Repeat(q.sent[i], number, data)
  }

  lemma TriedMore(p: Pcb, q: Pcb, r: Pcb, k: nat, number: Number, data: seq<Byte>)
    requires Tried(p, q, k, number, data) && Tried(q, r, 1, number, data)
    ensures Tried(p, r, k + 1, number, data)
  {
    hide Repeat;
    assert r.sent[..|p.sent|] == r.sent[..|q.sent|][..|p.sent|];
    assert forall i :: 0 <= i < |q.sent| ==> r.sent[i] == r.sent[..|q.sent|][i];
  }

  /** A whole round: nothing for ttl - 1 ticks, and the buffer again with the next. */
  lemma LoneRound(p: Pcb, c: Config, b: OutBuf)
    requires Idle(p) && p.outq == [b] && b.ttl > 0 && b.retry > 1 && b.room
    ensures var q := Ticks(p, c, b.ttl);
            && Idle(q) && q.outq == [b.(ttl := c.txTimeoutMs % MOD16, retry := b.retry - 1)]
            && q.ackedLseq == p.ackedLseq && Tried(p, q, 1, b.addr, b.data)
  {
    hide Tick;
    hide Ticks;
    LoneTicks(p, c, b, b.ttl - 1);
    NextTick(p, c, b.ttl - 1);
    LoneResent(p.(outq := [b.(ttl := 1)]), c, b.(ttl := 1));
  }

  lemma LoneEnd(p: Pcb, c: Config, b: OutBuf)
    requires Idle(p) && p.outq == [b] && b.ttl > 0 && b.retry == 1
    ensures GivenUp(p, Ticks(p, c, b.ttl))
  {
    hide Tick;
    hide Ticks;
    LoneTicks(p, c, b, b.ttl - 1);
    NextTick(p, c, b.ttl - 1);
    LoneGivenUp(p.(outq := [b.(ttl := 1)]), c, b.(ttl := 1));
  }

  /** Nothing is queued any more and nothing more can be sent; the last segment is a FIN. */
  ghost predicate GivenUp(p: Pcb, q: Pcb) {
    && q.outq == [] && q.state.FinWait1? && q.lclose && !q.txWaiting
    && |q.sent| == |p.sent| + 1 && q.sent[..|p.sent|] == p.sent
    && q.sent[|p.sent|].flags.fin && q.sent[|p.sent|].number == p.ackedLseq && q.sent[|p.sent|].data == []
  }

  lemma SentOnce(p: Pcb, c: Config, data: seq<Byte>, stale: Number)
    requires Idle(p) && p.outq == [] && AsyncSend(p, c, data, true, true, stale).1.Done? && c.txTimeoutMs < MOD16
    ensures var q := AsyncSend(p, c, data, true, true, stale).0;
            Idle(q) && q.outq == [OutBuf(p.lseq, data, c.txTimeoutMs, 3, true)] && Tried(p, q, 1, p.lseq, data)
  {
    hide Add32;
  }

  /** A buffer that nobody acknowledges goes out three times in all, a timeout apart; a further timeout later it is
      given up with a FIN, and whoever waits is told. */
  lemma RetransmitSchedule(p: Pcb, c: Config, data: seq<Byte>, stale: Number, n: nat)
    requires Idle(p) && p.outq == [] && AsyncSend(p, c, data, true, true, stale).1.Done?
    requires 0 < c.txTimeoutMs < 0x1_0000 && n <= 3 * c.txTimeoutMs
    ensures var t, r := c.txTimeoutMs, Ticks(AsyncSend(p, c, data, true, true, stale).0, c, n);
            if n == 3 * t then exists q :: Tried(p, q, 3, p.lseq, data) && GivenUp(q, r)
            else r.state.Established? && |r.outq| == 1 && Tried(p, r, if n < t then 1 else if n < 2 * t then 2 else 3, p.lseq, data)
  {
    var q, t := AsyncSend(p, c, data, true, true, stale).0, c.txTimeoutMs;
    var b := OutBuf(p.lseq, data, t, 3, true);
    SentOnce(p, c, data, stale);
    hide AsyncSend;
    hide Ticks;
    hide Tried;
    hide GivenUp;
    hide Idle;
    if n < t {
      WithinRound(p, q, c, b, 0, n);
    } else if n < 2 * t {
      WithinRound(p, q, c, b, 1, n - t);
    } else if n < 3 * t {
      WithinRound(p, q, c, b, 2, n - 2 * t);
    } else {
      var s := Rounds(p, q, c, b, 2);
      TicksAdd(q, c, 2 * t, t);
      LoneEnd(s, c, b.(retry := 1));
    }
  }

  lemma WithinRound(p: Pcb, q: Pcb, c: Config, b: OutBuf, k: nat, m: nat)
    requires Idle(q) && q.outq == [b] && b.retry == 3 && b.room && m < b.ttl == c.txTimeoutMs < MOD16 && k <= 2
    requires Tried(p, q, 1, b.addr, b.data)
    ensures var r := Ticks(q, c, k * c.txTimeoutMs + m);
            r.state.Established? && |r.outq| == 1 && Tried(p, r, k + 1, b.addr, b.data)
  {
    hide Ticks;
    hide Tried;
    var s := Rounds(p, q, c, b, k);
    var last := b.(retry := 3 - k);
    TicksAdd(q, c, k * c.txTimeoutMs, m);
    LoneTicks(s, c, last, m);
    SameTries(p, s, s.(outq := [last.(ttl := last.ttl - m)]), k + 1, b.addr, b.data);
  }

  lemma SameTries(p: Pcb, q: Pcb, r: Pcb, k: nat, number: Number, data: seq<Byte>)
    requires Tried(p, q, k, number, data) && r.sent == q.sent
    ensures Tried(p, r, k, number, data)
  {
  }

  /** The state after k whole rounds. */
  lemma Rounds(p: Pcb, q: Pcb, c: Config, b: OutBuf, k: nat) returns (s: Pcb)
    requires Idle(q) && q.outq == [b] && b.retry == 3 && b.room && 0 < b.ttl == c.txTimeoutMs < MOD16 && k <= 2
    requires Tried(p, q, 1, b.addr, b.data)
    ensures s == Ticks(q, c, k * c.txTimeoutMs)
    ensures Idle(s) && s.outq == [b.(retry := 3 - k)] && Tried(p, s, k + 1, b.addr, b.data)
    decreases k
  {
    hide Ticks;
    hide Tried;
    if k == 0 {
      NextTick(q, c, 0);
      s := q;
    } else {
      var t := c.txTimeoutMs;
      var r := Rounds(p, q, c, b, k - 1);
      LoneRound(r, c, b.(retry := 3 - (k - 1)));
      s := Ticks(r, c, t);
      assert k * t == (k - 1) * t + t;
      TicksAdd(q, c, (k - 1) * t, t);
      TriedMore(p, r, s, k, b.addr, b.data);
    }
  }

  // ---------- a SYN or FIN that is not answered ----------

  /** What is sent and sent again: the state it is sent in, its flags and numbers, and whether somebody waits. */
  datatype Request = Request(state: Stat, flags: Flags, number: Number, rseq: Number, waiting: bool)

  /** The request is out, with this much time and this many tries left. */
  predicate Pending(p: Pcb, r: Request, left: nat, tries: nat) {
    && p.state == r.state && p.flags == r.flags && (p.flags.syn || p.flags.fin) && p.outq == [] && p.rxTimeout == 0
    && p.ackedRseq == p.rseq == r.rseq && p.ackedLseq == r.number && p.lseq == Add32(r.number, 1)
    && p.txTimeout == left && p.txRetry == tries && p.txWaiting == r.waiting
  }

  predicate IsRequest(s: Segment, r: Request) {
    s.flags == (if r.rseq != 0 then r.flags.(ack := true) else r.flags) && s.number == r.number && s.ackNumber == r.rseq && s.data == []
  }

  /** k segments more, all of them the request. */
  ghost predicate Asked(p: Pcb, q: Pcb, k: nat, r: Request) {
    && |q.sent| == |p.sent| + k && q.sent[..|p.sent|] == p.sent
    && forall i :: |p.sent| <= i < |q.sent| ==> IsRequest(q.sent[i], r)
  }

  lemma PendingWaits(p: Pcb, c: Config, r: Request, left: nat, tries: nat)
    requires Pending(p, r, left, tries) && left > 1
    ensures var q := Tick(p, c, true, true, true); Pending(q, r, left - 1, tries) && q.sent == p.sent
  {
    hide SendFlags;
    hide Add32;
  }

  lemma PendingAgain(p: Pcb, c: Config, r: Request, tries: nat)
    requires Pending(p, r, 1, tries) && 1 < tries <= 3
    ensures var q := Tick(p, c, true, true, true); Pending(q, r, c.txTimeoutMs, tries - 1) && Asked(p, q, 1, r)
  {
    var q := p.(txTimeout := 0, txRetry := tries - 1, lseq := p.ackedLseq);
    FlagsAcknowledge(q, c, p.flags, true);
    hide SendFlags;
    hide Add32;
    hide DelayedAck;
  }

  /** The last time runs out: nothing more goes out, and who waits is told. */
  predicate Over(p: Pcb, q: Pcb) {
    && q.sent == p.sent && !q.txWaiting && q.txTimeout == 0
    && q.state == if p.state.SynSent? || p.state.SynGet? || p.state.LastAck? then Closed else p.state
  }

  lemma PendingEnds(p: Pcb, c: Config, r: Request)
    requires Pending(p, r, 1, 1)
    ensures Over(p, Tick(p, c, true, true, true))
  {
    hide SendFlags;
  }

  lemma {:induction false} PendingTicks(p: Pcb, c: Config, r: Request, left: nat, tries: nat, n: nat)
    requires Pending(p, r, left, tries) && n < left
    ensures var q := Ticks(p, c, n); Pending(q, r, left - n, tries) && q.sent == p.sent
    decreases n
  {
    hide Tick;
    hide Pending;
    if n > 0 {
      PendingWaits(p, c, r, left, tries);
      PendingTicks(Tick(p, c, true, true, true), c, r, left - 1, tries, n - 1);
    }
  }

  lemma PendingRound(p: Pcb, c: Config, r: Request, tries: nat)
    requires Pending(p, r, c.txTimeoutMs, tries) && 1 < tries <= 3 && 0 < c.txTimeoutMs
    ensures var q := Ticks(p, c, c.txTimeoutMs); Pending(q, r, c.txTimeoutMs, tries - 1) && Asked(p, q, 1, r)
  {
    hide Tick;
    hide Ticks;
    hide Pending;
    var t := c.txTimeoutMs;
    PendingTicks(p, c, r, t, tries, t - 1);
    PendingAgain(Ticks(p, c, t - 1), c, r, tries);
    NextTick(p, c, t - 1);
  }

  lemma PendingRounds(p: Pcb, c: Config, r: Request, k: nat) returns (s: Pcb)
    requires Pending(p, r, c.txTimeoutMs, 3) && 0 < c.txTimeoutMs && k <= 2
    ensures s == Ticks(p, c, k * c.txTimeoutMs) && Pending(s, r, c.txTimeoutMs, 3 - k) && Asked(p, s, k, r)
    decreases k
  {
    hide Ticks;
    hide Pending;
    if k == 0 {
      NextTick(p, c, 0);
      s := p;
    } else {
      var t := c.txTimeoutMs;
      var q := PendingRounds(p, c, r, k - 1);
      PendingRound(q, c, r, 3 - (k - 1));
      s := Ticks(q, c, t);
      assert k * t == (k - 1) * t + t;
      TicksAdd(p, c, (k - 1) * t, t);
      hide Asked;
      AskedMore(p, q, s, k - 1, 1, r);
    }
  }

  lemma AskedMore(p: Pcb, q: Pcb, s: Pcb, k: nat, m: nat, r: Request)
    requires Asked(p, q, k, r) && Asked(q, s, m, r)
    ensures Asked(p, s, k + m, r)
  {
    hide IsRequest;
    assert s.sent[..|p.sent|] == s.sent[..|q.sent|][..|p.sent|];
    assert forall i :: 0 <= i < |q.sent| ==> s.sent[i] == s.sent[..|q.sent|][i];
  }

  lemma SameAsked(p: Pcb, q: Pcb, s: Pcb, k: nat, r: Request)
    requires Asked(p, q, k, r) && s.sent == q.sent
    ensures Asked(p, s, k, r)
  {
  }

  lemma WithinPending(p: Pcb, c: Config, r: Request, k: nat, m: nat)
    requires Pending(p, r, c.txTimeoutMs, 3) && m < c.txTimeoutMs && k <= 2
    ensures var q := Ticks(p, c, k * c.txTimeoutMs + m); Asked(p, q, k, r) && Pending(q, r, c.txTimeoutMs - m, 3 - k)
  {
    hide Ticks;
    hide Asked;
    var s := PendingRounds(p, c, r, k);
    TicksAdd(p, c, k * c.txTimeoutMs, m);
    PendingTicks(s, c, r, c.txTimeoutMs, 3 - k, m);
    SameAsked(p, s, Ticks(s, c, m), k, r);
  }

  /** A SYN, SYN and ACK, or FIN that is out and that nobody answers is sent again after one timeout and after two. After
      the third an end that opens, or waits for its last acknowledgement, is closed, and who waits is told. */
  lemma RequestSchedule(p: Pcb, c: Config, r: Request, n: nat)
    requires Pending(p, r, c.txTimeoutMs, 3) && 0 < c.txTimeoutMs && n <= 3 * c.txTimeoutMs
    ensures var t, q := c.txTimeoutMs, Ticks(p, c, n);
            && Asked(p, q, if n < t then 0 else if n < 2 * t then 1 else 2, r)
            && (n < 3 * t ==> q.state == p.state && q.txWaiting == p.txWaiting)
            && (n == 3 * t ==> q.state == (if p.state.SynSent? || p.state.SynGet? || p.state.LastAck? then Closed else p.state))
            && (n == 3 * t ==> !q.txWaiting && q.txTimeout == 0)
  {
    var t := c.txTimeoutMs;
    hide Ticks;
    hide Tick;
    hide Asked;
    if n < t {
      WithinPending(p, c, r, 0, n);
    } else if n < 2 * t {
      WithinPending(p, c, r, 1, n - t);
    } else if n < 3 * t {
      WithinPending(p, c, r, 2, n - 2 * t);
    } else {
      WithinPending(p, c, r, 2, t - 1);
      var s := Ticks(p, c, 3 * t - 1);
      NextTick(p, c, 3 * t - 1);
      PendingEnds(s, c, r);
      SameAsked(p, s, Ticks(p, c, n), 2, r);
    }
  }

  /** The requests that the code makes are of this kind: the SYN of a client, the answer of a child, also to a SYN that
      comes again, and the FIN of an end that closes with nothing queued. */
  lemma RequestsAre(p: Pcb, c: Config, tsn: Number, s: Segment, ok2: bool)
    requires p.rxTimeout == 0
    ensures Blank(p) ==> Pending(Connect(p, c, tsn, true), Request(SynSent, SYN, tsn, 0, true), c.txTimeoutMs, 3)
    ensures Blank(p) ==> Pending(Accept(p, c, s, tsn, true), Request(SynGet, SYN_ACK, tsn, Add32(s.number, 1), p.txWaiting), c.txTimeoutMs, 3)
    ensures (p.state.Established? || p.state.CloseWait?) && !p.lclose && p.outq == [] ==>
              Pending(Close(p, c, true), Request(if p.rclose then LastAck else FinWait1, FIN, p.ackedLseq, p.rseq, true), c.txTimeoutMs, 3)
    ensures p.state.SynGet? && p.outq == [] && s.flags == SYN ==>
              Pending(Input(p, c, s, true, ok2), Request(SynGet, SYN_ACK, p.ackedLseq, p.rseq, p.txWaiting), c.txTimeoutMs, 3)
  {
    ConnectAsks(p, c, tsn);
    AcceptAsks(p, c, tsn, s);
    CloseAsks(p, c);
    AnswerAsks(p, c, s, ok2);
    hide Pending;
    hide Connect;
    hide Accept;
    hide Close;
    hide Input;
  }

  lemma ConnectAsks(p: Pcb, c: Config, tsn: Number)
    requires p.rxTimeout == 0
    ensures Blank(p) ==> Pending(Connect(p, c, tsn, true), Request(SynSent, SYN, tsn, 0, true), c.txTimeoutMs, 3)
  {
    FlagsAcknowledge(p.(lseq := tsn, ackedLseq := tsn, rseq := 0, txRetry := 3), c, SYN, true);
    hide SendFlags;
    hide Add32;
  }

  lemma AcceptAsks(p: Pcb, c: Config, tsn: Number, s: Segment)
    requires p.rxTimeout == 0
    ensures Blank(p) ==> Pending(Accept(p, c, s, tsn, true), Request(SynGet, SYN_ACK, tsn, Add32(s.number, 1), p.txWaiting), c.txTimeoutMs, 3)
  {
    FlagsAcknowledge(p.(lseq := tsn, ackedLseq := tsn, state := SynGet, rseq := Add32(s.number, 1), txRetry := 3), c, SYN_ACK, true);
    hide SendFlags;
    hide Add32;
  }

  lemma CloseAsks(p: Pcb, c: Config)
    requires p.rxTimeout == 0
    ensures (p.state.Established? || p.state.CloseWait?) && !p.lclose && p.outq == [] ==>
              Pending(Close(p, c, true), Request(if p.rclose then LastAck else FinWait1, FIN, p.ackedLseq, p.rseq, true), c.txTimeoutMs, 3)
  {
    FlagsAcknowledge(p.(lseq := p.ackedLseq, txRetry := 3), c, FIN, true);
    hide SendFlags;
    hide Add32;
  }

  lemma AnswerAsks(p: Pcb, c: Config, s: Segment, ok2: bool)
    requires p.rxTimeout == 0
    ensures p.state.SynGet? && p.outq == [] && s.flags == SYN ==>
              Pending(Input(p, c, s, true, ok2), Request(SynGet, SYN_ACK, p.ackedLseq, p.rseq, p.txWaiting), c.txTimeoutMs, 3)
  {
    FlagsAcknowledge(p.(rwnd := s.window, lseq := p.ackedLseq, txRetry := 3), c, SYN_ACK, true);
    hide SendFlags;
    hide Add32;
  }

  // ---------- a receiver that waits ----------

  lemma WaitingTick(p: Pcb, c: Config)
    requires p.outq == [] && p.ackedRseq == p.rseq && p.txTimeout == 0 && p.rxTimeout > 0
    ensures Tick(p, c, true, true, true) ==
            if p.rxTimeout == 1 then p.(rxTimeout := 0, rxWaiting := false) else p.(rxTimeout := p.rxTimeout - 1)
  {
    hide SendFlags;
    hide GiveUp;
    hide DelayedAck;
  }

  lemma {:induction false} WaitingTicks(p: Pcb, c: Config, n: nat)
    requires p.outq == [] && p.ackedRseq == p.rseq && p.txTimeout == 0 && n <= p.rxTimeout
    ensures Ticks(p, c, n) == if 0 < n == p.rxTimeout then p.(rxTimeout := 0, rxWaiting := false) else p.(rxTimeout := p.rxTimeout - n)
    decreases n
  {
    if n > 0 {
      WaitingTick(p, c);
      hide Tick;
      if p.rxTimeout > 1 {
        WaitingTicks(p.(rxTimeout := p.rxTimeout - 1), c, n - 1);
      } else {
        NextTick(p, c, 0);
      }
    }
  }

  /** A receiver that is refused, for whatever reason, waits until its timeout and not a tick longer, also when the peer
      has closed and nothing can come. */
  lemma ReceiverTimesOut(p: Pcb, c: Config, ms: nat, n: nat)
    requires p.outq == [] && p.ackedRseq == p.rseq && p.txTimeout == 0 && n <= ms && 0 < ms
    requires !AsyncRecv(p).1.Done?
    ensures Recv(p, ms).1.NotReady? && (Ticks(Recv(p, ms).0, c, n).rxWaiting <==> n < ms)
  {
    WaitingTicks(Recv(p, ms).0, c, n);
    hide Ticks;
  }
}
