/** A run in which the sequence numbers wrap and a byte is lost: the sender drops it unacknowledged. The
    initial number is one that vsfip_get_tsn gives, a multiple of 0x10000, so a whole stream goes before. */
module TcpWrap {
  import opened Wrappers
  import opened Tcp
  import opened TcpStream
  import opened TcpNet
  import opened TcpLoss

  const ISN: Number := 0xFFFF_0000
  const SIZE: nat := 923
  const ROUNDS: nat := 71   // 71 * 923 == 65533
  const WINDOW: nat := 2048
  const CONFIG: Config := Config(1000, true)
  const SETUP: Setup := Setup(CONFIG, CONFIG, ISN, 0)
  const BLANK: Pcb := Pcb(Closed, 0, 0, 0, 0, 0, false, 0, 0, WINDOW, false, 0, WINDOW, 0, true, true, NO_FLAGS, [], [], [], [], [], [])
  const PSH_ACK: Flags := PSH.(ack := true)

  // ---------- what goes over the wire ----------

  const ASKS: Segment := Segment(ISN, 0, SYN, WINDOW, [])
  const ANSWERS: Segment := Segment(0, ISN + 1, SYN_ACK, WINDOW, [])
  const CONFIRMS: Segment := Segment(ISN + 1, 1, ACK, WINDOW, [])

  function Zeros(n: nat): (s: seq<Byte>)
    ensures |s| == n
  {
    seq(n, i => 0)
  }

  /** The number of the first byte of round k. */
  function At(k: nat): Number
    requires k <= ROUNDS
  {
    ISN + 1 + k * SIZE
  }

  function Block(k: nat): Segment
    requires k < ROUNDS
  {
    Segment(At(k), 1, PSH_ACK, WINDOW, Zeros(SIZE))
  }

  function Ack(k: nat): Segment
    requires k <= ROUNDS
  {
    Segment(1, At(k), ACK, WINDOW, [])
  }

  function ClientSent(k: nat): seq<Segment>
    requires k <= ROUNDS
  {
    if k == 0 then [ASKS, CONFIRMS] else ClientSent(k - 1) + [Block(k - 1)]
  }

  function ServerSent(k: nat): seq<Segment>
    requires k <= ROUNDS
  {
    if k == 0 then [ANSWERS] else ServerSent(k - 1) + [Ack(k)]
  }

  // ---------- the two ends after k blocks ----------

  const ASKING: Pcb := BLANK.(state := SynSent, lseq := ISN + 1, ackedLseq := ISN, txRetry := 3, txTimeout := 1000,
                              txWaiting := true, flags := SYN, sent := [ASKS])
  const ANSWERING: Pcb := BLANK.(state := SynGet, rclose := false, rseq := ISN + 1, ackedRseq := ISN + 1, txRetry := 3, txTimeout := 1000,
                                 lseq := 1, flags := SYN_ACK, sent := [ANSWERS])

  function Client(k: nat): Pcb
    requires k <= ROUNDS
  {
    BLANK.(state := Established, rclose := false, lclose := false, rwnd := WINDOW, txRetry := 3, lseq := At(k), ackedLseq := At(k), rseq := 1, ackedRseq := 1,
           flags := if k == 0 then SYN else PSH, accepted := Zeros(k * SIZE), sent := ClientSent(k))
  }

  function Server(k: nat): Pcb
    requires k <= ROUNDS
  {
    BLANK.(state := Established, rclose := false, lclose := false, rwnd := WINDOW, txRetry := 3, lseq := 1, ackedLseq := 1, rseq := At(k), ackedRseq := At(k),
           flags := SYN_ACK, ackTick := if k == 0 then 0 else TCP_ATO, delivered := Zeros(k * SIZE), sent := ServerSent(k))
  }

  /** The client with block k on its way, and the server when it came for the first time. */
  function Busy(k: nat): Pcb
    requires k < ROUNDS
  {
    Client(k).(lseq := At(k + 1), flags := PSH, outq := [OutBuf(At(k), Zeros(SIZE), 1000, 3, true)],
               accepted := Zeros((k + 1) * SIZE), sent := ClientSent(k + 1))
  }

  function Getting(k: nat): Pcb
    requires k < ROUNDS
  {
    Server(k).(rseq := At(k + 1), ackTick := TCP_ATO, delivered := Zeros((k + 1) * SIZE))
  }

  lemma Opens()
    ensures Connect(BLANK, CONFIG, ISN, true) == ASKING && Accept(BLANK, CONFIG, ASKS, 0, true) == ANSWERING
  {
  }

  lemma Confirms()
    ensures Input(ASKING, CONFIG, ANSWERS, true, true) == Client(0)
  {
    assert [ASKS] + [CONFIRMS] == ClientSent(0);
    assert Zeros(0) == [];
  }

  lemma Completes()
    ensures Input(ANSWERING, CONFIG, CONFIRMS, true, true) == Server(0)
  {
    assert Zeros(0) == [];
  }

  lemma MoreZeros(k: nat)
    ensures Zeros(k * SIZE) + Zeros(SIZE) == Zeros((k + 1) * SIZE)
  {
  }

  lemma SendsBlock(k: nat)
    requires k < ROUNDS
    ensures AsyncSend(Client(k), CONFIG, Zeros(SIZE), true, true, 0).0 == Busy(k)
  {
    hide Zeros;
    MoreZeros(k);
    assert OutLength([]) == 0;
    assert [] + [OutBuf(At(k), Zeros(SIZE), 1000, 3, true)] == [OutBuf(At(k), Zeros(SIZE), 1000, 3, true)];
  }

  lemma GetsBlock(k: nat)
    requires k < ROUNDS
    ensures Input(Server(k), CONFIG, Block(k), true, true) == Getting(k)
  {
    hide Zeros;
    hide ServerSent;
    MoreZeros(k);
  }

  lemma GetsBlockAgain(k: nat)
    requires k < ROUNDS
    ensures Input(Getting(k), CONFIG, Block(k), true, true) == Server(k + 1)
  {
    hide Zeros;
    assert ServerSent(k + 1) == ServerSent(k) + [Ack(k + 1)];
    hide ServerSent;
  }

  lemma GetsAck(k: nat)
    requires k < ROUNDS
    ensures Input(Busy(k), CONFIG, Ack(k + 1), true, true) == Client(k + 1)
  {
    hide Zeros;
    hide ClientSent;
    var b := OutBuf(At(k), Zeros(SIZE), 1000, 3, true);
    assert [b][1..] == [];
    assert Add32(b.addr, SIZE) == At(k + 1);
    assert DropCovered([b], At(k + 1)) == DropCovered([], At(k + 1)) == [];
  }

  // ---------- runs ----------

  /** The run leads from n to m. */
  ghost predicate Leads(n: Net, run: seq<Step>, m: Net) {
    Run(n, SETUP, run) && After(n, SETUP, run) == m
  }

  lemma {:induction false} Joins(n: Net, run: seq<Step>, m: Net, more: seq<Step>, end: Net)
    requires Leads(n, run, m) && Leads(m, more, end)
    ensures Leads(n, run + more, end)
    decreases |run|
  {
    if run == [] {
      assert run + more == more;
    } else {
      assert (run + more)[0] == run[0] && (run + more)[1..] == run[1..] + more;
      Joins(Do(n, SETUP, run[0]), run[1..], m, more, end);
    }
  }

  lemma One(n: Net, t: Step, m: Net)
    requires Enabled(n, t) && Do(n, SETUP, t) == m
    ensures Leads(n, [t], m)
  {
    assert [t][1..] == [];
    assert Run(m, SETUP, []) && After(m, SETUP, []) == m;
  }

  lemma Then(n: Net, run: seq<Step>, m: Net, t: Step, end: Net)
    requires Leads(n, run, m) && Enabled(m, t) && Do(m, SETUP, t) == end
    ensures Leads(n, run + [t], end)
  {
    One(m, t, end);
    Joins(n, run, m, [t], end);
  }

  lemma Opening() returns (run: seq<Step>)
    ensures Leads(Net(ASKING, ANSWERING), run, Net(Client(0), Server(0)))
  {
    Confirms();
    Completes();
    hide Input;
    run := [Step(true, Arrive(ANSWERS, true, true))];
    One(Net(ASKING, ANSWERING), run[0], Net(Client(0), ANSWERING));
    assert CONFIRMS in ClientSent(0);
    Then(Net(ASKING, ANSWERING), run, Net(Client(0), ANSWERING), Step(false, Arrive(CONFIRMS, true, true)), Net(Client(0), Server(0)));
    run := run + [Step(false, Arrive(CONFIRMS, true, true))];
  }

  /** A block sent, delivered, repeated and acknowledged. */
  lemma Round(n: Net, run: seq<Step>, k: nat) returns (more: seq<Step>)
    requires k < ROUNDS && Leads(n, run, Net(Client(k), Server(k)))
    ensures Leads(n, more, Net(Client(k + 1), Server(k + 1)))
  {
    SendsBlock(k);
    GetsBlock(k);
    GetsBlockAgain(k);
    GetsAck(k);
    assert Block(k) in ClientSent(k + 1) && Ack(k + 1) in ServerSent(k + 1);
    assert k * SIZE + SIZE < MOD32;
    hide Input;
    hide AsyncSend;
    hide Leads;
    hide ClientSent;
    hide ServerSent;
    var arrives := Step(false, Arrive(Block(k), true, true));
    more := run + [Step(true, Send(Zeros(SIZE), true, 0))];
    Then(n, run, Net(Client(k), Server(k)), Step(true, Send(Zeros(SIZE), true, 0)), Net(Busy(k), Server(k)));
    Then(n, more, Net(Busy(k), Server(k)), arrives, Net(Busy(k), Getting(k)));
    more := more + [arrives];
    Then(n, more, Net(Busy(k), Getting(k)), arrives, Net(Busy(k), Server(k + 1)));
    more := more + [arrives];
    var acked := Step(true, Arrive(Ack(k + 1), true, true));
    Then(n, more, Net(Busy(k), Server(k + 1)), acked, Net(Client(k + 1), Server(k + 1)));
    more := more + [acked];
  }

  lemma {:induction false} Rounds(k: nat) returns (run: seq<Step>)
    requires k <= ROUNDS
    ensures Leads(Net(ASKING, ANSWERING), run, Net(Client(k), Server(k)))
  {
    if k == 0 {
      run := Opening();
    } else {
      run := Rounds(k - 1);
      run := Round(Net(ASKING, ANSWERING), run, k - 1);
    }
  }

  // ---------- the end of the stream, where the numbers wrap ----------

  const LAST: Number := 0xFFFF_FFFE
  const FIRST: Segment := Segment(LAST, 1, PSH_ACK, WINDOW, [7])
  const SECOND: Segment := Segment(LAST + 1, 1, PSH_ACK, WINDOW, [8])
  const GOT_FIRST: Segment := Segment(1, LAST + 1, ACK, WINDOW, [])

  function SentOne(): Pcb {
    Client(ROUNDS).(lseq := LAST + 1, accepted := Zeros(65533) + [7], outq := [OutBuf(LAST, [7], 1000, 3, true)],
                    sent := ClientSent(ROUNDS) + [FIRST])
  }

  function SentBoth(): Pcb {
    SentOne().(lseq := 0, accepted := Zeros(65533) + [7] + [8],
               outq := [OutBuf(LAST, [7], 1000, 3, true), OutBuf(LAST + 1, [8], 1000, 3, true)],
               sent := ClientSent(ROUNDS) + [FIRST] + [SECOND])
  }

  function LostOne(): Pcb {
    SentBoth().(ackedLseq := LAST + 1, outq := [])
  }

  function GotOne(): Pcb {
    Server(ROUNDS).(rseq := LAST + 1, delivered := Zeros(65533) + [7])
  }

  function Answered(): Pcb {
    GotOne().(ackedRseq := LAST + 1, sent := ServerSent(ROUNDS) + [GOT_FIRST])
  }

  lemma EndOfStream()
    ensures At(ROUNDS) == LAST && ROUNDS * SIZE == 65533
  {
  }

  /** One byte sent from an empty queue at the number LAST. */
  lemma SendsAtLast(p: Pcb)
    requires p.outq == [] && p.inq == [] && !p.txWaiting && !p.lclose && p.txWindow == p.rwnd == p.rxWindow == WINDOW
    requires p.lseq == LAST && p.rseq == p.ackedRseq == 1
    ensures AsyncSend(p, CONFIG, [7], true, true, 0).0
            == p.(lseq := LAST + 1, flags := PSH, accepted := p.accepted + [7], outq := [OutBuf(LAST, [7], 1000, 3, true)],
                  sent := p.sent + [FIRST])
  {
    assert OutLength([]) == 0;
    assert [] + [OutBuf(LAST, [7], 1000, 3, true)] == [OutBuf(LAST, [7], 1000, 3, true)];
  }

  lemma SendsFirst()
    ensures AsyncSend(Client(ROUNDS), CONFIG, [7], true, true, 0).0 == SentOne()
  {
    EndOfStream();
    hide Zeros;
    hide ClientSent;
    hide At;
    hide AsyncSend;
    SendsAtLast(Client(ROUNDS));
  }

  lemma SendsSecond()
    ensures AsyncSend(SentOne(), CONFIG, [8], true, true, 0).0 == SentBoth()
  {
    hide Zeros;
    hide ClientSent;
    assert OutLength([OutBuf(LAST, [7], 1000, 3, true)]) == 1;
  }

  lemma GetsFirst()
    ensures Input(Server(ROUNDS), CONFIG, FIRST, true, true) == GotOne()
    ensures Input(GotOne(), CONFIG, FIRST, true, true) == Answered()
  {
    hide Zeros;
    hide ServerSent;
    EndOfStream();
  }

  lemma DropsBoth()
    ensures Input(SentBoth(), CONFIG, GOT_FIRST, true, true) == LostOne()
  {
    hide Zeros;
    hide ClientSent;
    EndOfStream();
    var first, second := OutBuf(LAST, [7], 1000, 3, true), OutBuf(LAST + 1, [8], 1000, 3, true);
    assert [second][1..] == [] && [first, second][1..] == [second];
    assert Add32(first.addr, 1) == LAST + 1 && Add32(second.addr, 1) == 0;
    assert DropCovered([second], LAST + 1) == DropCovered([], LAST + 1) == [];
    assert DropCovered([first, second], LAST + 1) == DropCovered([second], LAST + 1);
    assert TakeAck(SentBoth(), GOT_FIRST) == LostOne();
  }

  lemma FinalRun(n: Net, run: seq<Step>) returns (more: seq<Step>)
    requires Leads(n, run, Net(Client(ROUNDS), Server(ROUNDS)))
    ensures Leads(n, more, Net(LostOne(), Answered()))
  {
    SendsFirst();
    SendsSecond();
    GetsFirst();
    DropsBoth();
    EndOfStream();
    hide Input;
    hide AsyncSend;
    hide Leads;
    hide ClientSent;
    hide ServerSent;
    hide Zeros;
    var c, s := Client(ROUNDS), Server(ROUNDS);
    var send1, send2 := Step(true, Send([7], true, 0)), Step(true, Send([8], true, 0));
    var arrives, acked := Step(false, Arrive(FIRST, true, true)), Step(true, Arrive(GOT_FIRST, true, true));
    Then(n, run, Net(c, s), send1, Net(SentOne(), s));
    more := run + [send1];
    Then(n, more, Net(SentOne(), s), send2, Net(SentBoth(), s));
    more := more + [send2];
    Then(n, more, Net(SentBoth(), s), arrives, Net(SentBoth(), GotOne()));
    more := more + [arrives];
    Then(n, more, Net(SentBoth(), GotOne()), arrives, Net(SentBoth(), Answered()));
    more := more + [arrives];
    Then(n, more, Net(SentBoth(), Answered()), acked, Net(LostOne(), Answered()));
    more := more + [acked];
  }

  lemma LostIsLost()
    ensures !Covers(Answered().delivered, LostOne())
  {
    EndOfStream();
    var d, p := Answered().delivered, LostOne();
    forall off: nat | off <= |d| ensures Bytes(p.outq) != p.accepted[off..] {
      assert |p.accepted[off..]| > 0;
    }
  }

  /** Nothing has given up, both ends are up, the last byte was accepted and not delivered, and it is in no
      queue any more: the acknowledgement of the byte before it took it out. */
  lemma WrapLosesData() returns (run: seq<Step>)
    ensures ISN % 0x1_0000 == 0 && Start(Net(ASKING, ANSWERING), SETUP, BLANK, BLANK)
    ensures Run(Net(ASKING, ANSWERING), SETUP, run)
    ensures var m := After(Net(ASKING, ANSWERING), SETUP, run);
            && Sending(m.a) && Up(m.b) && m.a.accepted == m.b.delivered + [8]
            && m.a.outq == [] && !Covers(m.b.delivered, m.a)
  {
    Opens();
    run := Rounds(ROUNDS);
    run := FinalRun(Net(ASKING, ANSWERING), run);
    LostIsLost();
    hide Zeros;
    hide ClientSent;
    hide ServerSent;
    hide Covers;
  }
}
