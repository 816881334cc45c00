/** One IN transfer of vsfusbd out of a fifo stream: n bytes cut into packets of the endpoint's size, with
    a closing zero-length packet when it was asked for and is needed. */
module UsbIn {
  import opened Wrappers
  import opened Division

  datatype In = In(
    // linked: the transfer has told the stream to report to it, which one of no bytes does not
    dataSize: nat, zlp: bool, idle: bool, active: bool, linked: bool,
    stream: seq<Byte>, txReady: bool,
    // the hardware: a packet handed to it, or the event that it went out
    packet: Option<seq<Byte>>, done: bool,
    // STREAM_IN and STREAM_CLOSE_IN events that are queued, and those that were refused
    wakes: nat, refused: nat,
    // history: packets the host got, all that was in the stream, whether a packet was given to a busy endpoint
    sent: seq<seq<Byte>>, produced: seq<Byte>, clash: bool)

  /** vsfhal_usbd_ep_set_IN_count, with the data written before it. */
  function Hand(u: In, data: seq<Byte>): In {
    u.(packet := Some(data), clash := u.clash || u.packet.Some? || u.done)
  }

  function Cancel(u: In): In {
    u.(active := false)
  }

  /** A packet of n bytes out of the stream; a short last one needs no closing packet. */
  function NextPacket(u: In, ep: nat, n: nat): In
    requires n <= u.dataSize && n <= |u.stream|
  {
    var left := u.dataSize - n;
    Hand(u.(dataSize := left, zlp := if left == 0 && n < ep then false else u.zlp, stream := u.stream[n..]), u.stream[..n])
  }

  /** vsfusbd_on_IN_do. */
  function OnIn(u: In, ep: nat): In {
    if u.dataSize > 0 then
      var cur := Min(u.dataSize, ep);
      if |u.stream| < cur then
        var v := u.(idle := true);
        if !u.txReady && |u.stream| < u.dataSize then Cancel(v) else v
      else
        NextPacket(u.(idle := false), ep, cur)
    else if u.zlp then
      Hand(u.(zlp := false), [])
    else
      Cancel(u)
  }

  /** The history starts anew. */
  function Forgotten(u: In): In {
    u.(refused := 0, sent := [], produced := u.stream, clash := false)
  }

  /** A transfer of n bytes is set up. */
  function Prepare(u: In, n: nat, zlp: bool): In {
    Forgotten(u).(dataSize := n, zlp := zlp, idle := true, active := true, linked := n > 0)
  }

  /** vsfusbd_ep_send of n bytes; with none an empty packet goes out at once. */
  function Begin(u: In, ep: nat, n: nat, zlp: bool): In {
    if n > 0 then OnIn(Prepare(u, n, zlp), ep) else Hand(Prepare(u, n, zlp), [])
  }

  /** A transfer on an endpoint that is not busy, with events of earlier ones queued. */
  function Start(ep: nat, n: nat, zlp: bool, stream: seq<Byte>, txReady: bool, wakes: nat): In {
    Begin(In(0, false, false, false, false, stream, txReady, None, false, wakes, 0, [], [], false), ep, n, zlp)
  }

  datatype Step =
    | Write(data: seq<Byte>, posted: bool)  // the writer's bytes enter the stream; the event queue has room or not
    | Sent                                  // the packet goes out
    | Handle                                // the event that it did is handled
    | Wake                                  // a STREAM_IN or STREAM_CLOSE_IN event is handled
    | Connect | Disconnect(posted: bool)    // the writer comes and goes

  /** A stream event, which the event queue takes or refuses. */
  function Tell(u: In, due: bool, posted: bool): In {
    if !due then u else if posted then u.(wakes := u.wakes + 1) else u.(refused := u.refused + 1)
  }

  predicate Enabled(u: In, t: Step) {
    match t
    case Sent => u.packet.Some?
    case Handle => u.done
    case Wake => u.wakes > 0
    case _ => true
  }

  function Do(u: In, ep: nat, t: Step): In
    requires Enabled(u, t)
  {
    match t
    case Write(data, posted) =>
      Tell(u.(stream := u.stream + data, produced := u.produced + data), data != [] && u.active && u.linked, posted)
    case Sent => u.(packet := None, done := true, sent := u.sent + [u.packet.value])
    case Handle =>
      var v := u.(done := false);
      if v.active then OnIn(v, ep) else v
    case Wake =>
      var v := u.(wakes := u.wakes - 1);
      if v.active && v.idle then OnIn(v, ep) else v
    case Connect => u.(txReady := true)
    case Disconnect(posted) => Tell(u.(txReady := false), u.txReady && u.active && u.linked, posted)
  }

  predicate Run(u: In, ep: nat, run: seq<Step>)
    decreases |run|
  {
    run == [] || (Enabled(u, run[0]) && Run(Do(u, ep, run[0]), ep, run[1..]))
  }

  function After(u: In, ep: nat, run: seq<Step>): In
    requires Run(u, ep, run)
    decreases |run|
  {
    if run == [] then u else After(Do(u, ep, run[0]), ep, run[1..])
  }

  // ---------- the packets of a transfer ----------

  /** The data cut into packets. */
  function Chunks(data: seq<Byte>, ep: nat): seq<seq<Byte>>
    requires ep > 0
    decreases |data|
  {
    if data == [] then []
    else if |data| <= ep then [data]
    else [data[..ep]] + Chunks(data[ep..], ep)
  }

  function Concat(packets: seq<seq<Byte>>): seq<Byte> {
    if packets == [] then [] else packets[0] + Concat(packets[1..])
  }

  /** What section 8.5.3.2 of USB 2.0 asks for. */
  function Packets(data: seq<Byte>, ep: nat, zlp: bool): seq<seq<Byte>>
    requires ep > 0
  {
    Chunks(data, ep) + if zlp && Whole(|data|, ep) then [[]] else []
  }

  /** A whole number of full packets. */
  predicate Whole(n: nat, ep: nat)
    requires ep > 0
  {
    n == 0 || (n >= ep && Whole(n - ep, ep))
  }

  lemma {:induction false} WholeIs(n: nat, ep: nat)
    requires ep > 0
    ensures Whole(n, ep) <==> n % ep == 0
    decreases n
  {
    if n >= ep {
      WholeIs(n - ep, ep);
      assert n % ep == (n - ep) % ep by {
        var k := (n - ep) / ep;
        assert n == (k + 1) * ep + (n - ep) % ep;
        Divided(n, ep, k + 1, (n - ep) % ep);
      }
    } else {
      Divided(n, ep, 0, n);
    }
  }

  lemma {:induction false} WholeGrows(n: nat, m: nat, ep: nat)
    requires ep > 0 && Whole(n, ep) && 0 < m <= ep
    ensures Whole(n + m, ep) <==> m == ep
    decreases n
  {
    if n > 0 {
      WholeGrows(n - ep, m, ep);
    }
  }

  /** The chunks are the data again, all full but the last, which is not empty. */
  lemma {:induction false} ChunksAre(data: seq<Byte>, ep: nat)
    requires ep > 0
    ensures Concat(Chunks(data, ep)) == data
    ensures forall i :: 0 <= i < |Chunks(data, ep)| - 1 ==> |Chunks(data, ep)[i]| == ep
    ensures data != [] ==> Chunks(data, ep) != [] && 0 < |Chunks(data, ep)[|Chunks(data, ep)| - 1]| <= ep
    decreases |data|
  {
    if data != [] && |data| <= ep {
      assert [data][1..] == [];
      assert data + [] == data;
    } else if |data| > ep {
      ChunksAre(data[ep..], ep);
      var k := Chunks(data[ep..], ep);
      assert ([data[..ep]] + k)[1..] == k;
      assert data == data[..ep] + data[ep..];
    }
  }

  /** One more packet after a whole number of full ones. */
  lemma {:induction false} ChunksGrow(data: seq<Byte>, more: seq<Byte>, ep: nat)
    requires ep > 0 && Whole(|data|, ep) && 0 < |more| <= ep
    ensures Chunks(data + more, ep) == Chunks(data, ep) + [more]
    decreases |data|
  {
    if data == [] {
      assert data + more == more;
    } else {
      assert (data + more)[..ep] == data[..ep];
      assert (data + more)[ep..] == data[ep..] + more;
      ChunksGrow(data[ep..], more, ep);
      if |data| == ep {
        assert data[ep..] == [] && data[..ep] == data;
      }
    }
  }

  // ---------- every run ----------

  function Flight(u: In): seq<seq<Byte>> {
    match u.packet
    case None => []
    case Some(d) => [d]
  }

  /** One packet at a time: the endpoint is busy exactly while the transfer is not idle. */
  predicate OneInFlight(u: In) {
    && u.linked && !u.clash && !(u.packet.Some? && u.done)
    && (u.active ==> (u.idle <==> u.packet.None? && !u.done))
    && (!u.active ==> u.packet.None? && !u.done)
    && (u.active && u.idle ==> u.dataSize > 0)
    && (!u.active && u.dataSize == 0 ==> !u.zlp)
  }

  /** The stream holds what was not taken of all that was written. */
  predicate Placed(u: In, n: nat) {
    u.dataSize <= n && n - u.dataSize <= |u.produced| && u.stream == u.produced[n - u.dataSize..]
  }

  /** The packets handed over when d of n bytes were taken, and a closing packet is still to come or not. */
  predicate Packed(packets: seq<seq<Byte>>, d: seq<Byte>, ep: nat, n: nat, left: bool, zlp: bool)
    requires ep > 0
  {
    if |d| < n then Whole(|d|, ep) && left == zlp && packets == Chunks(d, ep)
    else if left then zlp && Whole(|d|, ep) && packets == Chunks(d, ep)
    else packets == Packets(d, ep, zlp)
  }

  lemma PackedGrows(packets: seq<seq<Byte>>, d: seq<Byte>, part: seq<Byte>, ep: nat, n: nat, zlp: bool)
    requires ep > 0 && |d| < n && Packed(packets, d, ep, n, zlp, zlp) && |part| == Min(n - |d|, ep)
    ensures Packed(packets + [part], d + part, ep, n, if |d + part| == n && |part| < ep then false else zlp, zlp)
  {
    ChunksGrow(d, part, ep);
    WholeGrows(|d|, |part|, ep);
  }

  ghost predicate Cut(u: In, ep: nat, n: nat, zlp: bool)
    requires ep > 0
  {
    Placed(u, n) && Packed(u.sent + Flight(u), u.produced[..n - u.dataSize], ep, n, u.zlp, zlp)
  }

  /** An idle transfer whose next packet is there has an event on the way, or one was refused. */
  predicate Awake(u: In, ep: nat) {
    u.active && u.idle && Min(u.dataSize, ep) <= |u.stream| ==> u.wakes > 0 || u.refused > 0
  }

  ghost predicate Inv(u: In, ep: nat, n: nat, zlp: bool)
    requires ep > 0
  {
    OneInFlight(u) && Cut(u, ep, n, zlp) && Awake(u, ep)
  }

  lemma TakePart(produced: seq<Byte>, taken: nat, cur: nat)
    requires taken + cur <= |produced|
    ensures produced[..taken] + produced[taken..][..cur] == produced[..taken + cur]
    ensures produced[taken..][cur..] == produced[taken + cur..]
  {
  }

  /** Until the last packet the closing one is still as it was asked for. */
  lemma PackedLeft(packets: seq<seq<Byte>>, d: seq<Byte>, ep: nat, n: nat, left: bool, zlp: bool)
    requires ep > 0 && |d| < n && Packed(packets, d, ep, n, left, zlp)
    ensures left == zlp
  {
  }

  lemma OnInCutsData(u: In, ep: nat, n: nat, zlp: bool)
    requires ep > 0 && Cut(u, ep, n, zlp) && u.packet.None? && u.dataSize > 0 && Min(u.dataSize, ep) <= |u.stream|
    ensures Cut(OnIn(u, ep), ep, n, zlp)
  {
    hide Packed;
    var cur := Min(u.dataSize, ep);
    var d := u.produced[..n - u.dataSize];
    assert u.sent + Flight(u) == u.sent;
    TakePart(u.produced, n - u.dataSize, cur);
    PackedLeft(u.sent, d, ep, n, u.zlp, zlp);
    PackedGrows(u.sent, d, u.stream[..cur], ep, n, zlp);
  }

  lemma PackedCloses(packets: seq<seq<Byte>>, d: seq<Byte>, ep: nat, n: nat, zlp: bool)
    requires ep > 0 && |d| == n && Packed(packets, d, ep, n, true, zlp)
    ensures Packed(packets + [[]], d, ep, n, false, zlp)
  {
  }

  lemma OnInCuts(u: In, ep: nat, n: nat, zlp: bool)
    requires ep > 0 && Cut(u, ep, n, zlp) && u.packet.None?
    ensures Cut(OnIn(u, ep), ep, n, zlp)
  {
    hide Packed;
    if u.dataSize > 0 && Min(u.dataSize, ep) <= |u.stream| {
      OnInCutsData(u, ep, n, zlp);
    } else if u.dataSize == 0 && u.zlp {
      assert u.sent + Flight(u) == u.sent;
      PackedCloses(u.sent, u.produced[..n], ep, n, zlp);
    }
  }

  lemma OnInKeeps(u: In, ep: nat, n: nat, zlp: bool)
    requires ep > 0 && Cut(u, ep, n, zlp) && u.active && u.packet.None? && !u.done && !u.clash && u.linked
    requires u.idle ==> u.dataSize > 0
    ensures Inv(OnIn(u, ep), ep, n, zlp)
  {
    OnInCuts(u, ep, n, zlp);
    hide Cut;
  }

  lemma StepCuts(u: In, ep: nat, t: Step, n: nat, zlp: bool)
    requires ep > 0 && Cut(u, ep, n, zlp) && Enabled(u, t) && !t.Handle? && !t.Wake?
    ensures Cut(Do(u, ep, t), ep, n, zlp)
  {
    hide Packed;
    match t
    case Write(data, _) =>
      var k := n - u.dataSize;
      assert (u.produced + data)[..k] == u.produced[..k];
      assert (u.produced + data)[k..] == u.produced[k..] + data;
    case Sent => assert u.sent + [u.packet.value] + [] == u.sent + [u.packet.value];
    case _ =>
  }

  lemma CutSame(u: In, v: In, ep: nat, n: nat, zlp: bool)
    requires ep > 0 && Cut(u, ep, n, zlp)
    requires v == u.(done := v.done) || v == u.(wakes := v.wakes)
    ensures Cut(v, ep, n, zlp)
  {
    hide Packed;
  }

  lemma StepKeeps(u: In, ep: nat, t: Step, n: nat, zlp: bool)
    requires ep > 0 && Inv(u, ep, n, zlp) && Enabled(u, t)
    ensures Inv(Do(u, ep, t), ep, n, zlp)
  {
    hide Cut;
    hide OnIn;
    match t
    case Handle =>
      CutSame(u, u.(done := false), ep, n, zlp);
      if u.active {
        OnInKeeps(u.(done := false), ep, n, zlp);
      }
    case Wake =>
      CutSame(u, u.(wakes := u.wakes - 1), ep, n, zlp);
      if u.active && u.idle {
        OnInKeeps(u.(wakes := u.wakes - 1), ep, n, zlp);
      }
    case _ => StepCuts(u, ep, t, n, zlp);
  }

  lemma {:induction false} RunKeeps(u: In, ep: nat, run: seq<Step>, n: nat, zlp: bool)
    requires ep > 0 && Inv(u, ep, n, zlp) && Run(u, ep, run)
    ensures Inv(After(u, ep, run), ep, n, zlp)
    decreases |run|
  {
    if run != [] {
      StepKeeps(u, ep, run[0], n, zlp);
      RunKeeps(Do(u, ep, run[0]), ep, run[1..], n, zlp);
    }
  }

  lemma StartKeeps(ep: nat, n: nat, zlp: bool, stream: seq<Byte>, txReady: bool, wakes: nat)
    requires ep > 0 && n > 0
    ensures Inv(Start(ep, n, zlp, stream, txReady, wakes), ep, n, zlp)
  {
    var u := In(n, zlp, true, true, true, stream, txReady, None, false, wakes, 0, [], stream, false);
    assert stream[..0] == [] && stream[0..] == stream;
    assert u.sent + Flight(u) == [];
    OnInKeeps(u, ep, n, zlp);
  }

  /** The packets on the bus, with the one in flight, are the stream's next bytes cut as section 8.5.3.2
      of USB 2.0 asks; a transfer that ends with all its bytes taken has sent them all and closed them right;
      there is never a second packet in flight, and no packet that is there waits for nothing, unless the
      event queue refused to take the word of it. */
  lemma InSendsPackets(ep: nat, n: nat, zlp: bool, stream: seq<Byte>, txReady: bool, wakes: nat, run: seq<Step>)
    requires ep > 0 && n > 0 && Run(Start(ep, n, zlp, stream, txReady, wakes), ep, run)
    ensures var u := After(Start(ep, n, zlp, stream, txReady, wakes), ep, run);
            && u.dataSize <= n && n - u.dataSize <= |u.produced|
            && (u.dataSize > 0 ==> u.sent + Flight(u) == Chunks(u.produced[..n - u.dataSize], ep))
            && (u.dataSize > 0 ==> (n - u.dataSize) % ep == 0)
            && (!u.active && u.dataSize == 0 ==>
                  u.sent == Chunks(u.produced[..n], ep) + if zlp && n % ep == 0 then [[]] else [])
            && !u.clash && !(u.packet.Some? && u.done)
            && (u.active && u.packet.None? && !u.done && Min(u.dataSize, ep) <= |u.stream| ==> u.wakes > 0 || u.refused > 0)
  {
    StartKeeps(ep, n, zlp, stream, txReady, wakes);
    RunKeeps(Start(ep, n, zlp, stream, txReady, wakes), ep, run, n, zlp);
    var u := After(Start(ep, n, zlp, stream, txReady, wakes), ep, run);
    WholeIs(n, ep);
    WholeIs(n - u.dataSize, ep);
    assert u.sent + [] == u.sent;
  }

  /** A transfer is dropped before its end exactly if the writer has gone and the next packet is not there:
      what is left in the stream, less than a packet, stays in it. */
  lemma DropsExactly(u: In, ep: nat)
    requires ep > 0 && u.active && u.dataSize > 0
    ensures !OnIn(u, ep).active <==> !u.txReady && |u.stream| < Min(u.dataSize, ep)
    ensures !OnIn(u, ep).active ==> OnIn(u, ep).stream == u.stream
  {
  }

  // ---------- transfers of no bytes ----------

  /** One empty packet, and a second one if a closing packet was asked for; the transfer is idle all the while. */
  predicate Bare(u: In, zlp: bool) {
    && !u.linked && u.dataSize == 0 && u.idle && !u.clash && !(u.packet.Some? && u.done)
    && (if zlp then
          && u.wakes == 0 && (u.zlp ==> u.active) && (u.active ==> u.packet.Some? || u.done)
          && u.sent + Flight(u) == if u.zlp then [[]] else [[], []]
        else !u.zlp && u.sent + Flight(u) == [[]])
  }

  lemma BareStep(u: In, ep: nat, t: Step, zlp: bool)
    requires Bare(u, zlp) && Enabled(u, t)
    ensures Bare(Do(u, ep, t), zlp)
  {
    assert u.sent + [] == u.sent;
    match t
    case Sent => assert u.sent + [u.packet.value] + [] == u.sent + [u.packet.value];
    case _ =>
  }

  lemma {:induction false} BareRun(u: In, ep: nat, run: seq<Step>, zlp: bool)
    requires Bare(u, zlp) && Run(u, ep, run)
    ensures Bare(After(u, ep, run), zlp)
    decreases |run|
  {
    if run != [] {
      BareStep(u, ep, run[0], zlp);
      BareRun(Do(u, ep, run[0]), ep, run[1..], zlp);
    }
  }

  /** A transfer of no bytes sends one empty packet, or with a closing packet asked for two, one at a time. In
      that case it must find no stream event left over: see ClashExactly. */
  lemma EmptyTransfer(ep: nat, zlp: bool, stream: seq<Byte>, txReady: bool, wakes: nat, run: seq<Step>)
    requires (!zlp || wakes == 0) && Run(Start(ep, 0, zlp, stream, txReady, wakes), ep, run)
    ensures var u := After(Start(ep, 0, zlp, stream, txReady, wakes), ep, run);
            && !u.clash && (u.sent + Flight(u) == [[]] || (zlp && u.sent + Flight(u) == [[], []]))
            && (!u.active && zlp ==> u.sent + Flight(u) == [[], []])
  {
    var u := Start(ep, 0, zlp, stream, txReady, wakes);
    assert u.sent + Flight(u) == [[]];
    BareRun(u, ep, run, zlp);
  }

  lemma EarlyWake(ep: nat, stream: seq<Byte>, txReady: bool, wakes: nat)
    requires wakes > 0
    ensures var u := Start(ep, 0, true, stream, txReady, wakes);
            Run(u, ep, [Wake]) && After(u, ep, [Wake]).clash
  {
    var u := Start(ep, 0, true, stream, txReady, wakes);
    assert [Wake][1..] == [];
    assert Run(Do(u, ep, Wake), ep, []);
  }

  /** A packet is handed to a busy endpoint, in some run, exactly for a transfer of no bytes that asks for a
      closing packet and finds a stream event left over. */
  lemma ClashExactly(ep: nat, n: nat, zlp: bool, stream: seq<Byte>, txReady: bool, wakes: nat)
    requires ep > 0
    ensures var u := Start(ep, n, zlp, stream, txReady, wakes);
            (exists run :: Run(u, ep, run) && After(u, ep, run).clash) <==> n == 0 && zlp && wakes > 0
  {
    var u := Start(ep, n, zlp, stream, txReady, wakes);
    if n == 0 && zlp && wakes > 0 {
      EarlyWake(ep, stream, txReady, wakes);
    } else {
      forall run | Run(u, ep, run) ensures !After(u, ep, run).clash {
        if n > 0 {
          InSendsPackets(ep, n, zlp, stream, txReady, wakes, run);
        } else {
          EmptyTransfer(ep, zlp, stream, txReady, wakes, run);
        }
      }
    }
  }
}
