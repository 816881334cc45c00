/** One OUT transfer of vsfusbd into a fifo stream: the endpoint is armed only when the stream has room
    for the next packet, so the hardware's buffer serves as one unit of credit. */
module UsbOut {
  import opened Wrappers

  /** ep: the endpoint's packet size; room: what the stream can hold. */
  datatype Port = Port(ep: nat, room: nat)

  datatype Out = Out(
    // linked: the transfer has told the stream to report to it, which one of no bytes does not
    dataSize: nat, idle: bool, active: bool, linked: bool,
    stream: seq<Byte>, rxReady: bool,
    // the hardware: armed for a packet, or holding one whose event is still to be handled
    armed: bool, packet: Option<seq<Byte>>,
    // STREAM_OUT and STREAM_CLOSE_OUT events that are queued, and those that were refused
    wakes: nat, closes: nat, refused: nat, unheard: nat,
    // history: what the host got acknowledged, what the reader took, whether a busy endpoint was ever armed,
    // and a packet longer than what was outstanding, if one came
    host: seq<Byte>, drained: seq<Byte>, twice: bool, dropped: Option<seq<Byte>>)

  function Free(u: Out, q: Port): int {
    q.room - |u.stream|
  }

  /** vsfhal_usbd_ep_enable_OUT. */
  function Enable(u: Out): Out {
    u.(armed := true, twice := u.twice || u.armed || u.packet.Some?)
  }

  /** vsfusbd_transact_out. */
  function TransactOut(u: Out, q: Port): Out {
    if !u.idle then u
    else if Free(u, q) < Min(q.ep, u.dataSize) then u
    else Enable(u.(idle := false))
  }

  /** The history starts anew. */
  function Forgotten(u: Out): Out {
    u.(refused := 0, unheard := 0, host := u.stream, drained := [], twice := false, dropped := None)
  }

  /** A transfer of n bytes is set up. */
  function Prepare(u: Out, n: nat): Out {
    Forgotten(u).(dataSize := n, idle := true, active := true, linked := n > 0)
  }

  /** vsfusbd_ep_recv of n bytes. */
  function Begin(u: Out, q: Port, n: nat): Out {
    if n > 0 then TransactOut(Prepare(u, n), q) else Enable(Prepare(u, n))
  }

  /** A transfer on an endpoint that is not busy, on a stream that may hold something, with events of
      earlier transfers queued. */
  function Start(q: Port, n: nat, stream: seq<Byte>, rxReady: bool, wakes: nat, closes: nat): Out {
    Begin(Out(0, false, false, false, stream, rxReady, false, None, wakes, closes, 0, 0, [], [], false, None), q, n)
  }

  /** vsfusbd_ep_cancel_recv. */
  function Cancel(u: Out): Out {
    u.(active := false)
  }

  /** The accounts of a packet of n bytes: true says that it was the last. */
  function Rearmed(u: Out, q: Port, n: nat): (Out, bool)
    requires n <= u.dataSize
  {
    var left := u.dataSize - n;
    var free := Free(u, q) - n;
    var last := left == 0 || n < q.ep || (!u.rxReady && free < left);
    var idle := if left == 0 then u.idle else if last then true else free < Min(left, q.ep);
    var w := u.(dataSize := left, idle := idle);
    (if !last && !idle then Enable(w) else w, last)
  }

  /** The event that a packet came: vsfusbd_on_OUT_do. The write comes after the endpoint is armed again,
      and is all or nothing. */
  function OnOut(u: Out, q: Port): Out
    requires u.packet.Some?
  {
    var d := u.packet.value;
    var v := u.(packet := None);
    if !u.active || u.dataSize < |d| then v
    else
      var (w, last) := Rearmed(v, q, |d|);
      var x := if 0 < |d| <= Free(u, q) then w.(stream := u.stream + d) else w;
      if last then Cancel(x) else x
  }

  datatype Step =
    | Host(data: seq<Byte>)         // the host sends a packet
    | Handle                        // its event is handled
    | Read(n: nat, posted: bool)    // the reader takes up to n bytes; the event queue has room or not
    | Wake                          // a STREAM_OUT event is handled
    | Disconnect(posted: bool) | Connect  // the reader goes and comes
    | Closed                        // a STREAM_CLOSE_OUT event is handled

  predicate Enabled(u: Out, q: Port, t: Step) {
    match t
    case Host(data) => u.armed && |data| <= q.ep
    case Handle => u.packet.Some?
    case Wake => u.wakes > 0
    case Closed => u.closes > 0
    case _ => true
  }

  function Do(u: Out, q: Port, t: Step): Out
    requires Enabled(u, q, t)
  {
    match t
    case Host(data) =>
      u.(armed := false, packet := Some(data), host := u.host + data,
         dropped := if |data| > u.dataSize then Some(data) else u.dropped)
    case Handle => OnOut(u, q)
    case Read(n, posted) =>
      var k := Min(n, |u.stream|);
      var v := u.(stream := u.stream[k..], drained := u.drained + u.stream[..k]);
      if k == 0 || !u.active || !u.linked then v
      else if posted then v.(wakes := u.wakes + 1)
      else v.(refused := u.refused + 1)
    case Wake =>
      var v := u.(wakes := u.wakes - 1);
      if v.active then TransactOut(v, q) else v
    case Disconnect(posted) =>
      var v := u.(rxReady := false);
      if !(u.rxReady && u.active && u.linked) then v
      else if posted then v.(closes := u.closes + 1)
      else v.(unheard := u.unheard + 1)
    case Connect => u.(rxReady := true)
    case Closed =>
      var v := u.(closes := u.closes - 1);
      if v.active && v.idle then Cancel(v) else v
  }

  predicate Run(u: Out, q: Port, run: seq<Step>)
    decreases |run|
  {
    run == [] || (Enabled(u, q, run[0]) && Run(Do(u, q, run[0]), q, run[1..]))
  }

  function After(u: Out, q: Port, run: seq<Step>): Out
    requires Run(u, q, run)
    decreases |run|
  {
    if run == [] then u else After(Do(u, q, run[0]), q, run[1..])
  }

  function Held(u: Out): seq<Byte> {
    match u.packet
    case None => []
    case Some(d) => d
  }

  /** The endpoint is busy exactly while the transfer is not idle; a busy endpoint has its room. */
  predicate Credit(u: Out, q: Port) {
    && (u.armed || u.packet.Some? ==> u.active)
    && (u.active ==> u.dataSize > 0 && (u.idle <==> !u.armed && u.packet.None?))
    && (u.armed ==> u.packet.None? && Min(q.ep, u.dataSize) <= Free(u, q))
    && (u.packet.Some? ==> |Held(u)| <= Free(u, q) && |Held(u)| <= q.ep && |Held(u)| <= u.dataSize)
  }

  /** A transfer of no bytes waits for one empty packet, idle all the while. */
  predicate Bare(u: Out) {
    && u.dataSize == 0 && u.idle && u.wakes == 0 && Held(u) == []
    && (u.armed ==> u.packet.None?) && (u.active ==> u.armed || u.packet.Some?)
  }

  /** After a packet that was too long nothing arms the endpoint any more. */
  predicate Dead(u: Out) {
    && !u.armed && (if u.linked then !u.idle else u.wakes == 0)
    && (u.packet.Some? ==> u.packet == u.dropped && |Held(u)| > u.dataSize)
  }

  predicate Armed(u: Out, q: Port) {
    && !u.twice
    && if u.dropped.Some? then Dead(u) else if u.linked then Credit(u, q) else Bare(u)
  }

  /** What the host sent and the stream did not get: a packet that waits, or was too long. */
  function Tail(u: Out): seq<Byte> {
    match u.dropped
    case Some(d) => d
    case None => Held(u)
  }

  /** Every byte is accounted for, in order. */
  predicate Conserved(u: Out, q: Port, n: nat, first: nat) {
    && u.host == u.drained + u.stream + Tail(u)
    && |u.stream| <= q.room
    && (u.dropped.None? ==> |u.host| - |Held(u)| + u.dataSize == first + n)
  }

  /** An idle transfer with room for its next packet has an event on the way, or one was refused. */
  predicate Awake(u: Out, q: Port) {
    u.dropped.None? && u.linked && u.active && u.idle && Min(q.ep, u.dataSize) <= Free(u, q) ==> u.wakes > 0 || u.refused > 0
  }

  predicate Inv(u: Out, q: Port, n: nat, first: nat) {
    Armed(u, q) && Conserved(u, q, n, first) && Awake(u, q)
  }

  lemma StartKeeps(q: Port, n: nat, stream: seq<Byte>, rxReady: bool, wakes: nat, closes: nat)
    requires q.ep > 0 && (n > 0 || wakes == 0) && |stream| <= q.room
    ensures Inv(Start(q, n, stream, rxReady, wakes, closes), q, n, |stream|)
  {
    assert [] + stream + [] == stream;
  }

  /** A packet that is taken goes on to the stream and leaves credit for the next one. */
  lemma OnOutLinked(u: Out, q: Port, n: nat, first: nat)
    requires q.ep > 0 && Inv(u, q, n, first) && u.packet.Some? && u.dropped.None? && u.linked
    ensures Inv(OnOut(u, q), q, n, first)
  {
    assert u.drained + (u.stream + Held(u)) == u.host;
  }

  lemma OnOutElse(u: Out, q: Port, n: nat, first: nat)
    requires q.ep > 0 && Inv(u, q, n, first) && u.packet.Some? && (u.dropped.Some? || !u.linked)
    ensures Inv(OnOut(u, q), q, n, first)
  {
  }

  lemma OnOutKeeps(u: Out, q: Port, n: nat, first: nat)
    requires q.ep > 0 && Inv(u, q, n, first) && u.packet.Some?
    ensures Inv(OnOut(u, q), q, n, first)
  {
    hide Inv;
    if u.dropped.None? && u.linked {
      OnOutLinked(u, q, n, first);
    } else {
      OnOutElse(u, q, n, first);
    }
  }

  lemma WakeKeeps(u: Out, q: Port, n: nat, first: nat)
    requires q.ep > 0 && Inv(u, q, n, first) && u.wakes > 0
    ensures Inv(Do(u, q, Wake), q, n, first)
  {
  }

  lemma HostKeeps(u: Out, q: Port, data: seq<Byte>, n: nat, first: nat)
    requires q.ep > 0 && Inv(u, q, n, first) && Enabled(u, q, Host(data))
    ensures Inv(Do(u, q, Host(data)), q, n, first)
  {
  }

  lemma ReadKeeps(u: Out, q: Port, k: nat, posted: bool, n: nat, first: nat)
    requires q.ep > 0 && Inv(u, q, n, first)
    ensures Inv(Do(u, q, Read(k, posted)), q, n, first)
  {
    Taken(u.drained, u.stream, Min(k, |u.stream|));
  }

  lemma Taken(a: seq<Byte>, s: seq<Byte>, k: nat)
    requires k <= |s|
    ensures (a + s[..k]) + s[k..] == a + s && |s[k..]| <= |s|
  {
  }

  lemma StepKeeps(u: Out, q: Port, t: Step, n: nat, first: nat)
    requires q.ep > 0 && Inv(u, q, n, first) && Enabled(u, q, t)
    ensures Inv(Do(u, q, t), q, n, first)
  {
    match t
    case Host(data) => HostKeeps(u, q, data, n, first);
    case Handle => OnOutKeeps(u, q, n, first);
    case Read(k, posted) => ReadKeeps(u, q, k, posted, n, first);
    case Wake => WakeKeeps(u, q, n, first);
    case _ =>
      hide OnOut;
      hide TransactOut;
  }

  lemma {:induction false} RunKeeps(u: Out, q: Port, run: seq<Step>, n: nat, first: nat)
    requires q.ep > 0 && Inv(u, q, n, first) && Run(u, q, run)
    ensures Inv(After(u, q, run), q, n, first)
    decreases |run|
  {
    if run != [] {
      StepKeeps(u, q, run[0], n, first);
      RunKeeps(Do(u, q, run[0]), q, run[1..], n, first);
    }
  }

  /** For a transfer of any length and whatever the host sends: its bytes reach the reader whole and in order,
      but for a packet longer than what is outstanding, which is the last to come; an armed endpoint has
      room for what may come, is never armed twice, and is not left waiting when there is room, unless the
      event queue refused to take the word of it. A transfer of no bytes must find no STREAM_OUT event left
      over: see ArmedTwice. */
  lemma OutLosesNothing(q: Port, n: nat, stream: seq<Byte>, rxReady: bool, wakes: nat, closes: nat, run: seq<Step>)
    requires q.ep > 0 && |stream| <= q.room && (n > 0 || wakes == 0)
    requires Run(Start(q, n, stream, rxReady, wakes, closes), q, run)
    ensures var u := After(Start(q, n, stream, rxReady, wakes, closes), q, run);
            && u.drained + u.stream + Tail(u) == u.host
            && (u.armed ==> u.packet.None? && Min(q.ep, u.dataSize) <= q.room - |u.stream|)
            && !u.twice && (u.dropped.Some? ==> !u.armed)
            && (u.dropped.None? && u.active && !u.armed && u.packet.None? && Min(q.ep, u.dataSize) <= q.room - |u.stream|
                ==> u.wakes > 0 || u.refused > 0)
            && (u.dropped.None? && u.packet.None? && u.dataSize == 0 ==> |u.drained + u.stream| == |stream| + n)
  {
    StartKeeps(q, n, stream, rxReady, wakes, closes);
    RunKeeps(Start(q, n, stream, rxReady, wakes, closes), q, run, n, |stream|);
  }

  lemma OneWake(q: Port, stream: seq<Byte>, rxReady: bool, wakes: nat, closes: nat)
    requires q.ep > 0 && |stream| <= q.room && wakes > 0
    ensures var u := Start(q, 0, stream, rxReady, wakes, closes);
            Run(u, q, [Wake]) && After(u, q, [Wake]).twice
  {
    var u := Start(q, 0, stream, rxReady, wakes, closes);
    assert [Wake][1..] == [];
    assert Run(Do(u, q, Wake), q, []);
  }

  /** The endpoint is armed while it is busy, in some run, exactly for a transfer of no bytes that finds a
      STREAM_OUT event left over: it is idle although its endpoint is enabled. */
  lemma ArmedTwice(q: Port, n: nat, stream: seq<Byte>, rxReady: bool, wakes: nat, closes: nat)
    requires q.ep > 0 && |stream| <= q.room
    ensures var u := Start(q, n, stream, rxReady, wakes, closes);
            (exists run :: Run(u, q, run) && After(u, q, run).twice) <==> n == 0 && wakes > 0
  {
    var u := Start(q, n, stream, rxReady, wakes, closes);
    if n == 0 && wakes > 0 {
      OneWake(q, stream, rxReady, wakes, closes);
    } else {
      forall run | Run(u, q, run) ensures !After(u, q, run).twice {
        OutLosesNothing(q, n, stream, rxReady, wakes, closes, run);
      }
    }
  }

  /** A transfer goes on after a packet exactly if it was on, and either the packet was too long, or something
      is left, the packet was full, and the reader is there or the stream can take the rest. */
  lemma EndsExactly(u: Out, q: Port, n: nat, first: nat)
    requires Inv(u, q, n, first) && u.packet.Some?
    ensures var left := u.dataSize - |Held(u)|;
            OnOut(u, q).active <==>
            u.active && (left < 0 || (left > 0 && |Held(u)| >= q.ep && (u.rxReady || q.room - |u.stream| - |Held(u)| >= left)))
  {
  }

  /** A packet that came is written exactly if it is no longer than what is outstanding and fits the stream;
      an over-long one is dropped, and the endpoint stays dead: not armed, and no stream event arms it. */
  lemma TakenExactly(u: Out, q: Port, d: seq<Byte>)
    requires u.active && !u.idle && !u.armed && u.packet == Some(d) && d != []
    ensures OnOut(u, q).stream == u.stream + d <==> |d| <= u.dataSize && |d| <= Free(u, q)
    ensures u.dataSize < |d| ==>
              var v := OnOut(u, q); v.stream == u.stream && !v.armed && v.packet.None? && v.active && TransactOut(v, q) == v
  {
    assert u.stream + d != u.stream by {
      assert |u.stream + d| > |u.stream|;
    }
  }

  /** A transfer of one byte that gets a packet of two. */
  lemma OverlongDropped()
    ensures var q := Port(64, 100);
            var u := Start(q, 1, [], true, 0, 0);
            var v := OnOut(u.(armed := false, packet := Some([1, 2])), q);
            u.armed && v.stream == [] && v.active && !v.armed && TransactOut(v, q) == v
  {
  }

  // ---------- a reader that goes ----------

  /** A transfer that waits for room although its reader is gone has word of that on the way, or it was refused. */
  predicate Heard(u: Out) {
    u.dropped.None? && u.linked && u.active && u.idle && !u.rxReady ==> u.closes > 0 || u.unheard > 0
  }

  lemma HandleHeard(u: Out, q: Port, n: nat, first: nat)
    requires q.ep > 0 && Inv(u, q, n, first) && Heard(u) && u.packet.Some?
    ensures Heard(OnOut(u, q))
  {
  }

  lemma StepHeard(u: Out, q: Port, t: Step, n: nat, first: nat)
    requires q.ep > 0 && Inv(u, q, n, first) && Heard(u) && Enabled(u, q, t)
    ensures Heard(Do(u, q, t))
  {
    match t
    case Handle => HandleHeard(u, q, n, first);
    case Read(k, posted) =>
      hide Inv;
    case _ =>
      hide OnOut;
  }

  lemma {:induction false} RunHeard(u: Out, q: Port, run: seq<Step>, n: nat, first: nat)
    requires q.ep > 0 && Inv(u, q, n, first) && Heard(u) && Run(u, q, run)
    ensures Heard(After(u, q, run))
    decreases |run|
  {
    hide Inv;
    hide Heard;
    if run != [] {
      StepKeeps(u, q, run[0], n, first);
      StepHeard(u, q, run[0], n, first);
      RunHeard(Do(u, q, run[0]), q, run[1..], n, first);
    }
  }

  lemma NoSteps(u: Out, q: Port)
    ensures Run(u, q, []) && After(u, q, []) == u
  {
  }

  /** In no run does a transfer wait for room with its reader gone and no word of it on the way or refused, exactly
      if it has no bytes, or at its start the reader is there, the stream has room for the first packet, or a
      STREAM_CLOSE_OUT event is left over: a reader that was gone before is never told. */
  lemma HeardExactly(q: Port, n: nat, stream: seq<Byte>, rxReady: bool, wakes: nat, closes: nat)
    requires q.ep > 0 && |stream| <= q.room && (n > 0 || wakes == 0)
    ensures var u := Start(q, n, stream, rxReady, wakes, closes);
            (forall run :: Run(u, q, run) ==> Heard(After(u, q, run)))
            <==> n == 0 || rxReady || Min(q.ep, n) <= q.room - |stream| || closes > 0
  {
    var u := Start(q, n, stream, rxReady, wakes, closes);
    if n == 0 || rxReady || Min(q.ep, n) <= q.room - |stream| || closes > 0 {
      StartKeeps(q, n, stream, rxReady, wakes, closes);
      forall run | Run(u, q, run) ensures Heard(After(u, q, run)) {
        RunHeard(u, q, run, n, |stream|);
      }
    } else {
      NoSteps(u, q);
      assert !Heard(After(u, q, []));
    }
  }

  /** That word ends the transfer exactly if its endpoint is neither armed nor holds a packet; otherwise it
      changes nothing but the queue of events, and the reader still gets the packet. */
  lemma CloseEndsExactly(u: Out, q: Port, n: nat, first: nat)
    requires Inv(u, q, n, first) && u.linked && u.dropped.None? && u.closes > 0
    ensures var v := Do(u, q, Closed);
            && (v.active <==> u.armed || u.packet.Some?)
            && v == u.(closes := u.closes - 1, active := v.active)
  {
  }
}
