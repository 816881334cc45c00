/** The event queue of vsfsm.c as a machine of atomic steps. Interrupts may post between any two
    steps; what the code does with interrupts disabled is one step. */
module EventKernel {
  import opened Wrappers

  type Sm = nat

  const EVT_TIMER: int := 4

  /** evt & VSFSM_EVT_INSTANT_MSK, on two's complement. */
  predicate Instant(evt: int) {
    evt / 0x2000 % 2 == 1
  }

  /** A slot of the ring; sm is None after vsfsm_fini. */
  datatype Entry = Entry(sm: Option<Sm>, evt: int)

  datatype Error = NotEnoughResources | Fail
  datatype Status = Ok | Err(error: Error)

  /** Where vsfsm_poll stands. While a handler runs, and outside the loop, it is Idle. */
  datatype Phase = Idle | Checked | Fetched(tmp: Entry) | Advanced(tmp: Entry) | Committed(tmp: Entry)

  datatype State = State(
    ring: seq<Entry>, head: nat, tail: nat, evtCount: nat, tickCount: nat,
    smCount: map<Sm, nat>, phase: Phase,
    // history: entries put in and taken out of the ring; events accepted and events whose handling began
    entered: seq<Entry>, left: seq<Entry>, posted: seq<Entry>, started: seq<Entry>, retired: set<Sm>)

  function Next(pos: nat, size: nat): nat {
    if pos + 1 == size then 0 else pos + 1
  }

  function CountOf(s: State, sm: Sm): nat {
    if sm in s.smCount then s.smCount[sm] else 0
  }

  // The counters are unsigned and wrap: uint16_t in the queue, uint32_t in each machine.
  const UINT16: nat := 0x1_0000
  const UINT32: nat := 0x1_0000_0000

  function Up(n: nat, width: nat): nat {
    if n + 1 == width then 0 else n + 1
  }

  // ---------- posting ----------

  /** vsfsm_evtq_post, up to the call of activate. */
  function Enqueue(s: State, sm: Sm, evt: int): (State, Status) {
    if s.evtCount >= |s.ring| then
      (s, Err(NotEnoughResources))
    else if evt == EVT_TIMER && s.tickCount != 0 then
      (s, Ok)
    else
      var e := Entry(Some(sm), evt);
      (s.(ring := if s.tail < |s.ring| then s.ring[s.tail := e] else s.ring,
          tail := Next(s.tail, |s.ring|),
          evtCount := Up(s.evtCount, UINT16),
          tickCount := if evt == EVT_TIMER then Up(s.tickCount, UINT16) else s.tickCount,
          smCount := s.smCount[sm := Up(CountOf(s, sm), UINT32)],
          entered := s.entered + [e],
          posted := s.posted + [e]),
       Ok)
  }

  /** vsfsm_post_evt_pending for a machine with a queue; also vsfsm_post_evt when that queue is not
      the current one. */
  function PostPending(s: State, sm: Sm, evt: int): (State, Status) {
    if Instant(evt) then (s, Err(Fail)) else Enqueue(s, sm, evt)
  }

  /** The handler of sm is called with evt. */
  function Start(s: State, e: Entry): State {
    s.(started := s.started + [e])
  }

  /** vsfsm_post_evt for a machine whose queue is the current one. */
  function PostCurrent(s: State, sm: Sm, evt: int): (State, Status) {
    if !Instant(evt) && CountOf(s, sm) != 0 then
      Enqueue(s, sm, evt)
    else
      var e := Entry(Some(sm), evt);
      (Start(s, e).(posted := s.posted + [e]), Ok)
  }

  // ---------- polling ----------

  function Fetch(s: State): State {
    s.(phase := if s.head < |s.ring| then Fetched(s.ring[s.head]) else Idle)
  }

  function Advance(s: State): State
    requires s.phase.Fetched?
  {
    s.(head := Next(s.head, |s.ring|), phase := Advanced(s.phase.tmp), left := s.left + [s.phase.tmp])
  }

  /** What happens between DISABLE and ENABLE_GLOBAL_INTERRUPT. */
  function Commit(s: State): State
    requires s.phase.Advanced?
  {
    var tmp := s.phase.tmp;
    s.(smCount := if tmp.sm.Some? then s.smCount[tmp.sm.value := Down(CountOf(s, tmp.sm.value), UINT32)] else s.smCount,
       evtCount := Down(s.evtCount, UINT16),
       tickCount := if tmp.evt == EVT_TIMER then Down(s.tickCount, UINT16) else s.tickCount,
       phase := Committed(tmp))
  }

  function Dispatch(s: State): State
    requires s.phase.Committed?
  {
    (if s.phase.tmp.sm.Some? then Start(s, s.phase.tmp) else s).(phase := Idle)
  }

  // ---------- vsfsm_fini ----------

  function Forget(e: Entry, sm: Sm): Entry {
    if e.sm == Some(sm) then e.(sm := None) else e
  }

  function ForgetAll(es: seq<Entry>, sm: Sm): (r: seq<Entry>)
    ensures |r| == |es| && forall k :: 0 <= k < |es| ==> r[k] == Forget(es[k], sm)
  {
    seq(|es|, k requires 0 <= k < |es| => Forget(es[k], sm))
  }

  /** The slots from head up to, not including, tail: none of them when the two are equal. */
  predicate Scanned(s: State, i: nat) {
    if s.head <= s.tail then s.head <= i < s.tail else i < s.tail || s.head <= i
  }

  function Fini(s: State, sm: Sm): State {
    s.(ring := seq(|s.ring|, i requires 0 <= i < |s.ring| => if Scanned(s, i) then Forget(s.ring[i], sm) else s.ring[i]),
       retired := s.retired + {sm})
  }

  // ---------- the ring as a sequence ----------

  /** n slots from position head on, round the end. */
  function Window(ring: seq<Entry>, head: nat, n: nat): (w: seq<Entry>)
    requires head <= |ring| && n <= |ring|
    ensures |w| == n
  {
    if head + n <= |ring| then ring[head..head + n] else ring[head..] + ring[..head + n - |ring|]
  }

  lemma WindowPush(ring: seq<Entry>, head: nat, n: nat, e: Entry)
    requires head < |ring| && n < |ring|
    ensures var tail := Around(head + n, |ring|);
            && tail < |ring| && Around(head + n + 1, |ring|) == Next(tail, |ring|)
            && Window(ring[tail := e], head, n + 1) == Window(ring, head, n) + [e]
  {
  }

  lemma WindowPop(ring: seq<Entry>, head: nat, n: nat)
    requires head < |ring| && 0 < n <= |ring|
    ensures Next(head, |ring|) < |ring| && Around(head + n, |ring|) == Around(Next(head, |ring|) + n - 1, |ring|)
    ensures Window(ring, head, n) == [ring[head]] + Window(ring, Next(head, |ring|), n - 1)
  {
  }

  function CountSm(es: seq<Entry>, sm: Sm): nat {
    if es == [] then 0 else CountSm(es[..|es| - 1], sm) + if es[|es| - 1].sm == Some(sm) then 1 else 0
  }

  function CountTimer(es: seq<Entry>): nat {
    if es == [] then 0 else CountTimer(es[..|es| - 1]) + if es[|es| - 1].evt == EVT_TIMER then 1 else 0
  }

  lemma {:induction false} CountsConcat(a: seq<Entry>, b: seq<Entry>, sm: Sm)
    ensures CountSm(a + b, sm) == CountSm(a, sm) + CountSm(b, sm)
    ensures CountTimer(a + b) == CountTimer(a) + CountTimer(b)
  {
    if b == [] {
      assert a + b == a;
    } else {
      assert (a + b)[..|a + b| - 1] == a + b[..|b| - 1];
      CountsConcat(a, b[..|b| - 1], sm);
    }
  }

  /** The events whose order the kernel promises to keep. */
  predicate Ordinary(e: Entry, sm: Sm) {
    e.sm == Some(sm) && e.evt != EVT_TIMER && !Instant(e.evt)
  }

  function Of(es: seq<Entry>, sm: Sm): seq<Entry> {
    if es == [] then [] else Of(es[..|es| - 1], sm) + if Ordinary(es[|es| - 1], sm) then [es[|es| - 1]] else []
  }

  lemma {:induction false} OfConcat(a: seq<Entry>, b: seq<Entry>, sm: Sm)
    ensures Of(a + b, sm) == Of(a, sm) + Of(b, sm)
  {
    if b == [] {
      assert a + b == a;
    } else {
      assert (a + b)[..|a + b| - 1] == a + b[..|b| - 1];
      OfConcat(a, b[..|b| - 1], sm);
    }
  }

  // ---------- the invariant ----------

  /** Between the head's advance and the count's decrement evtCount is one more than the ring holds. */
  function InRing(s: State): int {
    if s.phase.Advanced? then s.evtCount - 1 else s.evtCount
  }

  ghost predicate Shape(s: State) {
    && 0 < |s.ring| <= 0xFFFF && s.head < |s.ring| && s.evtCount <= |s.ring| && 0 <= InRing(s)
    && s.tail == Around(s.head + InRing(s), |s.ring|)
  }

  function Queued(s: State): seq<Entry>
    requires Shape(s)
  {
    Window(s.ring, s.head, InRing(s))
  }

  /** Taken out of the ring, not yet counted out. */
  function Uncounted(s: State): seq<Entry> {
    if s.phase.Advanced? then [s.phase.tmp] else []
  }

  /** Taken out of the ring, handler not yet called. */
  function InFlight(s: State): seq<Entry> {
    if s.phase.Advanced? || s.phase.Committed? then [s.phase.tmp] else []
  }

  ghost predicate Counted(s: State)
    requires Shape(s)
  {
    && s.tickCount == CountTimer(Uncounted(s) + Queued(s)) <= 1
    && (forall sm :: CountSm(Uncounted(s) + Queued(s), sm) <= CountOf(s, sm))
    && (forall sm :: sm !in s.retired ==> CountSm(Uncounted(s) + Queued(s), sm) == CountOf(s, sm))
  }

  /** now is what went in as then, but that its machine may have been finished meanwhile. */
  ghost predicate Faithful(before: Entry, now: Entry, retired: set<Sm>) {
    now == before || (before.sm.Some? && before.sm.value in retired && now == before.(sm := None))
  }

  ghost predicate Fifo(s: State)
    requires Shape(s)
  {
    && |s.entered| == |s.left| + |Queued(s)|
    && forall k :: 0 <= k < |s.entered| ==> Faithful(s.entered[k], (s.left + Queued(s))[k], s.retired)
  }

  ghost predicate InOrder(s: State, sm: Sm)
    requires Shape(s)
  {
    Of(s.posted, sm) == Of(s.started, sm) + Of(InFlight(s) + Queued(s), sm)
  }

  ghost predicate Inv(s: State) {
    && Shape(s) && Counted(s) && Fifo(s)
    && (s.phase.Checked? ==> 0 < s.evtCount)
    && (s.phase.Fetched? ==> 0 < s.evtCount && s.ring[s.head] == s.phase.tmp)
    && forall sm :: sm !in s.retired ==> InOrder(s, sm)
  }
}
