/** What every step of the event kernel keeps, and what follows for whole runs. */
module EventRuns {
  import opened Wrappers
  import opened EventKernel

  datatype Step =
    | Interrupt(sm: Sm, evt: int)    // vsfsm_post_evt_pending, or a post from another queue's context
    | Application(sm: Sm, evt: int)  // vsfsm_post_evt while this queue is the current one
    | PollCheck | PollFetch | PollAdvance | PollCommit | PollDispatch
    | Finish(sm: Sm)                 // vsfsm_fini

  ghost predicate Initial(s: State) {
    && 0 < |s.ring| <= 0xFFFF && s.head == s.tail == 0 && s.evtCount == s.tickCount == 0
    && s.smCount == map[] && s.phase == Idle
    && s.entered == s.left == s.posted == s.started == [] && s.retired == {}
  }

  /** A finished machine gets no more events; that is the caller's duty. */
  predicate Enabled(s: State, step: Step) {
    match step
    case Interrupt(sm, evt) => sm !in s.retired
    case Application(sm, evt) => s.phase.Idle? && sm !in s.retired
    case PollCheck => s.phase.Idle? && s.evtCount != 0
    case PollFetch => s.phase.Checked?
    case PollAdvance => s.phase.Fetched?
    case PollCommit => s.phase.Advanced?
    case PollDispatch => s.phase.Committed?
    case Finish(sm) => s.phase.Idle?
  }

  function Do(s: State, step: Step): State
    requires Enabled(s, step)
  {
    match step
    case Interrupt(sm, evt) => PostPending(s, sm, evt).0
    case Application(sm, evt) => PostCurrent(s, sm, evt).0
    case PollCheck => s.(phase := Checked)
    case PollFetch => Fetch(s)
    case PollAdvance => Advance(s)
    case PollCommit => Commit(s)
    case PollDispatch => Dispatch(s)
    case Finish(sm) => Fini(s, sm)
  }

  /** The three decrements of vsfsm_poll never take a counter below zero. */
  lemma NothingUnderflows(s: State)
    requires Inv(s) && s.phase.Advanced?
    ensures 0 < s.evtCount
    ensures s.phase.tmp.sm.Some? ==> 0 < CountOf(s, s.phase.tmp.sm.value)
    ensures s.phase.tmp.evt == EVT_TIMER ==> 0 < s.tickCount
  {
    var tmp := s.phase.tmp;
    var sm := if tmp.sm.Some? then tmp.sm.value else 0;
    CountsConcat(Uncounted(s), Queued(s), sm);
    CountOne(tmp, sm);
  }

  lemma CountOne(e: Entry, sm: Sm)
    ensures CountSm([e], sm) == if e.sm == Some(sm) then 1 else 0
    ensures CountTimer([e]) == if e.evt == EVT_TIMER then 1 else 0
    ensures Of([e], sm) == if Ordinary(e, sm) then [e] else []
  {
    assert [e][..0] == [];
  }

  // ---------- posting ----------

  /** Room in the ring, a TIMER event not already queued: the event goes in. */
  ghost predicate Enters(s: State, evt: int) {
    s.evtCount < |s.ring| && (evt == EVT_TIMER ==> s.tickCount == 0)
  }

  lemma EnqueueQueued(s: State, sm: Sm, evt: int)
    requires Shape(s) && Enters(s, evt)
    ensures var s' := Enqueue(s, sm, evt).0;
            Shape(s') && Queued(s') == Queued(s) + [Entry(Some(sm), evt)]
  {
    WindowPush(s.ring, s.head, InRing(s), Entry(Some(sm), evt));
  }

  lemma {:induction false} CountAtMost(es: seq<Entry>, sm: Sm)
    ensures CountSm(es, sm) <= |es|
  {
    if es != [] {
      CountAtMost(es[..|es| - 1], sm);
    }
  }

  lemma EnqueueCounts(s: State, sm: Sm, evt: int)
    requires Enters(s, evt) && CountOf(s, sm) < 0x1_0000 && s.tickCount <= 1
    ensures var s' := Enqueue(s, sm, evt).0;
            && s'.tickCount == s.tickCount + (if evt == EVT_TIMER then 1 else 0)
            && (forall m :: CountOf(s', m) == CountOf(s, m) + if m == sm then 1 else 0)
            && Uncounted(s') == Uncounted(s) && s'.retired == s.retired
  {
  }

  lemma OneMoreCounted(before: seq<Entry>, e: Entry, sm: Sm, m: Sm)
    requires e.sm == Some(sm)
    ensures CountSm(before + [e], m) == CountSm(before, m) + if m == sm then 1 else 0
    ensures CountTimer(before + [e]) == CountTimer(before) + if e.evt == EVT_TIMER then 1 else 0
  {
    CountsConcat(before, [e], m);
    CountOne(e, m);
  }

  lemma EnqueueCounted(s: State, sm: Sm, evt: int)
    requires Shape(s) && Counted(s) && Enters(s, evt) && sm !in s.retired
    requires Shape(Enqueue(s, sm, evt).0) && Queued(Enqueue(s, sm, evt).0) == Queued(s) + [Entry(Some(sm), evt)]
    ensures Counted(Enqueue(s, sm, evt).0)
  {
    CountAtMost(Uncounted(s) + Queued(s), sm);
    assert |Uncounted(s) + Queued(s)| <= 0x1_0000 - 1;
    EnqueueCounts(s, sm, evt);
    hide Enqueue;
    hide Shape;
    hide Queued;
    hide CountSm;
    hide CountTimer;
    hide CountOf;
    hide Uncounted;
    var s', e := Enqueue(s, sm, evt).0, Entry(Some(sm), evt);
    var before := Uncounted(s) + Queued(s);
    assert Uncounted(s') + Queued(s') == before + [e];
    OneMoreCounted(before, e, sm, sm);
    forall m ensures CountSm(before + [e], m) == CountSm(before, m) + if m == sm then 1 else 0 {
      OneMoreCounted(before, e, sm, m);
    }
  }

  lemma EnqueueFifo(s: State, sm: Sm, evt: int)
    requires Shape(s) && Fifo(s) && Enters(s, evt)
    requires Shape(Enqueue(s, sm, evt).0) && Queued(Enqueue(s, sm, evt).0) == Queued(s) + [Entry(Some(sm), evt)]
    ensures Fifo(Enqueue(s, sm, evt).0)
  {
    hide Shape;
    hide Queued;
    var s', e := Enqueue(s, sm, evt).0, Entry(Some(sm), evt);
    assert s'.left + Queued(s') == (s.left + Queued(s)) + [e];
  }

  lemma EnqueueInOrder(s: State, sm: Sm, evt: int, m: Sm)
    requires Shape(s) && InOrder(s, m) && Enters(s, evt)
    requires Shape(Enqueue(s, sm, evt).0) && Queued(Enqueue(s, sm, evt).0) == Queued(s) + [Entry(Some(sm), evt)]
    ensures InOrder(Enqueue(s, sm, evt).0, m)
  {
    var s', e := Enqueue(s, sm, evt).0, Entry(Some(sm), evt);
    EnqueueHistory(s, sm, evt);
    hide Enqueue;
    hide Shape;
    hide Queued;
    hide Of;
    hide InFlight;
    OrderGrows(s.posted, s.started, InFlight(s), Queued(s), e, m);
  }

  lemma EnqueueHistory(s: State, sm: Sm, evt: int)
    requires Enters(s, evt)
    ensures var s' := Enqueue(s, sm, evt).0;
            && s'.posted == s.posted + [Entry(Some(sm), evt)] && s'.started == s.started
            && InFlight(s') == InFlight(s)
  {
  }

  /** One more entry at the end of what is posted and of what waits. */
  lemma OrderGrows(posted: seq<Entry>, started: seq<Entry>, flight: seq<Entry>, queued: seq<Entry>, e: Entry, m: Sm)
    requires Of(posted, m) == Of(started, m) + Of(flight + queued, m)
    ensures Of(posted + [e], m) == Of(started, m) + Of(flight + (queued + [e]), m)
  {
    hide Of;
    assert flight + (queued + [e]) == (flight + queued) + [e];
    OfConcat(flight + queued, [e], m);
    OfConcat(posted, [e], m);
  }

  lemma EnqueueKeeps(s: State, sm: Sm, evt: int)
    requires Inv(s) && sm !in s.retired
    ensures Inv(Enqueue(s, sm, evt).0)
  {
    if Enters(s, evt) {
      EnqueueQueued(s, sm, evt);
      hide Counted;
      hide Fifo;
      hide InOrder;
      EnqueueCounted(s, sm, evt);
      EnqueueFifo(s, sm, evt);
      forall m | m !in s.retired
        ensures InOrder(Enqueue(s, sm, evt).0, m)
      {
        EnqueueInOrder(s, sm, evt, m);
      }
    }
  }

  lemma {:induction false} NoneOf(es: seq<Entry>, sm: Sm)
    requires CountSm(es, sm) == 0
    ensures Of(es, sm) == []
  {
    if es != [] {
      NoneOf(es[..|es| - 1], sm);
    }
  }

  lemma DirectInOrder(s: State, sm: Sm, evt: int, m: Sm)
    requires Shape(s) && Counted(s) && InOrder(s, m) && s.phase.Idle? && sm !in s.retired
    requires Instant(evt) || CountOf(s, sm) == 0
    requires var s' := PostCurrent(s, sm, evt).0; Shape(s') && Queued(s') == Queued(s)
    ensures InOrder(PostCurrent(s, sm, evt).0, m)
  {
    hide Shape;
    hide Queued;
    hide CountSm;
    hide CountTimer;
    hide Of;
    var s', e := PostCurrent(s, sm, evt).0, Entry(Some(sm), evt);
    assert InFlight(s) + Queued(s) == Uncounted(s) + Queued(s);
    OfConcat(s.posted, [e], m);
    OfConcat(s.started, [e], m);
    CountOne(e, m);
    if Ordinary(e, m) {
      NoneOf(Uncounted(s) + Queued(s), sm);
    }
  }

  /** A direct dispatch overtakes nothing: an ordinary event is dispatched at once only when the
      machine has nothing queued, and between polls nothing is in flight. */
  lemma PostCurrentKeeps(s: State, sm: Sm, evt: int)
    requires Inv(s) && s.phase.Idle? && sm !in s.retired
    ensures Inv(PostCurrent(s, sm, evt).0)
  {
    hide InOrder;
    hide Counted;
    hide Fifo;
    if !Instant(evt) && CountOf(s, sm) != 0 {
      EnqueueKeeps(s, sm, evt);
    } else {
      var s' := PostCurrent(s, sm, evt).0;
      assert Queued(s') == Queued(s);
      SameCounted(s, s');
      SameFifo(s, s');
      forall m | m !in s.retired
        ensures InOrder(s', m)
      {
        DirectInOrder(s, sm, evt, m);
      }
    }
  }

  // ---------- polling ----------

  lemma AdvanceQueued(s: State)
    requires Inv(s) && s.phase.Fetched?
    ensures Shape(Advance(s)) && Queued(s) == [s.phase.tmp] + Queued(Advance(s))
  {
    WindowPop(s.ring, s.head, s.evtCount);
  }

  lemma SameCounted(s: State, s': State)
    requires Shape(s) && Shape(s') && s'.retired == s.retired && Counted(s)
    requires Uncounted(s') + Queued(s') == Uncounted(s) + Queued(s) && s'.tickCount == s.tickCount && s'.smCount == s.smCount
    ensures Counted(s')
  {
    hide Shape;
    hide Queued;
    hide CountSm;
    hide CountTimer;
  }

  lemma SameFifo(s: State, s': State)
    requires Shape(s) && Shape(s') && s'.retired == s.retired && Fifo(s)
    requires s'.entered == s.entered && s'.left + Queued(s') == s.left + Queued(s)
    ensures Fifo(s')
  {
    hide Shape;
    hide Queued;
    assert |s'.left + Queued(s')| == |s.left + Queued(s)|;
  }

  lemma SameInOrder(s: State, s': State, m: Sm)
    requires Shape(s) && Shape(s') && InOrder(s, m)
    requires InFlight(s') + Queued(s') == InFlight(s) + Queued(s) && s'.posted == s.posted && s'.started == s.started
    ensures InOrder(s', m)
  {
    hide Shape;
    hide Queued;
    hide Of;
  }

  lemma CheckKeeps(s: State)
    requires Inv(s) && s.phase.Idle? && s.evtCount != 0
    ensures Inv(s.(phase := Checked))
  {
    hide Counted;
    hide Fifo;
    hide InOrder;
    var s' := s.(phase := Checked);
    assert Queued(s') == Queued(s);
    SameCounted(s, s');
    SameFifo(s, s');
    forall m | m !in s.retired
      ensures InOrder(s', m)
    {
      SameInOrder(s, s', m);
    }
  }

  lemma FetchKeeps(s: State)
    requires Inv(s) && s.phase.Checked?
    ensures Inv(Fetch(s)) && Fetch(s).phase.Fetched?
  {
    hide Counted;
    hide Fifo;
    hide InOrder;
    var s' := Fetch(s);
    assert Queued(s') == Queued(s);
    SameCounted(s, s');
    SameFifo(s, s');
    forall m | m !in s.retired
      ensures InOrder(s', m)
    {
      SameInOrder(s, s', m);
    }
  }

  lemma NothingBefore(es: seq<Entry>)
    ensures [] + es == es
  {
  }

  lemma MovedAcross(left: seq<Entry>, e: Entry, right: seq<Entry>)
    ensures left + [e] + right == left + ([e] + right)
  {
  }

  lemma AdvanceKeeps(s: State)
    requires Inv(s) && s.phase.Fetched?
    ensures Inv(Advance(s))
  {
    hide Counted;
    hide Fifo;
    hide InOrder;
    hide Queued;
    hide Shape;
    var s', tmp := Advance(s), s.phase.tmp;
    AdvanceQueued(s);
    NothingBefore(Queued(s));
    MovedAcross(s.left, tmp, Queued(s'));
    SameCounted(s, s');
    SameFifo(s, s');
    forall m | m !in s.retired
      ensures InOrder(s', m)
    {
      SameInOrder(s, s', m);
    }
  }

  lemma CommitCounted(s: State, s': State)
    requires Inv(s) && s.phase.Advanced?
    requires s' == Commit(s) && Shape(s') && Queued(s') == Queued(s)
    ensures Counted(s')
  {
    hide Shape;
    hide Queued;
    hide Fifo;
    hide InOrder;
    hide CountSm;
    hide CountTimer;
    var tmp := s.phase.tmp;
    assert Uncounted(s') + Queued(s') == Queued(s);
    CountsConcat(Uncounted(s), Queued(s), 0);
    CountOne(tmp, 0);
    forall m: Sm
      ensures CountSm(Uncounted(s') + Queued(s'), m) <= CountOf(s', m)
      ensures m !in s'.retired ==> CountSm(Uncounted(s') + Queued(s'), m) == CountOf(s', m)
    {
      CountsConcat(Uncounted(s), Queued(s), m);
      CountOne(tmp, m);
    }
  }

  lemma CommitKeeps(s: State)
    requires Inv(s) && s.phase.Advanced?
    ensures Inv(Commit(s))
  {
    hide Counted;
    hide Fifo;
    hide InOrder;
    var s' := Commit(s);
    assert Shape(s') && Queued(s') == Queued(s);
    CommitCounted(s, s');
    SameFifo(s, s');
    forall m | m !in s.retired
      ensures InOrder(s', m)
    {
      SameInOrder(s, s', m);
    }
  }

  lemma DispatchInOrder(s: State, m: Sm)
    requires Shape(s) && s.phase.Committed? && InOrder(s, m)
    requires Shape(Dispatch(s)) && Queued(Dispatch(s)) == Queued(s)
    ensures InOrder(Dispatch(s), m)
  {
    hide Shape;
    hide Queued;
    hide Of;
    var s', tmp := Dispatch(s), s.phase.tmp;
    assert InFlight(s') + Queued(s') == Queued(s);
    OfConcat([tmp], Queued(s), m);
    OfConcat(s.started, [tmp], m);
    CountOne(tmp, m);
    assert (Of(s.started, m) + Of([tmp], m)) + Of(Queued(s), m) == Of(s.started, m) + (Of([tmp], m) + Of(Queued(s), m));
    if tmp.sm.None? {
      assert Of(s.started, m) + [] == Of(s.started, m);
    }
  }

  lemma DispatchKeeps(s: State)
    requires Inv(s) && s.phase.Committed?
    ensures Inv(Dispatch(s))
  {
    hide Counted;
    hide Fifo;
    hide InOrder;
    var s' := Dispatch(s);
    assert Shape(s') && Queued(s') == Queued(s);
    SameCounted(s, s');
    SameFifo(s, s');
    forall m | m !in s.retired
      ensures InOrder(s', m)
    {
      DispatchInOrder(s, m);
    }
  }

  // ---------- vsfsm_fini ----------

  /** On a ring that is not full, fini reaches every queued entry; on a full one it reaches none. */
  lemma FiniQueued(s: State, sm: Sm)
    requires Shape(s) && !s.phase.Advanced?
    ensures Shape(Fini(s, sm))
    ensures Queued(Fini(s, sm)) == if s.evtCount == |s.ring| then Queued(s) else ForgetAll(Queued(s), sm)
  {
    var s', q := Fini(s, sm), Queued(s);
    forall k | 0 <= k < |q|
      ensures q[k] == s.ring[Around(s.head + k, |s.ring|)]
      ensures Queued(s')[k] == s'.ring[Around(s.head + k, |s.ring|)]
      ensures Scanned(s, Around(s.head + k, |s.ring|)) <==> s.evtCount < |s.ring|
    {
    }
  }

  lemma {:induction false} ForgetCounts(es: seq<Entry>, sm: Sm, m: Sm)
    ensures CountSm(ForgetAll(es, sm), m) == if m == sm then 0 else CountSm(es, m)
    ensures CountTimer(ForgetAll(es, sm)) == CountTimer(es)
    ensures m != sm ==> Of(ForgetAll(es, sm), m) == Of(es, m)
  {
    if es != [] {
      assert ForgetAll(es, sm)[..|es| - 1] == ForgetAll(es[..|es| - 1], sm);
      ForgetCounts(es[..|es| - 1], sm, m);
    }
  }

  lemma FiniCounted(s: State, s': State, sm: Sm)
    requires Shape(s) && Shape(s') && Counted(s) && s.phase.Idle? && s' == Fini(s, sm)
    requires Queued(s') == Queued(s) || Queued(s') == ForgetAll(Queued(s), sm)
    ensures Counted(s')
  {
    hide Shape;
    hide Queued;
    hide CountSm;
    hide CountTimer;
    hide Forget;
    hide ForgetAll;
    NothingBefore(Queued(s));
    NothingBefore(Queued(s'));
    ForgetCounts(Queued(s), sm, 0);
    forall m: Sm
      ensures CountSm(Uncounted(s') + Queued(s'), m) <= CountOf(s', m)
      ensures m !in s'.retired ==> CountSm(Uncounted(s') + Queued(s'), m) == CountOf(s', m)
    {
      ForgetCounts(Queued(s), sm, m);
    }
  }

  lemma FiniInOrder(s: State, s': State, sm: Sm, m: Sm)
    requires Shape(s) && Shape(s') && s.phase.Idle? && s' == Fini(s, sm) && m != sm && InOrder(s, m)
    requires Queued(s') == Queued(s) || Queued(s') == ForgetAll(Queued(s), sm)
    ensures InOrder(s', m)
  {
    hide Shape;
    hide Queued;
    hide Of;
    hide Forget;
    hide ForgetAll;
    NothingBefore(Queued(s));
    NothingBefore(Queued(s'));
    ForgetCounts(Queued(s), sm, m);
  }

  lemma FiniFifo(s: State, s': State, sm: Sm)
    requires Shape(s) && Shape(s') && Fifo(s) && s.phase.Idle? && s' == Fini(s, sm)
    requires Queued(s') == Queued(s) || Queued(s') == ForgetAll(Queued(s), sm)
    ensures Fifo(s')
  {
    hide Shape;
    hide Queued;
    forall k | 0 <= k < |s'.entered|
      ensures Faithful(s'.entered[k], (s'.left + Queued(s'))[k], s'.retired)
    {
      assert Faithful(s.entered[k], (s.left + Queued(s))[k], s.retired);
    }
  }

  lemma FiniKeeps(s: State, sm: Sm)
    requires Inv(s) && s.phase.Idle?
    ensures Inv(Fini(s, sm))
  {
    hide Counted;
    hide Fifo;
    hide InOrder;
    var s' := Fini(s, sm);
    FiniQueued(s, sm);
    hide Shape;
    FiniCounted(s, s', sm);
    FiniFifo(s, s', sm);
    forall m | m !in s'.retired
      ensures InOrder(s', m)
    {
      FiniInOrder(s, s', sm, m);
    }
  }

  /** After fini no queued entry names the machine, exactly if the ring was not full or none did before. */
  lemma FiniClears(s: State, sm: Sm)
    requires Inv(s) && s.phase.Idle?
    ensures (forall e :: e in Queued(Fini(s, sm)) ==> e.sm != Some(sm))
            <==> (s.evtCount < |s.ring| || forall e :: e in Queued(s) ==> e.sm != Some(sm))
  {
    FiniQueued(s, sm);
    hide Queued;
  }

  // ---------- whole runs ----------

  lemma StepKeeps(s: State, step: Step)
    requires Inv(s) && Enabled(s, step)
    ensures Inv(Do(s, step))
  {
    match step
    case Interrupt(sm, evt) => EnqueueKeeps(s, sm, evt);
    case Application(sm, evt) => PostCurrentKeeps(s, sm, evt);
    case PollCheck => CheckKeeps(s);
    case PollFetch => FetchKeeps(s);
    case PollAdvance => AdvanceKeeps(s);
    case PollCommit => NothingUnderflows(s); CommitKeeps(s);
    case PollDispatch => DispatchKeeps(s);
    case Finish(sm) => FiniKeeps(s, sm);
  }

  /** A run: any interleaving of interrupts and application posts with the steps of vsfsm_poll. */
  ghost predicate Legal(s: State, steps: seq<Step>)
    decreases |steps|, 0
  {
    steps == [] || (Legal(s, steps[..|steps| - 1]) && Enabled(After(s, steps[..|steps| - 1]), steps[|steps| - 1]))
  }

  ghost function After(s: State, steps: seq<Step>): State
    requires Legal(s, steps)
    decreases |steps|, 1
  {
    if steps == [] then s else Do(After(s, steps[..|steps| - 1]), steps[|steps| - 1])
  }

  lemma OneMore(s: State, steps: seq<Step>, step: Step)
    requires Legal(s, steps) && Enabled(After(s, steps), step)
    ensures Legal(s, steps + [step]) && After(s, steps + [step]) == Do(After(s, steps), step)
  {
    assert (steps + [step])[..|steps|] == steps;
  }

  ghost predicate Run(s: State, steps: seq<Step>) {
    Initial(s) && Legal(s, steps)
  }

  lemma {:induction false} RunKeeps(s: State, steps: seq<Step>)
    requires Run(s, steps)
    ensures Inv(After(s, steps))
    decreases |steps|
  {
    if steps == [] {
      InitialInv(s);
    } else {
      var most := steps[..|steps| - 1];
      RunKeeps(s, most);
      StepKeeps(After(s, most), steps[|steps| - 1]);
    }
  }

  lemma InitialInv(s: State)
    requires Initial(s)
    ensures Inv(s)
  {
    assert Queued(s) == [];
  }

  /** Handlers start in the order of posting: what has started is a prefix of what was accepted,
      and once the queue has drained it is all of it. */
  lemma StartedInOrder(s0: State, steps: seq<Step>, sm: Sm)
    requires Run(s0, steps) && sm !in After(s0, steps).retired
    ensures var s := After(s0, steps);
            && Of(s.started, sm) <= Of(s.posted, sm)
            && (s.phase.Idle? && s.evtCount == 0 ==> Of(s.started, sm) == Of(s.posted, sm))
  {
    var s := After(s0, steps);
    RunKeeps(s0, steps);
    assert InOrder(s, sm);
    if s.phase.Idle? && s.evtCount == 0 {
      assert InFlight(s) + Queued(s) == [];
    }
  }

  /** What leaves the ring is what entered it, first in first out. */
  lemma LeavesAsEntered(s0: State, steps: seq<Step>)
    requires Run(s0, steps)
    ensures var s := After(s0, steps);
            && |s.left| <= |s.entered|
            && forall i :: 0 <= i < |s.left| ==> Faithful(s.entered[i], s.left[i], s.retired)
  {
    var s := After(s0, steps);
    RunKeeps(s0, steps);
    forall i | 0 <= i < |s.left|
      ensures Faithful(s.entered[i], s.left[i], s.retired)
    {
      assert (s.left + Queued(s))[i] == s.left[i];
    }
  }

  /** Except while one entry is stepped over but not counted out, the counters are what the ring holds. */
  lemma CountersMatch(s0: State, steps: seq<Step>)
    requires Run(s0, steps) && !After(s0, steps).phase.Advanced?
    ensures var s := After(s0, steps);
            && Shape(s) && s.evtCount == |Queued(s)|
            && s.tickCount == CountTimer(Queued(s)) <= 1
            && forall sm :: sm !in s.retired ==> CountOf(s, sm) == CountSm(Queued(s), sm)
  {
    RunKeeps(s0, steps);
    NothingBefore(Queued(After(s0, steps)));
  }

  /** The slot vsfsm_poll has read and not yet stepped over is never overwritten, whatever interrupts post. */
  lemma UnreadSlotIntact(s0: State, steps: seq<Step>)
    requires Run(s0, steps) && After(s0, steps).phase.Fetched?
    ensures var s := After(s0, steps); s.head < |s.ring| && s.ring[s.head] == s.phase.tmp
  {
    RunKeeps(s0, steps);
  }

  /** A post is refused only by a full queue, and a full queue holds exactly its size. */
  lemma RefusedOnlyWhenFull(s: State, sm: Sm, evt: int)
    requires Inv(s) && !Instant(evt)
    ensures PostPending(s, sm, evt).1 != Ok <==> |Uncounted(s)| + |Queued(s)| == |s.ring|
  {
  }

  lemma SwapDiffers(s: seq<Entry>, a: Entry, b: Entry)
    ensures (s + [a]) + [b] == (s + [b]) + [a] <==> a == b
  {
    assert ((s + [a]) + [b])[|s|] == a && ((s + [b]) + [a])[|s|] == b;
  }

  lemma NothingAfter(es: seq<Entry>)
    ensures es + [] == es
  {
  }

  /** The order after a direct dispatch, in terms of what is in flight, when nothing is queued. */
  lemma DirectOrder(s: State, s': State, e: Entry, sm: Sm)
    requires Shape(s) && Shape(s') && InOrder(s, sm) && Ordinary(e, sm) && Of(Queued(s), sm) == []
    requires Queued(s') == Queued(s) && InFlight(s') == InFlight(s) && s'.posted == s.posted + [e] && s'.started == s.started + [e]
    ensures InOrder(s', sm) <==> (Of(InFlight(s), sm) == [] || Of(InFlight(s), sm) == [e])
  {
    hide Shape;
    hide Queued;
    hide Of;
    OfConcat(InFlight(s), Queued(s), sm);
    OfConcat(s.posted, [e], sm);
    OfConcat(s.started, [e], sm);
    CountOne(e, sm);
    NothingAfter(Of(InFlight(s), sm));
    NothingAfter(Of(s.started, sm));
    NothingAfter(Of(s.started, sm) + [e]);
    if s.phase.Advanced? || s.phase.Committed? {
      CountOne(s.phase.tmp, sm);
      SwapDiffers(Of(s.started, sm), s.phase.tmp, e);
    } else {
      EmptyOf(sm);
    }
  }

  lemma EmptyOf(sm: Sm)
    ensures Of([], sm) == []
  {
  }

  lemma NothingQueuedFor(s: State, sm: Sm)
    requires Inv(s) && CountOf(s, sm) == 0
    ensures Of(Queued(s), sm) == [] && (s.phase.Advanced? ==> Of(InFlight(s), sm) == [])
  {
    CountsConcat(Uncounted(s), Queued(s), sm);
    NoneOf(Queued(s), sm);
    NoneOf(Uncounted(s), sm);
  }

  /** An interrupt that calls vsfsm_post_evt for a machine of the current queue breaks the order
      exactly if nothing is queued for the machine, an ordinary event of it has just been counted
      out and still waits for its handler, and the new event is a different one. */
  lemma DirectPostFromInterrupt(s: State, sm: Sm, evt: int)
    requires Inv(s) && sm !in s.retired && !Instant(evt) && evt != EVT_TIMER
    ensures Shape(PostCurrent(s, sm, evt).0)
    ensures InOrder(PostCurrent(s, sm, evt).0, sm)
            <==> !(CountOf(s, sm) == 0 && s.phase.Committed? && Ordinary(s.phase.tmp, sm) && s.phase.tmp.evt != evt)
  {
    hide Counted;
    hide Fifo;
    hide InOrder;
    hide Of;
    var s', e := PostCurrent(s, sm, evt).0, Entry(Some(sm), evt);
    if CountOf(s, sm) != 0 {
      EnqueueKeeps(s, sm, evt);
    } else {
      assert Queued(s') == Queued(s);
      NothingQueuedFor(s, sm);
      DirectOrder(s, s', e, sm);
      EmptyOf(sm);
      if s.phase.Committed? {
        CountOne(s.phase.tmp, sm);
      }
    }
  }

  // ---------- every event is handled once ----------

  /** How often e occurs. */
  function Times(es: seq<Entry>, e: Entry): nat {
    multiset(es)[e]
  }

  /** Entry e was started, is in flight or is queued as often as it was posted; less often only if its machine
      was finished. */
  ghost predicate Balanced(s: State, e: Entry)
    requires Shape(s)
  {
    e.sm.Some? ==>
      && Times(s.started, e) + Times(InFlight(s), e) + Times(Queued(s), e) <= Times(s.posted, e)
      && (e.sm.value !in s.retired ==>
            Times(s.started, e) + Times(InFlight(s), e) + Times(Queued(s), e) == Times(s.posted, e))
  }

  lemma TimesConcat(a: seq<Entry>, b: seq<Entry>, e: Entry)
    ensures Times(a + b, e) == Times(a, e) + Times(b, e)
  {
  }

  lemma EnqueueBalanced(s: State, sm: Sm, evt: int, e: Entry)
    requires Shape(s) && Balanced(s, e)
    ensures Shape(Enqueue(s, sm, evt).0) && Balanced(Enqueue(s, sm, evt).0, e)
  {
    hide Queued;
    hide Times;
    if Enters(s, evt) {
      EnqueueQueued(s, sm, evt);
      EnqueueHistory(s, sm, evt);
      hide Shape;
      var n := [Entry(Some(sm), evt)];
      TimesConcat(s.posted, n, e);
      TimesConcat(Queued(s), n, e);
    }
  }

  lemma DirectBalanced(s: State, s': State, n: Entry, e: Entry)
    requires Shape(s) && Shape(s') && Balanced(s, e) && Queued(s') == Queued(s) && InFlight(s') == InFlight(s)
    requires s'.posted == s.posted + [n] && s'.started == s.started + [n] && s'.retired == s.retired
    ensures Balanced(s', e)
  {
    hide Shape;
    hide Queued;
    hide Times;
    TimesConcat(s.posted, [n], e);
    TimesConcat(s.started, [n], e);
  }

  lemma PostBalanced(s: State, sm: Sm, evt: int, e: Entry)
    requires Shape(s) && Balanced(s, e)
    ensures Shape(PostCurrent(s, sm, evt).0) && Balanced(PostCurrent(s, sm, evt).0, e)
  {
    if !Instant(evt) && CountOf(s, sm) != 0 {
      EnqueueBalanced(s, sm, evt, e);
    } else {
      hide Balanced;
      var s' := PostCurrent(s, sm, evt).0;
      assert Queued(s') == Queued(s);
      DirectBalanced(s, s', Entry(Some(sm), evt), e);
    }
  }

  lemma NoTimes(e: Entry)
    ensures Times([], e) == 0
  {
  }

  lemma PollBalanced(s: State, step: Step, e: Entry)
    requires Inv(s) && Balanced(s, e) && Enabled(s, step)
    requires step.PollCheck? || step.PollFetch? || step.PollAdvance? || step.PollCommit? || step.PollDispatch?
    ensures Shape(Do(s, step)) && Balanced(Do(s, step), e)
  {
    hide Times;
    hide Counted;
    hide Fifo;
    hide InOrder;
    NoTimes(e);
    var s' := Do(s, step);
    if step.PollAdvance? {
      AdvanceQueued(s);
      hide Queued;
      TimesConcat([s.phase.tmp], Queued(s'), e);
    } else {
      assert Shape(s') && Queued(s') == Queued(s);
      hide Queued;
      if step.PollDispatch? {
        TimesConcat(s.started, [s.phase.tmp], e);
        NotAnEntry(s.phase.tmp, e);
      }
    }
  }

  /** What has no machine is not an entry of one. */
  lemma NotAnEntry(n: Entry, e: Entry)
    ensures n.sm.None? && e.sm.Some? ==> Times([n], e) == 0
  {
  }

  lemma {:induction false} ForgetTimes(es: seq<Entry>, sm: Sm, e: Entry)
    requires e.sm.Some?
    ensures Times(ForgetAll(es, sm), e) == if e.sm.value == sm then 0 else Times(es, e)
  {
    if es != [] {
      var most, last := es[..|es| - 1], es[|es| - 1];
      assert ForgetAll(es, sm) == ForgetAll(most, sm) + [Forget(last, sm)] && es == most + [last];
      ForgetTimes(most, sm, e);
    }
  }

  lemma FiniBalanced(s: State, sm: Sm, e: Entry)
    requires Shape(s) && s.phase.Idle? && Balanced(s, e)
    ensures Shape(Fini(s, sm)) && Balanced(Fini(s, sm), e)
  {
    FiniQueued(s, sm);
    hide Shape;
    hide Queued;
    hide ForgetAll;
    hide Times;
    if e.sm.Some? {
      ForgetTimes(Queued(s), sm, e);
    }
  }

  lemma StepBalanced(s: State, step: Step, e: Entry)
    requires Inv(s) && Balanced(s, e) && Enabled(s, step)
    ensures Shape(Do(s, step)) && Balanced(Do(s, step), e)
  {
    hide Balanced;
    hide Shape;
    match step
    case Interrupt(sm, evt) => EnqueueBalanced(s, sm, evt, e);
    case Application(sm, evt) => PostBalanced(s, sm, evt, e);
    case Finish(sm) => FiniBalanced(s, sm, e);
    case _ => PollBalanced(s, step, e);
  }

  lemma {:induction false} RunBalanced(s: State, steps: seq<Step>, e: Entry)
    requires Run(s, steps)
    ensures Inv(After(s, steps)) && Balanced(After(s, steps), e)
    decreases |steps|
  {
    RunKeeps(s, steps);
    if steps == [] {
      assert Queued(s) == [];
    } else {
      var most := steps[..|steps| - 1];
      RunBalanced(s, most, e);
      hide Balanced;
      hide Inv;
      StepBalanced(After(s, most), steps[|steps| - 1], e);
    }
  }

  /** Over every run and for every event of a machine, whether ordinary, instant or a TIMER: as often as it was
      posted, its handler was called with it, or it is between ring and handler, or it is in the ring; when
      the ring is drained every one was handled. A machine that was finished gets no event more often than
      it was posted. */
  lemma HandledOnce(s0: State, steps: seq<Step>, e: Entry)
    requires Run(s0, steps) && e.sm.Some?
    ensures var s := After(s0, steps);
            && Shape(s)
            && (e.sm.value !in s.retired ==>
                  multiset(s.posted)[e] == multiset(s.started)[e] + multiset(InFlight(s))[e] + multiset(Queued(s))[e])
            && (e.sm.value !in s.retired && s.phase.Idle? && s.evtCount == 0 ==> multiset(s.posted)[e] == multiset(s.started)[e])
            && multiset(s.started)[e] <= multiset(s.posted)[e]
  {
    RunBalanced(s0, steps, e);
    var s := After(s0, steps);
    if s.phase.Idle? && s.evtCount == 0 {
      assert Queued(s) == [] && InFlight(s) == [];
    }
  }

  /** The instant events are those with bit 13 set, also among the negative numbers. */
  lemma InstantIs(above: int, bit: nat, below: nat)
    requires bit < 2 && below < 0x2000
    ensures Instant(above * 0x4000 + bit * 0x2000 + below) <==> bit == 1
  {
    assert (above * 0x4000 + bit * 0x2000 + below) / 0x2000 == above * 2 + bit;
  }

  /** What a post does to the history. A post into the ring is accepted exactly if the event is not instant and
      there is room; one that may be dispatched at once, also if it is instant or its machine has nothing
      queued. A refused one changes nothing; an accepted one is posted, but for a TIMER event that goes to the
      ring while one is in it, which changes nothing. */
  lemma AcceptedIsPosted(s: State, sm: Sm, evt: int)
    requires Inv(s)
    ensures PostPending(s, sm, evt).1 == Ok <==> !Instant(evt) && s.evtCount < |s.ring|
    ensures PostCurrent(s, sm, evt).1 == Ok <==> Instant(evt) || CountOf(s, sm) == 0 || s.evtCount < |s.ring|
    ensures var (s', r) := PostPending(s, sm, evt);
            if r != Ok then s' == s
            else if evt == EVT_TIMER && 0 < CountTimer(Uncounted(s) + Queued(s)) then s' == s
            else s'.posted == s.posted + [Entry(Some(sm), evt)]
    ensures var (s', r) := PostCurrent(s, sm, evt);
            if r != Ok then s' == s
            else if evt == EVT_TIMER && CountOf(s, sm) != 0 && 0 < CountTimer(Uncounted(s) + Queued(s)) then s' == s
            else s'.posted == s.posted + [Entry(Some(sm), evt)]
  {
    hide Fifo;
    hide InOrder;
    hide Queued;
    hide CountTimer;
    hide CountSm;
  }
}
