/** The event queue in place: a ring of entries, the counters, and vsfsm_poll with interrupts let in
    wherever they are enabled. */
module EventQueue {
  import opened Wrappers
  import opened EventKernel
  import opened EventRuns

  /** A post by an interrupt, or by the application code a handler runs. */
  datatype Posting = Irq(sm: Sm, evt: int) | App(sm: Sm, evt: int)

  /** What interrupts post after the loop test of vsfsm_poll, after the read of the head, after its
      advance and after the decrements, and what interrupts and the handler post while it runs. */
  datatype Pass = Pass(
    afterTest: seq<Posting>, afterRead: seq<Posting>, afterMove: seq<Posting>, afterCount: seq<Posting>,
    whileHandled: seq<Posting>)

  const QUIET := Pass([], [], [], [], [])

  function AsStep(p: Posting): Step {
    match p
    case Irq(sm, evt) => Interrupt(sm, evt)
    case App(sm, evt) => Application(sm, evt)
  }

  class EvtQueue {
    const queue: array<Entry>
    var head: nat
    var tail: nat
    var evtCount: nat
    var tickCount: nat
    // evt_count of every machine
    var smCount: map<Sm, nat>
    // where vsfsm_poll stands, and the history
    ghost var phase: Phase
    ghost var entered: seq<Entry>
    ghost var left: seq<Entry>
    ghost var posted: seq<Entry>
    ghost var started: seq<Entry>
    ghost var retired: set<Sm>
    // the run that led here
    ghost var origin: State
    ghost var trace: seq<Step>

    ghost function View(): State
      reads this, queue
    {
      State(queue[..], head, tail, evtCount, tickCount, smCount, phase, entered, left, posted, started, retired)
    }

    /** What the object went through is a run of the event kernel. */
    ghost predicate Valid()
      reads this, queue
    {
      Run(origin, trace) && View() == After(origin, trace)
    }

    /** vsfsm_evtq_init on a queue of the given size. */
    constructor (size: nat)
      requires 0 < size <= 0xFFFF
      ensures Valid() && fresh(queue) && queue.Length == size && phase == Idle && retired == {} && trace == []
    {
      queue := new Entry[size](_ => Entry(None, 0));
      head, tail, evtCount, tickCount, smCount := 0, 0, 0, 0, map[];
      phase, entered, left, posted, started, retired := Idle, [], [], [], [], {};
      trace := [];
      new;
      origin := View();
    }

    method EvtqPost(sm: Sm, evt: int) returns (st: Status)
      requires Shape(View())
      modifies this, queue
      ensures (View(), st) == Enqueue(old(View()), sm, evt) && origin == old(origin) && trace == old(trace)
    {
      if evtCount >= queue.Length {
        return Err(NotEnoughResources);
      } else if evt == EVT_TIMER {
        if tickCount != 0 {
          return Ok;
        }
        tickCount := Up(tickCount, UINT16);
      }
      queue[tail] := Entry(Some(sm), evt);
      tail := if tail == queue.Length - 1 then 0 else tail + 1;
      smCount := smCount[sm := Up(if sm in smCount then smCount[sm] else 0, UINT32)];
      evtCount := Up(evtCount, UINT16);
      entered := entered + [Entry(Some(sm), evt)];
      posted := posted + [Entry(Some(sm), evt)];
      st := Ok;
    }

    /** vsfsm_post_evt, for a machine of this queue; current says whether this is the current queue. */
    method PostEvt(sm: Sm, evt: int, current: bool) returns (st: Status)
      requires Shape(View())
      modifies this, queue
      ensures (View(), st) == if current then PostCurrent(old(View()), sm, evt) else PostPending(old(View()), sm, evt)
      ensures origin == old(origin) && trace == old(trace)
    {
      if !current && Instant(evt) {
        return Err(Fail);
      }
      if !current || (!Instant(evt) && sm in smCount && smCount[sm] != 0) {
        st := EvtqPost(sm, evt);
      } else {
        posted := posted + [Entry(Some(sm), evt)];
        started := started + [Entry(Some(sm), evt)];
        st := Ok;
      }
    }

    /** vsfsm_post_evt_pending. */
    method PostEvtPending(sm: Sm, evt: int) returns (st: Status)
      requires Shape(View())
      modifies this, queue
      ensures (View(), st) == PostPending(old(View()), sm, evt) && origin == old(origin) && trace == old(trace)
    {
      if Instant(evt) {
        return Err(Fail);
      }
      st := EvtqPost(sm, evt);
    }

    // ---------- the run so far ----------

    lemma Reached()
      requires Valid()
      ensures Inv(View()) && Shape(View())
    {
      RunKeeps(origin, trace);
    }

    /** The step just taken joins the run. */
    ghost method Record(before: State, step: Step)
      requires Run(origin, trace) && before == After(origin, trace) && Enabled(before, step) && View() == Do(before, step)
      modifies this`trace
      ensures Valid() && trace == old(trace) + [step]
    {
      hide Legal;
      hide After;
      OneMore(origin, trace, step);
      trace := trace + [step];
    }

    method Perform(p: Posting) returns (st: Status)
      requires Valid() && Enabled(View(), AsStep(p))
      modifies this, queue
      ensures Valid() && trace == old(trace) + [AsStep(p)] && phase == old(phase) && retired == old(retired)
    {
      hide Run;
      hide After;
      Reached();
      hide Inv;
      ghost var before := View();
      match p {
        case Irq(sm, evt) => st := PostEvtPending(sm, evt);
        case App(sm, evt) => st := PostEvt(sm, evt, true);
      }
      Record(before, AsStep(p));
    }

    method Deliver(batch: seq<Posting>)
      requires Valid() && forall p :: p in batch ==> p.sm !in retired && (p.App? ==> phase.Idle?)
      modifies this, queue
      ensures Valid() && phase == old(phase) && retired == old(retired) && old(trace) <= trace
      ensures batch == [] ==> evtCount == old(evtCount)
    {
      hide Run;
      hide After;
      hide View;
      for i := 0 to |batch|
        invariant Valid() && phase == old(phase) && retired == old(retired) && old(trace) <= trace
        invariant batch == [] ==> evtCount == old(evtCount)
      {
        assert batch[i] in batch && batch[i].sm !in retired;
        assert Enabled(View(), AsStep(batch[i])) by { ViewFields(); }
        var _ := Perform(batch[i]);
      }
    }

    lemma ViewFields()
      ensures View().phase == phase && View().retired == retired && View().evtCount == evtCount
    {
    }

    // ---------- vsfsm_poll ----------

    ghost method Check()
      requires Valid() && phase == Idle && evtCount != 0
      modifies this`phase, this`trace
      ensures Valid() && trace == old(trace) + [PollCheck] && phase == Checked
    {
      hide Run;
      hide After;
      var before := View();
      phase := Checked;
      Record(before, PollCheck);
    }

    method ReadHead() returns (tmp: Entry)
      requires Valid() && phase == Checked
      modifies this`phase, this`trace
      ensures Valid() && trace == old(trace) + [PollFetch] && phase == Fetched(tmp)
    {
      hide Run;
      hide After;
      Reached();
      hide Inv;
      ghost var before := View();
      tmp := queue[head];
      phase := Fetched(tmp);
      Record(before, PollFetch);
    }

    method MoveHead(tmp: Entry)
      requires Valid() && phase == Fetched(tmp)
      modifies this`phase, this`head, this`left, this`trace
      ensures Valid() && trace == old(trace) + [PollAdvance] && phase == Advanced(tmp)
    {
      hide Run;
      hide After;
      Reached();
      hide Inv;
      ghost var before := View();
      head := if head == queue.Length - 1 then 0 else head + 1;
      phase := Advanced(tmp);
      left := left + [tmp];
      Record(before, PollAdvance);
    }

    /** The part that runs with interrupts disabled. */
    method CountOut(tmp: Entry)
      requires Valid() && phase == Advanced(tmp)
      modifies this`phase, this`smCount, this`evtCount, this`tickCount, this`trace
      ensures Valid() && trace == old(trace) + [PollCommit] && phase == Committed(tmp)
      ensures evtCount == Down(old(evtCount), UINT16)
    {
      hide Run;
      hide After;
      ghost var before := View();
      if tmp.sm.Some? {
        var sm := tmp.sm.value;
        smCount := smCount[sm := Down(if sm in smCount then smCount[sm] else 0, UINT32)];
      }
      evtCount := Down(evtCount, UINT16);
      if tmp.evt == EVT_TIMER {
        tickCount := Down(tickCount, UINT16);
      }
      phase := Committed(tmp);
      Record(before, PollCommit);
    }

    method CallHandler(tmp: Entry)
      requires Valid() && phase == Committed(tmp)
      modifies this`phase, this`started, this`trace
      ensures Valid() && trace == old(trace) + [PollDispatch] && phase == Idle
    {
      hide Run;
      hide After;
      ghost var before := View();
      if tmp.sm.Some? {
        started := started + [tmp];
      }
      phase := Idle;
      Record(before, PollDispatch);
    }

    ghost predicate Allowed(pass: Pass)
      reads this`retired
    {
      && (forall p :: p in pass.afterTest + pass.afterRead + pass.afterMove + pass.afterCount ==> p.Irq? && p.sm !in retired)
      && (forall p :: p in pass.whileHandled ==> p.sm !in retired)
    }

    /** One pass of the loop of vsfsm_poll. */
    method PollOnce(pass: Pass)
      requires Valid() && phase == Idle && evtCount != 0 && Allowed(pass)
      modifies this, queue
      ensures Valid() && phase == Idle && retired == old(retired) && old(trace) < trace
      ensures pass == QUIET ==> evtCount == old(evtCount) - 1
    {
      hide Run;
      hide After;
      hide View;
      Check();
      Deliver(pass.afterTest);
      var tmp := ReadHead();
      Deliver(pass.afterRead);
      MoveHead(tmp);
      Deliver(pass.afterMove);
      CountOut(tmp);
      Deliver(pass.afterCount);
      CallHandler(tmp);
      Deliver(pass.whileHandled);
    }

    /** vsfsm_poll. Each pass of the loop is disturbed as the next element of passes says, later ones not at all. */
    method Poll(passes: seq<Pass>)
      requires Valid() && phase == Idle && forall pass :: pass in passes ==> Allowed(pass)
      modifies this, queue
      ensures Valid() && phase == Idle && evtCount == 0 && old(trace) <= trace
    {
      hide Run;
      hide After;
      hide View;
      var k := 0;
      while evtCount != 0
        invariant Valid() && phase == Idle && retired == old(retired) && old(trace) <= trace && k <= |passes|
        decreases |passes| - k, evtCount
      {
        if k < |passes| {
          assert passes[k] in passes;
          PollOnce(passes[k]);
          k := k + 1;
        } else {
          PollOnce(QUIET);
        }
      }
    }

    /** How many slots lie between head and i, going round. */
    ghost function Distance(i: int): int
      reads this`head
    {
      if head <= i then i - head else i + queue.Length - head
    }

    /** The loop of vsfsm_fini over the entries from head to tail. */
    method Sweep(sm: Sm)
      requires head < queue.Length && tail < queue.Length
      modifies queue
      ensures queue[..] == EventKernel.Fini(old(View()), sm).ring
    {
      ghost var before := queue[..];
      var tmp := head;
      ghost var k := 0;
      while tmp != tail
        invariant 0 <= tmp < queue.Length && k == Distance(tmp) <= Distance(tail)
        invariant forall i :: 0 <= i < queue.Length ==>
          queue[i] == if Distance(i) < k then Forget(before[i], sm) else before[i]
        decreases Distance(tail) - k
      {
        if queue[tmp].sm == Some(sm) {
          queue[tmp] := queue[tmp].(sm := None);
        }
        tmp := if tmp + 1 >= queue.Length then 0 else tmp + 1;
        k := k + 1;
      }
      assert forall i :: 0 <= i < queue.Length ==> (Distance(i) < Distance(tail) <==> Scanned(old(View()), i));
    }

    /** vsfsm_fini, as far as the queue goes. */
    method Fini(sm: Sm)
      requires Valid() && phase == Idle
      modifies this`retired, this`trace, queue
      ensures Valid() && trace == old(trace) + [Finish(sm)] && phase == Idle
    {
      hide Run;
      hide After;
      Reached();
      hide Inv;
      ghost var before := View();
      Sweep(sm);
      retired := retired + {sm};
      Record(before, Finish(sm));
    }
  }
}
