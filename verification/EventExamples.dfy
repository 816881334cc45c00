/** Runs that show where the event kernel does not keep its order, and where fini misses an event. The
    queue has a single slot. */
module EventExamples {
  import opened Wrappers
  import opened EventKernel
  import opened EventRuns

  const EVENT: Entry := Entry(Some(0), 16)

  // ---------- states of the queue ----------

  const EMPTY: State := State([Entry(None, 0)], 0, 0, 0, 0, map[], Idle, [], [], [], [], {})
  const POSTED: State := EMPTY.(ring := [EVENT], evtCount := 1, smCount := map[0 := 1], entered := [EVENT], posted := [EVENT])
  const COUNTED_OUT: State := POSTED.(evtCount := 0, smCount := map[0 := 0], phase := Committed(EVENT), left := [EVENT])
  const FINISHED: State := POSTED.(retired := {0})
  const LATE: State := FINISHED.(evtCount := 0, smCount := map[0 := 0], left := [EVENT], started := [EVENT])

  lemma OneStep(s0: State, steps: seq<Step>, s: State, step: Step, t: State)
    requires Run(s0, steps) && After(s0, steps) == s && Enabled(s, step) && Do(s, step) == t
    ensures Run(s0, steps + [step]) && After(s0, steps + [step]) == t
  {
    OneMore(s0, steps, step);
  }

  /** vsfsm_poll up to the call of the handler. */
  lemma Polled(s0: State, steps: seq<Step>, s: State) returns (more: seq<Step>)
    requires Run(s0, steps) && After(s0, steps) == s && (s == POSTED || s == FINISHED)
    ensures Run(s0, more)
    ensures After(s0, more) == s.(evtCount := 0, smCount := map[0 := 0], phase := Committed(EVENT), left := [EVENT])
  {
    var checked, fetched := s.(phase := Checked), s.(phase := Fetched(EVENT));
    var advanced := s.(phase := Advanced(EVENT), left := [EVENT]);
    OneStep(s0, steps, s, PollCheck, checked);
    OneStep(s0, steps + [PollCheck], checked, PollFetch, fetched);
    OneStep(s0, steps + [PollCheck] + [PollFetch], fetched, PollAdvance, advanced);
    assert s.smCount[0 := 0] == map[0 := 0];
    OneStep(s0, steps + [PollCheck] + [PollFetch] + [PollAdvance], advanced, PollCommit,
            s.(evtCount := 0, smCount := map[0 := 0], phase := Committed(EVENT), left := [EVENT]));
    more := steps + [PollCheck] + [PollFetch] + [PollAdvance] + [PollCommit];
  }

  lemma PostedRun()
    ensures Run(EMPTY, [Interrupt(0, 16)]) && After(EMPTY, [Interrupt(0, 16)]) == POSTED
  {
    assert Legal(EMPTY, []) && After(EMPTY, []) == EMPTY;
    assert EMPTY.smCount[0 := 1] == map[0 := 1];
    OneStep(EMPTY, [], EMPTY, Interrupt(0, 16), POSTED);
    assert [] + [Interrupt(0, 16)] == [Interrupt(0, 16)];
  }

  /** Event 16 of machine 0 was queued and polled up to its dispatch; an interrupt then posts 17 directly, and
      17 is handled before 16. */
  lemma Overtaking() returns (steps: seq<Step>)
    ensures Run(EMPTY, steps) && After(EMPTY, steps) == COUNTED_OUT
    ensures Shape(PostCurrent(COUNTED_OUT, 0, 17).0) && !InOrder(PostCurrent(COUNTED_OUT, 0, 17).0, 0)
    ensures Of(PostCurrent(COUNTED_OUT, 0, 17).0.started, 0) == [Entry(Some(0), 17)]
    ensures Of(PostCurrent(COUNTED_OUT, 0, 17).0.posted, 0) == [EVENT, Entry(Some(0), 17)]
  {
    PostedRun();
    steps := Polled(EMPTY, [Interrupt(0, 16)], POSTED);
    RunKeeps(EMPTY, steps);
    DirectPostFromInterrupt(COUNTED_OUT, 0, 17);
    assert [EVENT, Entry(Some(0), 17)][1..] == [Entry(Some(0), 17)];
  }

  /** The queue is full when machine 0 is finished: its event stays, and its handler is called afterwards. */
  lemma FiniMisses() returns (steps: seq<Step>)
    ensures Run(EMPTY, [Interrupt(0, 16), Finish(0)]) && After(EMPTY, [Interrupt(0, 16), Finish(0)]) == FINISHED
    ensures EVENT in Queued(FINISHED) && 0 in FINISHED.retired
    ensures Run(EMPTY, steps) && After(EMPTY, steps) == LATE && LATE.started == [EVENT]
  {
    PostedRun();
    OneStep(EMPTY, [Interrupt(0, 16)], POSTED, Finish(0), FINISHED);
    assert [Interrupt(0, 16)] + [Finish(0)] == [Interrupt(0, 16), Finish(0)];
    assert Queued(FINISHED) == [EVENT];
    var polled := Polled(EMPTY, [Interrupt(0, 16), Finish(0)], FINISHED);
    OneStep(EMPTY, polled, LATE.(phase := Committed(EVENT), started := []), PollDispatch, LATE);
    steps := polled + [PollDispatch];
  }
}
