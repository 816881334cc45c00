/** Timers over every run of ticks, arming and freeing. */
module TimerRuns {
  import opened Timers

  datatype Step =
    | Tick(cur: nat, readings: seq<nat>)
    | Arm(id: nat, interval: nat, count: int, now: nat)
    | Free(id: nat)

  predicate Legal(q: seq<Alarm>, t: Step) {
    match t
    case Tick(cur, readings) => Clock(readings, cur) && Due(q, cur) <= |readings|
    case Arm(_, interval, _, _) => interval >= 1
    case Free(_) => true
  }

  /** The new list and the ids of what went off. */
  function Do(q: seq<Alarm>, t: Step): (seq<Alarm>, seq<nat>) {
    match t
    case Tick(cur, readings) => (Fire(q, cur, readings).0, Ids(Fire(q, cur, readings).1))
    case Arm(id, interval, count, now) => (Insert(Remove(q, id), Alarm(id, interval + now, interval, count)), [])
    case Free(id) => (Remove(q, id), [])
  }

  function Count(ids: seq<nat>, id: nat): nat {
    multiset(ids)[id]
  }

  predicate Run(q: seq<Alarm>, run: seq<Step>)
    decreases |run|
  {
    run == [] || (Legal(q, run[0]) && Run(Do(q, run[0]).0, run[1..]))
  }

  function After(q: seq<Alarm>, run: seq<Step>): (seq<Alarm>, seq<nat>)
    decreases |run|
  {
    if run == [] then (q, [])
    else
      var (r, ids) := Do(q, run[0]);
      var (s, more) := After(r, run[1..]);
      (s, ids + more)
  }

  ghost predicate Holds(q: seq<Alarm>, id: nat, left: int) {
    exists a :: a in q && a.id == id && a.left == left
  }

  ghost predicate Gone(q: seq<Alarm>, id: nat) {
    forall a :: a in q ==> a.id != id
  }

  /** The alarm with this id was armed to go off n times and has done so k times. */
  ghost predicate Counts(q: seq<Alarm>, id: nat, n: nat, k: nat) {
    k <= n && (if k < n then Holds(q, id, n - k) else Gone(q, id))
  }

  // ---------- the list stays good ----------

  lemma {:induction false} RemoveIs(q: seq<Alarm>, id: nat)
    requires Good(q)
    ensures Good(Remove(q, id)) && Gone(Remove(q, id), id)
    ensures forall a :: a in q && a.id != id ==> a in Remove(q, id)
    ensures forall a :: a in Remove(q, id) ==> a in q
    ensures q != [] && Remove(q, id) != [] ==> q[0].deadline <= Remove(q, id)[0].deadline
  {
    if q != [] {
      TailGood(q);
      RemoveIs(q[1..], id);
    }
  }

  lemma StepGood(q: seq<Alarm>, t: Step)
    requires Good(q) && Legal(q, t)
    ensures Good(Do(q, t).0)
  {
    hide Sorted;
    hide Unique;
    match t
    case Tick(cur, readings) => TickFiresTheDue(q, cur, readings);
    case Arm(id, interval, count, now) =>
      RemoveIs(q, id);
      InsertGood(Remove(q, id), Alarm(id, interval + now, interval, count));
    case Free(id) => RemoveIs(q, id);
  }

  lemma InsertHolds(q: seq<Alarm>, b: Alarm, id: nat, left: int)
    requires b.id != id
    ensures Holds(Insert(q, b), id, left) <==> Holds(q, id, left)
    ensures Gone(Insert(q, b), id) <==> Gone(q, id)
  {
    InsertAdds(q, b);
    assert forall a :: a in Insert(q, b) <==> a in multiset(Insert(q, b));
    assert forall a :: a in q <==> a in multiset(q);
  }

  // ---------- how often one alarm goes off ----------

  lemma {:induction false} GoneIds(q: seq<Alarm>, id: nat)
    requires Gone(q, id)
    ensures Count(Ids(q), id) == 0
  {
    if q != [] {
      GoneIds(q[1..], id);
    }
  }

  lemma {:induction false} OneId(q: seq<Alarm>, i: nat)
    requires Unique(q) && i < |q|
    ensures Count(Ids(q), q[i].id) == 1
  {
    if i == 0 {
      GoneIds(q[1..], q[0].id);
    } else {
      OneId(q[1..], i - 1);
      assert q[0].id != q[i].id;
    }
  }

  lemma {:induction false} SurvivorsFrom(fired: seq<Alarm>, readings: seq<nat>, b: Alarm) returns (i: nat)
    requires |fired| <= |readings| && b in Survivors(fired, readings)
    ensures i < |fired| && Spent(fired[i].left) != 0 && b == Rearmed(fired[i], readings[i])
  {
    if Spent(fired[0].left) != 0 && b == Rearmed(fired[0], readings[0]) {
      i := 0;
    } else {
      var j := SurvivorsFrom(fired[1..], readings[1..], b);
      i := j + 1;
    }
  }

  lemma {:induction false} SurvivorsHave(fired: seq<Alarm>, readings: seq<nat>, i: nat)
    requires |fired| <= |readings| && i < |fired| && Spent(fired[i].left) != 0
    ensures Rearmed(fired[i], readings[i]) in Survivors(fired, readings)
  {
    if i > 0 {
      SurvivorsHave(fired[1..], readings[1..], i - 1);
    }
  }

  lemma TickAtLate(q: seq<Alarm>, cur: nat, readings: seq<nat>, i: nat)
    requires Good(q) && Clock(readings, cur) && Due(q, cur) <= |readings| && i < |q| && q[i].deadline > cur
    ensures var (end, fired) := Fire(q, cur, readings); Count(Ids(fired), q[i].id) == 0 && q[i] in end
  {
    TickFiresTheDue(q, cur, readings);
    var n := Due(q, cur);
    var (end, fired) := Fire(q, cur, readings);
    hide Fire;
    hide Count;
    assert Gone(fired, q[i].id);
    GoneIds(fired, q[i].id);
    assert q[n..][i - n] == q[i];
    assert q[i] in multiset(end);
  }

  lemma TickAtDue(q: seq<Alarm>, cur: nat, readings: seq<nat>, i: nat)
    requires Good(q) && Clock(readings, cur) && Due(q, cur) <= |readings| && i < |q| && q[i].deadline <= cur
    ensures var (end, fired) := Fire(q, cur, readings);
            && i < |readings| && Count(Ids(fired), q[i].id) == 1
            && (Spent(q[i].left) != 0 ==> Rearmed(q[i], readings[i]) in end)
            && (Spent(q[i].left) == 0 ==> Gone(end, q[i].id))
  {
    TickFiresTheDue(q, cur, readings);
    var (end, fired) := Fire(q, cur, readings);
    hide Fire;
    hide Count;
    OneId(fired, i);
    if Spent(q[i].left) != 0 {
      SurvivorsHave(fired, readings, i);
      assert Rearmed(q[i], readings[i]) in multiset(end);
    } else {
      forall b | b in end ensures b.id != q[i].id {
        var j := EndFrom(q, cur, readings, b);
      }
    }
  }

  /** What a tick does to the alarm at q[i]: one that is not due stays as it is; one that is due goes off once,
      and is then off the list if this was its last round, and otherwise on it again, an interval after the
      reading of its round and, if its rounds are counted, with one less. */
  lemma TickAt(q: seq<Alarm>, cur: nat, readings: seq<nat>, i: nat)
    requires Good(q) && Clock(readings, cur) && Due(q, cur) <= |readings| && i < |q|
    ensures var (end, fired) := Fire(q, cur, readings);
            && Count(Ids(fired), q[i].id) == (if q[i].deadline <= cur then 1 else 0)
            && (q[i].deadline > cur ==> q[i] in end)
            && (q[i].deadline <= cur && (q[i].left == 0 || q[i].left == 1) ==> Gone(end, q[i].id))
            && (q[i].deadline <= cur ==> i < |readings|)
            && (q[i].deadline <= cur && q[i].left > 1 ==>
                  Alarm(q[i].id, readings[i] + q[i].interval, q[i].interval, q[i].left - 1) in end)
            && (q[i].deadline <= cur && q[i].left < 0 ==>
                  Alarm(q[i].id, readings[i] + q[i].interval, q[i].interval, q[i].left) in end)
  {
    hide Good;
    hide Clock;
    hide Fire;
    hide Count;
    hide Gone;
    if q[i].deadline <= cur {
      TickAtDue(q, cur, readings, i);
    } else {
      TickAtLate(q, cur, readings, i);
    }
  }

  /** Everything on the list after a tick was on it before, and either was not due or has counts left. */
  lemma EndFrom(q: seq<Alarm>, cur: nat, readings: seq<nat>, b: Alarm) returns (j: nat)
    requires Good(q) && Clock(readings, cur) && Due(q, cur) <= |readings| && b in Fire(q, cur, readings).0
    ensures j < |q| && b.id == q[j].id && (q[j].deadline <= cur ==> Spent(q[j].left) != 0)
  {
    TickFiresTheDue(q, cur, readings);
    var n := Due(q, cur);
    assert b in multiset(Fire(q, cur, readings).0);
    if b in q[n..] {
      var k :| 0 <= k < |q[n..]| && q[n..][k] == b;
      j := n + k;
    } else {
      j := SurvivorsFrom(q[..n], readings, b);
    }
  }

  lemma TickGone(q: seq<Alarm>, cur: nat, readings: seq<nat>, id: nat)
    requires Good(q) && Clock(readings, cur) && Due(q, cur) <= |readings| && Gone(q, id)
    ensures Gone(Fire(q, cur, readings).0, id) && Count(Ids(Fire(q, cur, readings).1), id) == 0
  {
    TickFiresTheDue(q, cur, readings);
    GoneIds(Fire(q, cur, readings).1, id);
    forall b | b in Fire(q, cur, readings).0 ensures b.id != id {
      var j := EndFrom(q, cur, readings, b);
    }
  }

  /** The alarm is not armed anew or freed from outside. */
  predicate Leaves(t: Step, id: nat) {
    t.Tick? || t.id != id
  }

  predicate LeftAlone(run: seq<Step>, id: nat) {
    forall i :: 0 <= i < |run| ==> Leaves(run[i], id)
  }

  lemma TickCounts(q: seq<Alarm>, cur: nat, readings: seq<nat>, id: nat, n: nat, k: nat)
    requires Good(q) && Clock(readings, cur) && Due(q, cur) <= |readings| && Counts(q, id, n, k) && k < n
    ensures var (end, fired) := Fire(q, cur, readings); Counts(end, id, n, k + Count(Ids(fired), id))
  {
    hide Good;
    hide Clock;
    hide Due;
    hide Fire;
    var a :| a in q && a.id == id && a.left == n - k;
    var i :| 0 <= i < |q| && q[i] == a;
    TickAt(q, cur, readings, i);
    var end := Fire(q, cur, readings).0;
    if a.deadline <= cur && a.left > 1 {
      assert Alarm(a.id, readings[i] + a.interval, a.interval, a.left - 1) in end;
      assert Holds(end, id, n - (k + 1));
    }
  }

  lemma OthersHold(q: seq<Alarm>, other: nat, id: nat, left: int)
    requires Good(q) && other != id
    ensures Holds(q, id, left) ==> Holds(Remove(q, other), id, left)
    ensures Gone(q, id) ==> Gone(Remove(q, other), id)
  {
    RemoveIs(q, other);
    hide Good;
    hide Remove;
  }

  lemma OthersCount(q: seq<Alarm>, t: Step, id: nat, n: nat, k: nat)
    requires Good(q) && Legal(q, t) && !t.Tick? && t.id != id && Counts(q, id, n, k)
    ensures Counts(Do(q, t).0, id, n, k)
  {
    OthersHold(q, t.id, id, n - k);
    hide Good;
    hide Holds;
    hide Gone;
    hide Insert;
    hide Remove;
    if t.Arm? {
      InsertHolds(Remove(q, t.id), Alarm(t.id, t.interval + t.now, t.interval, t.count), id, n - k);
    }
  }

  lemma StepCounts(q: seq<Alarm>, t: Step, id: nat, n: nat, k: nat)
    requires Good(q) && Legal(q, t) && Leaves(t, id) && Counts(q, id, n, k)
    ensures Counts(Do(q, t).0, id, n, k + Count(Do(q, t).1, id))
  {
    hide Good;
    match t
    case Tick(cur, readings) =>
      if k < n {
        hide Counts;
        TickCounts(q, cur, readings, id, n, k);
      } else {
        TickGone(q, cur, readings, id);
      }
    case _ =>
      hide Counts;
      OthersCount(q, t, id, n, k);
  }

  lemma CountAdds(ids: seq<nat>, more: seq<nat>, id: nat)
    ensures Count(ids + more, id) == Count(ids, id) + Count(more, id)
  {
  }

  lemma AfterIs(q: seq<Alarm>, run: seq<Step>)
    requires run != []
    ensures var r := Do(q, run[0]).0;
            After(q, run).0 == After(r, run[1..]).0 && After(q, run).1 == Do(q, run[0]).1 + After(r, run[1..]).1
  {
  }

  lemma CountNone(q: seq<Alarm>, id: nat)
    ensures After(q, []) == (q, []) && Count([], id) == 0
  {
  }

  /** However ticks, arming and freeing of other timers follow each other, a timer armed for n > 0 rounds
      goes off no more than n times, has the rest of its rounds left on the list as long as it went off
      fewer times, and is gone when it went off n times. */
  lemma {:induction false} FiresItsCount(q: seq<Alarm>, run: seq<Step>, id: nat, n: nat, k: nat)
    requires Good(q) && Run(q, run) && Counts(q, id, n, k) && LeftAlone(run, id)
    ensures Good(After(q, run).0) && Counts(After(q, run).0, id, n, k + Count(After(q, run).1, id))
    decreases |run|
  {
    hide Good;
    hide Counts;
    hide Do;
    hide Legal;
    hide Count;
    hide After;
    if run == [] {
      CountNone(q, id);
    } else {
      var r, f := Do(q, run[0]).0, Count(Do(q, run[0]).1, id);
      StepGood(q, run[0]);
      StepCounts(q, run[0], id, n, k);
      assert LeftAlone(run[1..], id);
      FiresItsCount(r, run[1..], id, n, k + f);
      CountAdds(Do(q, run[0]).1, After(r, run[1..]).1, id);
      AfterIs(q, run);
      assert Count(After(q, run).1, id) == f + Count(After(r, run[1..]).1, id);
    }
  }

  // ---------- how far apart one alarm goes off ----------

  lemma {:induction false} InsertKeeps(q: seq<Alarm>, b: Alarm, a: Alarm)
    ensures a in Insert(q, b) <==> a == b || a in q
  {
    InsertAdds(q, b);
    assert a in Insert(q, b) <==> a in multiset(Insert(q, b));
    assert a in q <==> a in multiset(q);
  }

  /** Arming puts the alarm on the list once, an interval after now, and touches no other; freeing takes it off
      and touches no other. */
  lemma ArmedIs(q: seq<Alarm>, id: nat, interval: nat, count: int, now: nat)
    requires Good(q) && interval >= 1
    ensures forall a :: a in Do(q, Arm(id, interval, count, now)).0 <==>
                        a == Alarm(id, now + interval, interval, count) || (a in q && a.id != id)
    ensures forall a :: a in Do(q, Free(id)).0 <==> a in q && a.id != id
  {
    RemoveIs(q, id);
    hide Good;
    var b := Alarm(id, interval + now, interval, count);
    forall a ensures a in Insert(Remove(q, id), b) <==> a == b || a in Remove(q, id) {
      InsertKeeps(Remove(q, id), b, a);
    }
  }

  /** The readings at which the alarm with this id went off, out of the rounds of one tick. */
  function Times(fired: seq<Alarm>, readings: seq<nat>, id: nat): seq<nat>
    requires |fired| <= |readings|
  {
    if fired == [] then []
    else (if fired[0].id == id then [readings[0]] else []) + Times(fired[1..], readings[1..], id)
  }

  lemma {:induction false} FiredNoMore(q: seq<Alarm>, cur: nat, readings: seq<nat>)
    ensures |Fire(q, cur, readings).1| <= |readings|
    decreases |readings|
  {
    if q != [] && q[0].deadline <= cur && readings != [] {
      FiredNoMore(AfterOne(q, readings[0]), cur, readings[1..]);
    }
  }

  function StepTimes(q: seq<Alarm>, t: Step, id: nat): seq<nat> {
    match t
    case Tick(cur, readings) =>
      FiredNoMore(q, cur, readings);
      Times(Fire(q, cur, readings).1, readings, id)
    case _ => []
  }

  /** The clock readings at which the alarm went off, over a run. */
  function Log(q: seq<Alarm>, run: seq<Step>, id: nat): seq<nat>
    decreases |run|
  {
    if run == [] then [] else StepTimes(q, run[0], id) + Log(Do(q, run[0]).0, run[1..], id)
  }

  /** The first time is not before start, and each further one an interval after the one before it. */
  predicate Spaced(times: seq<nat>, start: nat, interval: nat) {
    && (times != [] ==> start <= times[0])
    && forall i :: 0 <= i < |times| - 1 ==> times[i] + interval <= times[i + 1]
  }

  lemma {:induction false} TimesNone(fired: seq<Alarm>, readings: seq<nat>, id: nat)
    requires |fired| <= |readings| && Gone(fired, id)
    ensures Times(fired, readings, id) == []
  {
    if fired != [] {
      TimesNone(fired[1..], readings[1..], id);
    }
  }

  lemma {:induction false} TimesOne(fired: seq<Alarm>, readings: seq<nat>, i: nat)
    requires |fired| <= |readings| && Unique(fired) && i < |fired|
    ensures Times(fired, readings, fired[i].id) == [readings[i]]
  {
    if i == 0 {
      TimesNone(fired[1..], readings[1..], fired[0].id);
    } else {
      assert fired[0].id != fired[i].id;
      TimesOne(fired[1..], readings[1..], i - 1);
    }
  }

  /** When the alarm at q[i] goes off in a tick. */
  lemma TickTimes(q: seq<Alarm>, cur: nat, readings: seq<nat>, i: nat)
    requires Good(q) && Clock(readings, cur) && Due(q, cur) <= |readings| && i < |q|
    ensures q[i].deadline > cur ==> StepTimes(q, Tick(cur, readings), q[i].id) == []
    ensures q[i].deadline <= cur ==> i < |readings| && cur <= readings[i] && StepTimes(q, Tick(cur, readings), q[i].id) == [readings[i]]
  {
    TickFiresTheDue(q, cur, readings);
    FiredNoMore(q, cur, readings);
    var fired := Fire(q, cur, readings).1;
    hide Fire;
    if q[i].deadline > cur {
      TimesNone(fired, readings, q[i].id);
    } else {
      TimesOne(fired, readings, i);
    }
  }

  lemma TickTimesGone(q: seq<Alarm>, cur: nat, readings: seq<nat>, id: nat)
    requires Good(q) && Clock(readings, cur) && Due(q, cur) <= |readings| && Gone(q, id)
    ensures StepTimes(q, Tick(cur, readings), id) == []
  {
    TickFiresTheDue(q, cur, readings);
    FiredNoMore(q, cur, readings);
    TimesNone(Fire(q, cur, readings).1, readings, id);
  }

  /** Alarm a after it went off at reading r. */
  ghost predicate WentOff(q: seq<Alarm>, a: Alarm, r: nat) {
    if a.left == 0 || a.left == 1 then Gone(q, a.id)
    else Alarm(a.id, r + a.interval, a.interval, if a.left > 0 then a.left - 1 else a.left) in q
  }

  lemma StepOne(q: seq<Alarm>, t: Step, a: Alarm)
    requires Good(q) && Legal(q, t) && Leaves(t, a.id) && a in q
    ensures var r, times := Do(q, t).0, StepTimes(q, t, a.id);
            || (times == [] && a in r)
            || (|times| == 1 && a.deadline <= times[0] && WentOff(r, a, times[0]))
  {
    hide Good;
    hide Gone;
    hide Fire;
    hide Clock;
    hide Due;
    match t
    case Tick(cur, readings) =>
      var i :| 0 <= i < |q| && q[i] == a;
      TickAt(q, cur, readings, i);
      TickTimes(q, cur, readings, i);
    case _ =>
      hide Insert;
      hide Remove;
      hide StepTimes;
      OthersStay(q, t, a);
  }

  lemma OthersStay(q: seq<Alarm>, t: Step, a: Alarm)
    requires Good(q) && Legal(q, t) && !t.Tick? && t.id != a.id && a in q
    ensures StepTimes(q, t, a.id) == [] && a in Do(q, t).0
  {
    hide Good;
    match t
    case Arm(id, interval, count, now) => ArmedIs(q, id, interval, count, now);
    case Free(id) => ArmedIs(q, id, 1, 0, 0);
  }

  lemma StepGone(q: seq<Alarm>, t: Step, id: nat)
    requires Good(q) && Legal(q, t) && Leaves(t, id) && Gone(q, id)
    ensures Gone(Do(q, t).0, id) && StepTimes(q, t, id) == []
  {
    hide Good;
    match t
    case Tick(cur, readings) =>
      TickGone(q, cur, readings, id);
      TickTimesGone(q, cur, readings, id);
    case Arm(other, interval, count, now) => ArmedIs(q, other, interval, count, now);
    case Free(other) => ArmedIs(q, other, 1, 0, 0);
  }

  lemma {:induction false} StaysGone(q: seq<Alarm>, run: seq<Step>, id: nat)
    requires Good(q) && Run(q, run) && LeftAlone(run, id) && Gone(q, id)
    ensures Gone(After(q, run).0, id) && Log(q, run, id) == []
    decreases |run|
  {
    hide Good;
    hide Gone;
    hide Do;
    hide Legal;
    hide StepTimes;
    if run != [] {
      StepGood(q, run[0]);
      StepGone(q, run[0], id);
      StaysGone(Do(q, run[0]).0, run[1..], id);
      AfterIs(q, run);
    }
  }

  /** The deadline that the last reading in the log, or the arming, set. */
  function DeadlineAfter(a: Alarm, log: seq<nat>): nat {
    if log == [] then a.deadline else log[|log| - 1] + a.interval
  }

  /** Alarm a after the rounds in the log, if it is still on the list. */
  ghost predicate Kept(q: seq<Alarm>, a: Alarm, log: seq<nat>) {
    && (forall b :: b in q && b.id == a.id ==> b.interval == a.interval && b.deadline == DeadlineAfter(a, log))
    && (a.left < 0 ==> exists b :: b in q && b.id == a.id && b.left == a.left)
  }

  lemma SpacedMore(times: seq<nat>, start: nat, interval: nat, r: nat)
    requires start <= r && Spaced(times, r + interval, interval)
    ensures Spaced([r] + times, start, interval)
  {
  }

  lemma KeptMore(q: seq<Alarm>, a: Alarm, b: Alarm, r: nat, log: seq<nat>)
    requires Kept(q, b, log) && b.id == a.id && b.interval == a.interval && b.deadline == r + a.interval && (a.left < 0 ==> b.left == a.left)
    ensures Kept(q, a, [r] + log)
  {
  }

  lemma LogIs(q: seq<Alarm>, run: seq<Step>, id: nat)
    requires run != []
    ensures Log(q, run, id) == StepTimes(q, run[0], id) + Log(Do(q, run[0]).0, run[1..], id)
  {
  }

  /** However ticks, arming and freeing of other timers follow each other: a timer never goes off before its
      deadline, two rounds of it lie at least its interval apart, its deadline is always an interval after
      the last round, and one that was armed for ever is still there. */
  lemma {:induction false} RoundsAreSpaced(q: seq<Alarm>, run: seq<Step>, a: Alarm)
    requires Good(q) && Run(q, run) && LeftAlone(run, a.id) && a in q
    ensures Spaced(Log(q, run, a.id), a.deadline, a.interval)
    ensures Kept(After(q, run).0, a, Log(q, run, a.id))
    decreases |run|
  {
    hide Good;
    hide Gone;
    hide Do;
    hide Legal;
    hide StepTimes;
    hide Spaced;
    hide Kept;
    hide Log;
    hide After;
    if run == [] {
      NoRounds(q, a);
    } else {
      var r, times := Do(q, run[0]).0, StepTimes(q, run[0], a.id);
      StepGood(q, run[0]);
      StepOne(q, run[0], a);
      AfterIs(q, run);
      LogIs(q, run, a.id);
      assert LeftAlone(run[1..], a.id);
      if times == [] {
        RoundsAreSpaced(r, run[1..], a);
        assert [] + Log(r, run[1..], a.id) == Log(r, run[1..], a.id);
      } else if a.left == 0 || a.left == 1 {
        StaysGone(r, run[1..], a.id);
        LastRound(After(r, run[1..]).0, a, times[0]);
        assert times + [] == [times[0]];
      } else {
        var b := Alarm(a.id, times[0] + a.interval, a.interval, if a.left > 0 then a.left - 1 else a.left);
        RoundsAreSpaced(r, run[1..], b);
        SpacedMore(Log(r, run[1..], a.id), a.deadline, a.interval, times[0]);
        KeptMore(After(r, run[1..]).0, a, b, times[0], Log(r, run[1..], a.id));
        assert times == [times[0]];
      }
    }
  }

  lemma NoRounds(q: seq<Alarm>, a: Alarm)
    requires Good(q) && a in q
    ensures Spaced(Log(q, [], a.id), a.deadline, a.interval) && Kept(After(q, []).0, a, Log(q, [], a.id))
  {
  }

  lemma LastRound(q: seq<Alarm>, a: Alarm, r: nat)
    requires Gone(q, a.id) && a.left >= 0 && a.deadline <= r
    ensures Kept(q, a, [r]) && Spaced([r], a.deadline, a.interval)
  {
  }
}
