/** The timer list as a value: alarms in order of deadline, and what a tick does to it. */
module Timers {
  /** left is the trigger count: a positive one is counted down, a negative one is for ever. */
  datatype Alarm = Alarm(id: nat, deadline: nat, interval: nat, left: int)

  /** vsfq_enqueue: before the first alarm that is not earlier. */
  function Insert(q: seq<Alarm>, a: Alarm): seq<Alarm> {
    if q == [] || q[0].deadline >= a.deadline then [a] + q else [q[0]] + Insert(q[1..], a)
  }

  /** vsfq_remove. */
  function Remove(q: seq<Alarm>, id: nat): seq<Alarm> {
    if q == [] then [] else if q[0].id == id then q[1..] else [q[0]] + Remove(q[1..], id)
  }

  /** What is left of the count of an alarm that goes off. */
  function Spent(left: int): int {
    if left > 0 then left - 1 else left
  }

  function Rearmed(a: Alarm, now: nat): Alarm {
    a.(left := Spent(a.left), deadline := a.interval + now)
  }

  /** The list after the first due alarm went off. */
  function AfterOne(q: seq<Alarm>, now: nat): seq<Alarm>
    requires q != []
  {
    if Spent(q[0].left) != 0 then Insert(q[1..], Rearmed(q[0], now)) else q[1..]
  }

  /** The tick loop: the list it leaves and the alarms that went off, in order. readings[i] is what the
      clock shows in iteration i. */
  function Fire(q: seq<Alarm>, cur: nat, readings: seq<nat>): (seq<Alarm>, seq<Alarm>)
    decreases |readings|
  {
    if q == [] || cur < q[0].deadline || readings == [] then (q, [])
    else
      var a := q[0];
      var (end, fired) := Fire(AfterOne(q, readings[0]), cur, readings[1..]);
      (end, [a] + fired)
  }

  function Ids(q: seq<Alarm>): seq<nat> {
    if q == [] then [] else [q[0].id] + Ids(q[1..])
  }

  predicate Sorted(q: seq<Alarm>) {
    forall i :: 0 <= i < |q| - 1 ==> q[i].deadline <= q[i + 1].deadline
  }

  predicate Unique(q: seq<Alarm>) {
    forall i, j :: 0 <= i < j < |q| ==> q[i].id != q[j].id
  }

  predicate Good(q: seq<Alarm>) {
    Sorted(q) && Unique(q) && forall a :: a in q ==> a.interval >= 1
  }

  /** How many alarms are due: on a sorted list, those at its front. */
  function Due(q: seq<Alarm>, cur: nat): nat {
    if q == [] || cur < q[0].deadline then 0 else 1 + Due(q[1..], cur)
  }

  predicate Clock(readings: seq<nat>, cur: nat) {
    (forall i :: 0 <= i < |readings| ==> readings[i] >= cur)
    && forall i :: 0 <= i < |readings| - 1 ==> readings[i] <= readings[i + 1]
  }

  lemma {:induction false} SortedAll(q: seq<Alarm>, i: nat, j: nat)
    requires Sorted(q) && i <= j < |q|
    ensures q[i].deadline <= q[j].deadline
    decreases j
  {
    if i < j {
      SortedAll(q, i, j - 1);
    }
  }

  lemma {:induction false} DueIsPrefix(q: seq<Alarm>, cur: nat)
    requires Sorted(q)
    ensures Due(q, cur) <= |q|
    ensures forall i :: 0 <= i < |q| ==> (q[i].deadline <= cur <==> i < Due(q, cur))
  {
    if q != [] && q[0].deadline <= cur {
      DueIsPrefix(q[1..], cur);
    } else {
      forall i | 0 <= i < |q| ensures q[i].deadline > cur {
        SortedAll(q, 0, i);
      }
    }
  }

  /** Insertion puts the alarm in one place, after all that are earlier. */
  lemma {:induction false} InsertAt(q: seq<Alarm>, a: Alarm) returns (k: nat)
    ensures k <= |q| && Insert(q, a) == q[..k] + [a] + q[k..]
    ensures (forall i :: 0 <= i < k ==> q[i].deadline < a.deadline) && (k < |q| ==> a.deadline <= q[k].deadline)
  {
    if q == [] || q[0].deadline >= a.deadline {
      k := 0;
    } else {
      var j := InsertAt(q[1..], a);
      k := j + 1;
      assert q[..k] == [q[0]] + q[1..][..j];
      forall i | 0 <= i < k ensures q[i].deadline < a.deadline {
        assert i > 0 ==> q[i] == q[1..][i - 1];
      }
    }
  }

  lemma {:induction false} InsertAdds(q: seq<Alarm>, a: Alarm)
    ensures multiset(Insert(q, a)) == multiset(q) + multiset{a}
  {
    if q != [] && q[0].deadline < a.deadline {
      InsertAdds(q[1..], a);
      assert q == [q[0]] + q[1..];
    }
  }

  lemma InsertSorted(q: seq<Alarm>, a: Alarm)
    requires Sorted(q)
    ensures Sorted(Insert(q, a))
  {
    var k := InsertAt(q, a);
  }

  lemma InsertUnique(q: seq<Alarm>, a: Alarm)
    requires Unique(q) && forall b :: b in q ==> b.id != a.id
    ensures Unique(Insert(q, a))
  {
    var k := InsertAt(q, a);
    var r := Insert(q, a);
    forall i, j | 0 <= i < j < |r| ensures r[i].id != r[j].id {
      assert r[i] == if i < k then q[i] else if i == k then a else q[i - 1];
      assert r[j] == if j < k then q[j] else if j == k then a else q[j - 1];
    }
  }

  lemma InsertGood(q: seq<Alarm>, a: Alarm)
    requires Good(q) && a.interval >= 1 && forall b :: b in q ==> b.id != a.id
    ensures Good(Insert(q, a))
  {
    hide Sorted;
    hide Unique;
    InsertSorted(q, a);
    InsertUnique(q, a);
    InsertAdds(q, a);
    forall b | b in Insert(q, a) ensures b.interval >= 1 {
      assert b in multiset(Insert(q, a));
    }
  }

  function First(q: seq<Alarm>, cur: nat): (r: seq<Alarm>) {
    if q == [] || cur < q[0].deadline then [] else [q[0]] + First(q[1..], cur)
  }

  function Rest(q: seq<Alarm>, cur: nat): (r: seq<Alarm>) {
    if q == [] || cur < q[0].deadline then q else Rest(q[1..], cur)
  }

  lemma {:induction false} FirstAndRest(q: seq<Alarm>, cur: nat)
    ensures Due(q, cur) <= |q| && First(q, cur) == q[..Due(q, cur)] && Rest(q, cur) == q[Due(q, cur)..]
  {
    if q != [] && q[0].deadline <= cur {
      FirstAndRest(q[1..], cur);
    }
  }

  /** An alarm that is not due goes in behind all that are. */
  lemma {:induction false} InsertLate(q: seq<Alarm>, a: Alarm, cur: nat)
    requires a.deadline > cur
    ensures Due(Insert(q, a), cur) == Due(q, cur) && First(Insert(q, a), cur) == First(q, cur)
    ensures multiset(Rest(Insert(q, a), cur)) == multiset(Rest(q, cur)) + multiset{a}
  {
    if q != [] && q[0].deadline <= cur {
      InsertLate(q[1..], a, cur);
    } else {
      InsertAdds(q, a);
    }
  }

  /** What of the alarms that went off is on the list again. */
  function Survivors(fired: seq<Alarm>, readings: seq<nat>): seq<Alarm>
    requires |fired| <= |readings|
  {
    if fired == [] then []
    else (if Spent(fired[0].left) != 0 then [Rearmed(fired[0], readings[0])] else []) + Survivors(fired[1..], readings[1..])
  }

  lemma TailGood(q: seq<Alarm>)
    requires Good(q) && q != []
    ensures Good(q[1..]) && forall b :: b in q[1..] ==> b.id != q[0].id
  {
  }

  function Again(a: Alarm, now: nat): multiset<Alarm> {
    if Spent(a.left) != 0 then multiset{Rearmed(a, now)} else multiset{}
  }

  lemma AfterOneIs(q: seq<Alarm>, cur: nat, now: nat)
    requires Good(q) && now >= cur && Due(q, cur) > 0
    ensures Good(AfterOne(q, now)) && Due(AfterOne(q, now), cur) == Due(q, cur) - 1
    ensures First(q, cur) == [q[0]] + First(AfterOne(q, now), cur)
    ensures multiset(Rest(AfterOne(q, now), cur)) == multiset(Rest(q, cur)) + Again(q[0], now)
  {
    TailGood(q);
    hide Good;
    hide Sorted;
    hide Unique;
    if Spent(q[0].left) != 0 {
      assert q[0].interval >= 1 by {
        IntervalOf(q);
      }
      InsertGood(q[1..], Rearmed(q[0], now));
      InsertLate(q[1..], Rearmed(q[0], now), cur);
    }
  }

  lemma IntervalOf(q: seq<Alarm>)
    requires Good(q) && q != []
    ensures q[0].interval >= 1
  {
  }

  lemma {:induction false} FireIs(q: seq<Alarm>, cur: nat, readings: seq<nat>)
    requires Good(q) && Clock(readings, cur) && Due(q, cur) <= |readings|
    ensures var (end, fired) := Fire(q, cur, readings);
            && fired == First(q, cur) && Good(end) && Due(end, cur) == 0 && |fired| <= |readings|
            && multiset(end) == multiset(Rest(q, cur)) + multiset(Survivors(fired, readings))
    decreases |readings|
  {
    hide Good;
    hide Survivors;
    hide Insert;
    if Due(q, cur) > 0 {
      AfterOneIs(q, cur, readings[0]);
      FireIs(AfterOne(q, readings[0]), cur, readings[1..]);
      SurvivorsOf(q[0], First(AfterOne(q, readings[0]), cur), readings);
    } else {
      SurvivorsNone(readings);
    }
  }

  lemma SurvivorsOf(a: Alarm, fired: seq<Alarm>, readings: seq<nat>)
    requires |fired| < |readings|
    ensures multiset(Survivors([a] + fired, readings)) ==
            Again(a, readings[0]) + multiset(Survivors(fired, readings[1..]))
  {
    assert ([a] + fired)[1..] == fired;
  }

  lemma SurvivorsNone(readings: seq<nat>)
    ensures Survivors([], readings) == []
  {
  }

  /** A tick fires every due alarm once, those and no others, in order of deadline; afterwards the list is
      in order, holds only later deadlines, and consists of what was not due and of what has counts left.
      The number of due alarms bounds the loop. */
  lemma TickFiresTheDue(q: seq<Alarm>, cur: nat, readings: seq<nat>)
    requires Good(q) && Clock(readings, cur) && Due(q, cur) <= |readings|
    ensures var (end, fired) := Fire(q, cur, readings);
            && Due(q, cur) <= |q| && fired == q[..Due(q, cur)]
            && (forall i :: 0 <= i < |q| ==> (q[i].deadline <= cur <==> i < Due(q, cur)))
            && Good(end) && (forall a :: a in end ==> a.deadline > cur)
            && multiset(end) == multiset(q[Due(q, cur)..]) + multiset(Survivors(fired, readings))
  {
    FireIs(q, cur, readings);
    FirstAndRest(q, cur);
    DueIsPrefix(q, cur);
    DueIsPrefix(Fire(q, cur, readings).0, cur);
  }
}
