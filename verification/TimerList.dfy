/** The timer list in memory, relinked in place by vsfq_enqueue and vsfq_remove, and the tick loop over it. */
module TimerList {
  import opened Chains
  import opened Timers

  /** A timer with its queue node. */
  class Timer {
    const id: nat
    var addr: nat
    var interval: nat
    var count: int
    var next: Timer?

    constructor (id: nat, interval: nat, count: int)
      ensures this.id == id && this.interval == interval && this.count == count && next == null
    {
      this.id, this.interval, this.count, addr, next := id, interval, count, 0, null;
    }
  }

  function AlarmOf(t: Timer): Alarm
    reads t
  {
    Alarm(t.id, t.addr, t.interval, t.count)
  }

  ghost function Alarms(c: seq<Timer>): (q: seq<Alarm>)
    reads Nodes(c)
    ensures |q| == |c| && forall i :: 0 <= i < |c| ==> q[i] == AlarmOf(c[i])
  {
    seq(|c|, i requires 0 <= i < |c| reads Nodes(c) => AlarmOf(c[i]))
  }

  ghost predicate Linked(c: seq<Timer>, head: Timer?)
    reads Nodes(c)
  {
    && head == (if c == [] then null else c[0])
    && (forall i :: 0 <= i < |c| - 1 ==> c[i].next == c[i + 1])
    && (|c| > 0 ==> c[|c| - 1].next == null)
  }

  lemma LinkedAfterInsert(c: seq<Timer>, head: Timer?, k: nat, t: Timer)
    requires Distinct(c) && t !in c && k <= |c| && head == (if k == 0 then t else c[0])
    requires forall i :: 0 <= i < |c| - 1 && i != k - 1 ==> c[i].next == c[i + 1]
    requires k < |c| ==> c[|c| - 1].next == null
    requires (k > 0 ==> c[k - 1].next == t) && t.next == (if k < |c| then c[k] else null)
    ensures Linked(Inserted(c, k, t), head)
  {
    InsertedElements(c, k, t);
    var d := Inserted(c, k, t);
    forall i | 0 <= i < |d| - 1 ensures d[i].next == d[i + 1] {
      if i < k - 1 {
        assert d[i] == c[i] && d[i + 1] == c[i + 1];
      } else if i > k {
        assert d[i] == c[i - 1] && d[i + 1] == c[i];
      }
    }
    assert k < |c| ==> d[|c|] == c[|c| - 1];
  }

  lemma LinkedAfterRemove(c: seq<Timer>, head: Timer?, k: nat)
    requires Distinct(c) && 0 < k < |c| && head == c[0]
    requires forall i :: 0 <= i < |c| - 1 && i != k - 1 ==> c[i].next == c[i + 1]
    requires c[k - 1].next == (if k + 1 < |c| then c[k + 1] else null)
    requires k + 1 < |c| ==> c[|c| - 1].next == null
    ensures Linked(Removed(c, k), head) && Distinct(Removed(c, k))
  {
    RemovedElements(c, k);
    var d := Removed(c, k);
    forall i | 0 <= i < |d| - 1 ensures d[i].next == d[i + 1] {
      if i < k - 1 {
        assert d[i] == c[i] && d[i + 1] == c[i + 1];
      } else if i >= k {
        assert d[i] == c[i + 1] && d[i + 1] == c[i + 2];
      }
    }
    assert k + 1 < |c| ==> d[|c| - 2] == c[|c| - 1];
  }

  lemma LinkedAfterFirst(c: seq<Timer>)
    requires Distinct(c) && c != [] && Linked(c, c[0])
    ensures Linked(c[1..], c[0].next) && Distinct(c[1..]) && c[1..] == Removed(c, 0)
  {
  }

  lemma NextOf(c: seq<Timer>, k: nat)
    requires c != [] && Linked(c, c[0]) && k < |c|
    ensures c[k].next == if k + 1 < |c| then c[k + 1] else null
  {
  }

  lemma {:induction false} RemoveAt(q: seq<Alarm>, k: nat)
    requires Unique(q) && k < |q|
    ensures Remove(q, q[k].id) == q[..k] + q[k + 1..]
  {
    if k > 0 {
      assert q[0].id != q[k].id;
      RemoveAt(q[1..], k - 1);
      assert q[..k] == [q[0]] + q[1..][..k - 1];
    }
  }

  lemma RemoveUpdated(q: seq<Alarm>, k: nat, a: Alarm)
    requires Unique(q) && k < |q| && a.id == q[k].id
    ensures Unique(q[k := a]) && Remove(q[k := a], a.id) == Remove(q, a.id)
  {
    var r := q[k := a];
    assert forall i :: 0 <= i < |q| ==> r[i].id == q[i].id;
    RemoveAt(q, k);
    RemoveAt(r, k);
  }

  lemma {:induction false} RemoveNone(q: seq<Alarm>, id: nat)
    requires forall i :: 0 <= i < |q| ==> q[i].id != id
    ensures Remove(q, id) == q
  {
    if q != [] {
      RemoveNone(q[1..], id);
    }
  }

  lemma AlarmsRemoved(c: seq<Timer>, k: nat)
    requires Distinct(c) && k < |c|
    ensures Alarms(Removed(c, k)) == Alarms(c)[..k] + Alarms(c)[k + 1..]
    ensures c[k] !in Removed(c, k) && Nodes(Removed(c, k)) <= Nodes(c)
  {
    RemovedElements(c, k);
  }

  lemma AlarmsInserted(c: seq<Timer>, k: nat, t: Timer)
    requires Distinct(c) && k <= |c| && t !in c
    ensures Alarms(Inserted(c, k, t)) == Alarms(c)[..k] + [AlarmOf(t)] + Alarms(c)[k..]
    ensures t in Inserted(c, k, t) && Nodes(Inserted(c, k, t)) == Nodes(c) + {t}
  {
    InsertedElements(c, k, t);
    var d := Inserted(c, k, t);
    assert d[k] == t;
  }

  /** Relinking changes no alarm. */
  twostate lemma AlarmsStay(c: seq<Timer>)
    requires forall i :: 0 <= i < |c| ==> old(allocated(c[i])) && AlarmOf(c[i]) == old(AlarmOf(c[i]))
    ensures Alarms(c) == old(Alarms(c))
  {
  }

  class Queue {
    var head: Timer?
    var tail: Timer?
    ghost var nodes: seq<Timer>

    ghost predicate Valid()
      reads this, Nodes(nodes)
    {
      Distinct(nodes) && Linked(nodes, head)
    }

    ghost function View(): seq<Alarm>
      reads this, Nodes(nodes)
    {
      Alarms(nodes)
    }

    constructor ()
      ensures Valid() && nodes == []
    {
      head, tail, nodes := null, null, [];
    }

    /** The walk of vsfq_remove: the node before t, or the last one. */
    method Before(t: Timer) returns (at: Timer, ghost k: nat)
      requires Valid() && head != null && head != t
      ensures k < |nodes| && at == nodes[k] && t !in nodes[..k + 1]
      ensures at.next == (if k + 1 < |nodes| then nodes[k + 1] else null)
      ensures t in nodes ==> at.next == t
      ensures at.next == t ==> t.next == if k + 2 < |nodes| then nodes[k + 2] else null
    {
      at, k := head, 0;
      while at.next != null && at.next != t
        invariant 0 <= k < |nodes| && at == nodes[k]
        invariant t !in nodes[..k + 1]
        decreases |nodes| - k
      {
        NextOf(nodes, k);
        at := at.next;
        k := k + 1;
      }
      NextOf(nodes, k);
      if at.next == t {
        NextOf(nodes, k + 1);
      }
    }

    method CutHead()
      requires Valid() && head != null
      modifies this
      ensures Valid() && nodes == Removed(old(nodes), 0)
    {
      ghost var c := nodes;
      head := head.next;
      nodes := c[1..];
      if head == null {
        tail := null;
      }
      LinkedAfterFirst(c);
    }

    method CutAfter(at: Timer, ghost k: nat)
      requires Valid() && k + 1 < |nodes| && at == nodes[k] && at.next == nodes[k + 1]
      requires at.next.next == if k + 2 < |nodes| then nodes[k + 2] else null
      modifies this, at`next
      ensures Valid() && nodes == Removed(old(nodes), k + 1)
    {
      ghost var c := nodes;
      at.next := at.next.next;
      if at.next == null {
        tail := at;
      }
      nodes := Removed(c, k + 1);
      LinkedAfterRemove(c, head, k + 1);
    }

    /** vsfq_remove: nothing happens if the timer is not on the list. */
    method Unlink(t: Timer) returns (ghost k: nat)
      requires Valid()
      modifies this, Nodes(nodes)`next
      ensures Valid()
      ensures t !in old(nodes) ==> nodes == old(nodes)
      ensures t in old(nodes) ==> k < |old(nodes)| && old(nodes)[k] == t && nodes == Removed(old(nodes), k)
    {
      hide Removed;
      k := 0;
      if head == t {
        CutHead();
      } else if head != null {
        var at: Timer;
        at, k := Before(t);
        if at.next == t {
          CutAfter(at, k);
          k := k + 1;
        }
      }
    }

    /** vsfq_enqueue, for a timer that is not on the list; tail is not moved when it goes in last. */
    method Link(t: Timer, ghost k: nat)
      requires Valid() && t !in nodes && k <= |nodes|
      requires forall i :: 0 <= i < k ==> nodes[i].addr < t.addr
      requires k < |nodes| ==> nodes[k].addr >= t.addr
      modifies this, Nodes(nodes)`next, t`next
      ensures Valid() && nodes == Inserted(old(nodes), k, t)
    {
      ghost var c := nodes;
      t.next := null;
      if head == null {
        head := t;
        tail := t;
      } else if head.addr >= t.addr {
        t.next := head;
        head := t;
      } else {
        var at := head;
        ghost var j := 0;
        while at.next != null
          invariant 0 <= j < |c| && at == c[j] && j < k
          invariant head == c[0] && t.next == null && Linked(c, head)
          invariant forall i :: 0 <= i < |c| ==> c[i].next == old(c[i].next)
          decreases |c| - j
        {
          NextOf(c, j);
          if at.next.addr >= t.addr {
            assert k == j + 1;
            t.next := at.next;
            at.next := t;
            break;
          }
          at := at.next;
          j := j + 1;
        }
        if at.next == null {
          NextOf(c, j);
          assert k == |c|;
        }
        at.next := t;
      }
      nodes := Inserted(c, k, t);
      LinkedAfterInsert(c, head, k, t);
      InsertedElements(c, k, t);
      hide Linked;
      hide Inserted;
      hide Distinct;
    }

    /** A timer is known by its id. */
    ghost predicate Owns(t: Timer)
      reads this
    {
      forall n :: n in nodes && n.id == t.id ==> n == t
    }

    /** vsftimer_dequeue. */
    method Dequeue(t: Timer)
      requires Valid() && Unique(View()) && Owns(t)
      modifies this, Nodes(nodes)`next
      ensures Valid() && View() == Remove(old(View()), t.id) && t !in nodes && Nodes(nodes) <= old(Nodes(nodes))
    {
      hide Linked;
      hide Removed;
      hide Unique;
      hide Alarms;
      ghost var c := nodes;
      var k := Unlink(t);
      AlarmsStay(c);
      if t in c {
        AlarmsRemoved(c, k);
        RemoveAt(Alarms(c), k);
      } else {
        RemoveNone(Alarms(c), t.id);
      }
    }

    /** A timer may change its deadline or its count while it is queued, if it is then taken off. */
    method Touch(t: Timer, addr: nat, count: int)
      requires Valid() && Unique(View()) && Owns(t)
      modifies t`addr, t`count
      ensures Valid() && Unique(View()) && t.addr == addr && t.count == count
      ensures Remove(View(), t.id) == Remove(old(View()), t.id)
    {
      ghost var q := View();
      t.addr, t.count := addr, count;
      if t in nodes {
        ghost var k :| 0 <= k < |nodes| && nodes[k] == t;
        RemoveUpdated(q, k, AlarmOf(t));
        assert View() == q[k := AlarmOf(t)];
      } else {
        assert View() == q;
      }
    }

    method LinkInOrder(t: Timer)
      requires Valid() && t !in nodes
      modifies this, Nodes(nodes)`next, t`next
      ensures Valid() && t in nodes && Nodes(nodes) == old(Nodes(nodes)) + {t}
      ensures View() == Insert(old(View()), old(AlarmOf(t)))
    {
      hide Linked;
      hide Inserted;
      hide Alarms;
      ghost var k := InsertAt(View(), AlarmOf(t));
      ghost var c := nodes;
      label Before: Link(t, k);
      AlarmsStay@Before(c);
      AlarmsInserted(c, k, t);
    }

    /** vsftimer_enqueue, with what the clock shows. */
    method Enqueue(t: Timer, now: nat)
      requires Valid() && Unique(View()) && Owns(t)
      modifies this, Nodes(nodes)`next, t`next, t`addr, t`count
      ensures Valid() && t in nodes && Nodes(nodes) <= old(Nodes(nodes)) + {t}
      ensures View() == Insert(Remove(old(View()), t.id), Alarm(t.id, t.interval + now, t.interval, t.count)) && t.count == old(t.count)
    {
      hide Linked;
      hide Distinct;
      hide Unique;
      hide Alarms;
      hide Insert;
      hide Remove;
      Touch(t, t.interval + now, t.count);
      Dequeue(t);
      assert AlarmOf(t) == Alarm(t.id, old(t.interval) + now, old(t.interval), old(t.count));
      LinkInOrder(t);
    }

    /** One round of the tick loop: the first timer, which is due, goes off. */
    method FireFirst(now: nat) returns (id: nat)
      requires Valid() && Good(View()) && head != null
      modifies this, Nodes(nodes)
      ensures Valid() && Nodes(nodes) <= old(Nodes(nodes))
      ensures old(nodes) != [] && View() == AfterOne(old(View()), now) && id == old(View()[0].id)
    {
      hide Linked;
      hide Sorted;
      hide Insert;
      hide Alarms;
      hide AfterOne;
      ghost var q := View();
      var t := head;
      HeadIs();
      id := t.id;
      Touch(t, t.addr, if t.count > 0 then t.count - 1 else t.count);
      if t.count != 0 {
        Enqueue(t, now);
      } else {
        Dequeue(t);
      }
      AfterOneBy(q, now);
    }

    lemma HeadIs()
      requires Valid() && Unique(View())
      ensures head == null <==> View() == []
      ensures head != null ==> nodes != [] && head == nodes[0] && View()[0] == AlarmOf(head) && Owns(head)
    {
      if head != null {
        forall n | n in nodes && n.id == head.id ensures n == head {
          var k :| 0 <= k < |nodes| && nodes[k] == n;
          FirstUnique(View(), k);
        }
      }
    }

    /** The tick loop: cur is what the clock showed at its start, readings[i] what it shows in round i. */
    method Tick(cur: nat, readings: seq<nat>) returns (fired: seq<nat>)
      requires Valid() && Good(View()) && Clock(readings, cur) && Due(View(), cur) <= |readings|
      modifies this, Nodes(nodes)
      ensures Valid() && Nodes(nodes) <= old(Nodes(nodes))
      ensures View() == Fire(old(View()), cur, readings).0
      ensures fired == Ids(Fire(old(View()), cur, readings).1)
    {
      hide Linked;
      hide Sorted;
      hide Alarms;
      hide Clock;
      hide Due;
      hide Fire;
      hide Ids;
      fired := [];
      var i := 0;
      ghost var end := Fire(View(), cur, readings);
      FireStart(readings, end.1);
      while head != null && cur >= head.addr
        invariant 0 <= i <= |readings| && Valid() && Good(View()) && Nodes(nodes) <= old(Nodes(nodes))
        invariant Due(View(), cur) <= |readings| - i
        invariant Fire(View(), cur, readings[i..]).0 == end.0
        invariant fired + Ids(Fire(View(), cur, readings[i..]).1) == Ids(end.1)
        decreases Due(View(), cur)
      {
        HeadIs();
        FireStep(View(), cur, readings, i);
        ghost var rest := Ids(Fire(AfterOne(View(), readings[i]), cur, readings[i + 1..]).1);
        var id := FireFirst(readings[i]);
        assert fired + ([id] + rest) == fired + [id] + rest;
        fired := fired + [id];
        i := i + 1;
      }
      HeadIs();
      FireDone(View(), cur, readings[i..]);
    }
  }

  lemma FirstUnique(q: seq<Alarm>, k: nat)
    requires Unique(q) && k < |q| && q[k].id == q[0].id
    ensures k == 0
  {
  }

  lemma FireStart(readings: seq<nat>, f: seq<Alarm>)
    ensures readings[0..] == readings && [] + Ids(f) == Ids(f)
  {
  }

  lemma FireDone(q: seq<Alarm>, cur: nat, readings: seq<nat>)
    requires q == [] || cur < q[0].deadline
    ensures Fire(q, cur, readings).0 == q && forall ids: seq<nat> :: ids + Ids(Fire(q, cur, readings).1) == ids
  {
  }

  lemma AfterOneBy(q: seq<Alarm>, now: nat)
    requires q != []
    ensures AfterOne(q, now) == if Spent(q[0].left) != 0 then Insert(Remove(q, q[0].id), Rearmed(q[0], now)) else Remove(q, q[0].id)
  {
  }

  lemma FireStep(q: seq<Alarm>, cur: nat, readings: seq<nat>, i: nat)
    requires Good(q) && Clock(readings, cur) && q != [] && cur >= q[0].deadline && i + Due(q, cur) <= |readings|
    ensures i < |readings| && Good(AfterOne(q, readings[i])) && Due(AfterOne(q, readings[i]), cur) == Due(q, cur) - 1
    ensures Fire(q, cur, readings[i..]).0 == Fire(AfterOne(q, readings[i]), cur, readings[i + 1..]).0
    ensures Ids(Fire(q, cur, readings[i..]).1) == [q[0].id] + Ids(Fire(AfterOne(q, readings[i]), cur, readings[i + 1..]).1)
  {
    hide Good;
    AfterOneIs(q, cur, readings[i]);
    assert readings[i..][1..] == readings[i + 1..];
  }
}
