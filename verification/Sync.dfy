/** Semaphores and critical sections of vsfsm: a value and a queue of state machines that wait for it. */
module Syncs {
  /** A state machine in the queue, with the number of its arrival. */
  datatype Waiter = Waiter(sm: nat, turn: nat)

  datatype Sync = Sync(
    cur: nat, max: nat, waiting: seq<Waiter>,
    // history: arrivals so far, who was let in and when it had come, how many wake-ups failed to be posted
    turns: nat, granted: seq<Waiter>, cancelled: seq<Waiter>, lost: seq<Waiter>)

  datatype Result = None | NotReady | Bug

  function Init(cur: nat, max: nat): Sync {
    Sync(cur, max, [], 0, [], [], [])
  }

  /** vsfsm_sync_decrease. */
  function Decrease(s: Sync, sm: nat): (Sync, Result) {
    if s.cur > 0 then (s.(cur := s.cur - 1), None)
    else (s.(waiting := s.waiting + [Waiter(sm, s.turns)], turns := s.turns + 1), NotReady)
  }

  /** vsfsm_sync_increase; posted says that the wake-up found room in the event queue. */
  function Increase(s: Sync, posted: bool): (Sync, Result) {
    if s.waiting != [] then
      var w := s.waiting[0];
      if posted then (s.(waiting := s.waiting[1..], granted := s.granted + [w]), None)
      else (s.(waiting := s.waiting[1..], lost := s.lost + [w]), Bug)
    else if s.cur < s.max then (s.(cur := s.cur + 1), None)
    else (s, Bug)
  }

  /** The first occurrence goes. */
  function Without(q: seq<Waiter>, sm: nat): seq<Waiter> {
    if q == [] then [] else if q[0].sm == sm then q[1..] else [q[0]] + Without(q[1..], sm)
  }

  function Gone(q: seq<Waiter>, sm: nat): seq<Waiter> {
    if q == [] then [] else if q[0].sm == sm then [q[0]] else Gone(q[1..], sm)
  }

  /** vsfsm_sync_cancel. */
  function Cancel(s: Sync, sm: nat): Sync {
    s.(waiting := Without(s.waiting, sm), cancelled := s.cancelled + Gone(s.waiting, sm))
  }

  datatype Step = Enter(sm: nat) | Leave(posted: bool) | Abandon(sm: nat)

  function Do(s: Sync, t: Step): Sync {
    match t
    case Enter(sm) => Decrease(s, sm).0
    case Leave(posted) => Increase(s, posted).0
    case Abandon(sm) => Cancel(s, sm)
  }

  function After(s: Sync, run: seq<Step>): Sync
    decreases |run|
  {
    if run == [] then s else After(Do(s, run[0]), run[1..])
  }

  // ---------- what every run keeps ----------

  predicate Ascending(q: seq<Waiter>) {
    forall i, j :: 0 <= i < j < |q| ==> q[i].turn < q[j].turn
  }

  /** Nobody waits while there is something to take. */
  predicate Busy(s: Sync) {
    s.cur <= s.max && (s.waiting != [] ==> s.cur == 0)
  }

  /** Those let in came in this order, and before all that still wait. */
  predicate InTurn(s: Sync) {
    && Ascending(s.granted + s.waiting)
    && forall w :: w in s.waiting ==> w.turn < s.turns
  }

  /** How many of q came as number k. */
  function Came(q: seq<Waiter>, k: nat): nat {
    if q == [] then 0 else (if q[0].turn == k then 1 else 0) + Came(q[1..], k)
  }

  /** Arrival k waits, was let in, was cancelled or lost its wake-up: one of them, and once, if there was
      such an arrival. */
  predicate Once(s: Sync, k: nat) {
    Came(s.waiting, k) + Came(s.granted, k) + Came(s.cancelled, k) + Came(s.lost, k) == if k < s.turns then 1 else 0
  }

  /** Everyone who had to wait is accounted for. */
  ghost predicate Accounted(s: Sync) {
    forall k: nat :: Once(s, k)
  }

  ghost predicate Inv(s: Sync) {
    Busy(s) && InTurn(s) && Accounted(s)
  }

  lemma {:induction false} WithoutAt(q: seq<Waiter>, sm: nat) returns (k: nat)
    ensures k <= |q| && forall i :: 0 <= i < k ==> q[i].sm != sm
    ensures k == |q| ==> Without(q, sm) == q && Gone(q, sm) == []
    ensures k < |q| ==> q[k].sm == sm && Without(q, sm) == q[..k] + q[k + 1..] && Gone(q, sm) == [q[k]]
  {
    if q == [] || q[0].sm == sm {
      k := 0;
    } else {
      k := WithoutAt(q[1..], sm);
      k := k + 1;
      assert k < |q| ==> q[..k] == [q[0]] + q[1..][..k - 1] && q[k + 1..] == q[1..][k..];
    }
  }

  lemma CancelInTurn(g: seq<Waiter>, q: seq<Waiter>, sm: nat)
    requires Ascending(g + q)
    ensures Ascending(g + Without(q, sm)) && |Without(q, sm)| + |Gone(q, sm)| == |q|
    ensures forall w :: w in Without(q, sm) ==> w in q
  {
    var k := WithoutAt(q, sm);
    if k < |q| {
      var r := Without(q, sm);
      forall i, j | 0 <= i < j < |g + r| ensures (g + r)[i].turn < (g + r)[j].turn {
        assert (g + r)[i] == (g + q)[if i < |g| + k then i else i + 1];
        assert (g + r)[j] == (g + q)[if j < |g| + k then j else j + 1];
      }
    }
  }

  /** A cancellation takes out the first entry of the machine and nothing else; without one it changes nothing. */
  lemma CancelExactly(s: Sync, sm: nat) returns (k: nat)
    ensures k <= |s.waiting| && forall i :: 0 <= i < k ==> s.waiting[i].sm != sm
    ensures k == |s.waiting| ==> Cancel(s, sm) == s
    ensures k < |s.waiting| ==> s.waiting[k].sm == sm
    ensures k < |s.waiting| ==>
              Cancel(s, sm) == s.(waiting := s.waiting[..k] + s.waiting[k + 1..], cancelled := s.cancelled + [s.waiting[k]])
  {
    k := WithoutAt(s.waiting, sm);
    assert s.cancelled + [] == s.cancelled;
  }

  lemma LostInTurn(g: seq<Waiter>, q: seq<Waiter>)
    requires q != [] && Ascending(g + q)
    ensures Ascending(g + q[1..]) && Ascending(g + [q[0]] + q[1..])
  {
    assert g + [q[0]] + q[1..] == g + q;
    forall i, j | 0 <= i < j < |g + q[1..]| ensures (g + q[1..])[i].turn < (g + q[1..])[j].turn {
      assert (g + q[1..])[i] == (g + q)[if i < |g| then i else i + 1];
      assert (g + q[1..])[j] == (g + q)[if j < |g| then j else j + 1];
    }
  }

  lemma EnterInTurn(g: seq<Waiter>, q: seq<Waiter>, w: Waiter)
    requires Ascending(g + q) && forall x :: x in g + q ==> x.turn < w.turn
    ensures Ascending(g + (q + [w]))
  {
    assert g + (q + [w]) == (g + q) + [w];
  }

  lemma {:induction false} CameConcat(a: seq<Waiter>, b: seq<Waiter>, k: nat)
    ensures Came(a + b, k) == Came(a, k) + Came(b, k)
  {
    if a == [] {
      assert a + b == b;
    } else {
      CameConcat(a[1..], b, k);
      assert (a + b)[1..] == a[1..] + b;
    }
  }

  lemma CameOne(w: Waiter, k: nat)
    ensures Came([w], k) == if w.turn == k then 1 else 0
  {
    assert [w][1..] == [];
  }

  lemma CancelOnce(q: seq<Waiter>, sm: nat, k: nat)
    ensures Came(Without(q, sm), k) + Came(Gone(q, sm), k) == Came(q, k)
  {
    var i := WithoutAt(q, sm);
    if i < |q| {
      assert q == q[..i] + ([q[i]] + q[i + 1..]);
      CameConcat(q[..i], [q[i]] + q[i + 1..], k);
      CameConcat([q[i]], q[i + 1..], k);
      CameConcat(q[..i], q[i + 1..], k);
    }
  }

  lemma StepOnce(s: Sync, t: Step, k: nat)
    requires Once(s, k)
    ensures Once(Do(s, t), k)
  {
    match t
    case Enter(sm) =>
      CameConcat(s.waiting, [Waiter(sm, s.turns)], k);
      CameOne(Waiter(sm, s.turns), k);
    case Leave(posted) =>
      if s.waiting != [] {
        CameConcat(s.granted, [s.waiting[0]], k);
        CameConcat(s.lost, [s.waiting[0]], k);
        CameOne(s.waiting[0], k);
      }
    case Abandon(sm) =>
      CancelOnce(s.waiting, sm, k);
      CameConcat(s.cancelled, Gone(s.waiting, sm), k);
  }

  lemma StepAccounted(s: Sync, t: Step)
    requires Accounted(s)
    ensures Accounted(Do(s, t))
  {
    hide Once;
    forall k: nat ensures Once(Do(s, t), k) {
      StepOnce(s, t, k);
    }
  }

  /** Who was let in had come before. */
  predicate Past(s: Sync) {
    forall w :: w in s.granted ==> w.turn < s.turns
  }

  lemma StepKeeps(s: Sync, t: Step)
    requires Inv(s) && Past(s)
    ensures Inv(Do(s, t)) && Past(Do(s, t))
  {
    StepAccounted(s, t);
    hide Accounted;
    hide Ascending;
    match t
    case Enter(sm) =>
      if s.cur == 0 {
        EnterInTurn(s.granted, s.waiting, Waiter(sm, s.turns));
      }
    case Leave(posted) =>
      if s.waiting != [] {
        LostInTurn(s.granted, s.waiting);
      }
    case Abandon(sm) =>
      CancelInTurn(s.granted, s.waiting, sm);
  }

  lemma {:induction false} RunKeeps(s: Sync, run: seq<Step>)
    requires Inv(s) && Past(s)
    ensures Inv(After(s, run)) && Past(After(s, run))
    decreases |run|
  {
    if run != [] {
      StepKeeps(s, run[0]);
      RunKeeps(Do(s, run[0]), run[1..]);
    }
  }

  /** Over every run of a fresh object: the value stays within its bound, nobody waits while it is positive,
      the waiting are let in in the order in which they came, and nobody is forgotten. */
  lemma FairOverRuns(cur: nat, max: nat, run: seq<Step>)
    requires cur <= max
    ensures var s := After(Init(cur, max), run);
            && s.cur <= max && (s.waiting != [] ==> s.cur == 0)
            && Ascending(s.granted + s.waiting)
            && (forall k: nat :: Once(s, k))
  {
    RunKeeps(Init(cur, max), run);
    MaxStays(Init(cur, max), run);
  }

  lemma {:induction false} MaxStays(s: Sync, run: seq<Step>)
    ensures After(s, run).max == s.max
    decreases |run|
  {
    if run != [] {
      MaxStays(Do(s, run[0]), run[1..]);
    }
  }

  // ---------- what the value counts ----------

  /** The answer to the caller, None for a cancellation. */
  function Answer(s: Sync, t: Step): Result {
    match t
    case Enter(sm) => Decrease(s, sm).1
    case Leave(posted) => Increase(s, posted).1
    case Abandon(_) => None
  }

  /** Increases answered None while nobody waited. */
  function Raised(s: Sync, run: seq<Step>): nat
    decreases |run|
  {
    if run == [] then 0
    else (if run[0].Leave? && s.waiting == [] && Answer(s, run[0]) == None then 1 else 0) + Raised(Do(s, run[0]), run[1..])
  }

  /** Increases answered None while somebody waited. */
  function Handed(s: Sync, run: seq<Step>): nat
    decreases |run|
  {
    if run == [] then 0
    else (if run[0].Leave? && s.waiting != [] && Answer(s, run[0]) == None then 1 else 0) + Handed(Do(s, run[0]), run[1..])
  }

  /** Decreases answered None. */
  function Taken(s: Sync, run: seq<Step>): nat
    decreases |run|
  {
    if run == [] then 0
    else (if run[0].Enter? && Answer(s, run[0]) == None then 1 else 0) + Taken(Do(s, run[0]), run[1..])
  }

  /** From any state, over every run: the value gained one with each increase that found nobody waiting and
      lost one with each decrease, as far as they were answered None, and moved for nothing else; every
      increase answered None that found somebody waiting let in one. */
  lemma {:induction false} ValueIsConserved(s: Sync, run: seq<Step>)
    ensures s.cur + Raised(s, run) == After(s, run).cur + Taken(s, run)
    ensures |s.granted| + Handed(s, run) == |After(s, run).granted|
    decreases |run|
  {
    if run != [] {
      ValueIsConserved(Do(s, run[0]), run[1..]);
    }
  }

  /** After every run of a fresh object an increase that finds nobody waiting is refused exactly at max, one
      that does exactly if its wake-up is, and a decrease is told to wait exactly at zero. */
  lemma RefusedExactly(cur: nat, max: nat, run: seq<Step>, posted: bool, sm: nat)
    requires cur <= max
    ensures var s := After(Init(cur, max), run);
            && (s.waiting == [] ==> (Answer(s, Leave(posted)) == Bug <==> s.cur == max))
            && (s.waiting != [] ==> (Answer(s, Leave(posted)) == Bug <==> !posted))
            && (Answer(s, Enter(sm)) == NotReady <==> s.cur == 0)
            && (Answer(s, Leave(posted)) == Bug || Answer(s, Leave(posted)) == None)
            && (Answer(s, Enter(sm)) == NotReady || Answer(s, Enter(sm)) == None)
  {
    FairOverRuns(cur, max, run);
    MaxStays(Init(cur, max), run);
  }

  // ---------- critical sections ----------

  /** A critical section with those who are inside: who was not told to wait, and who was woken. */
  datatype Crit = Crit(sync: Sync, inside: multiset<nat>)

  datatype Act = CritEnter(sm: nat) | CritLeave(sm: nat, posted: bool) | CritCancel(sm: nat)

  function CritInit(): Crit {
    Crit(Init(1, 1), multiset{})
  }

  /** Only who is inside leaves. */
  predicate May(c: Crit, a: Act) {
    a.CritLeave? ==> a.sm in c.inside
  }

  function Perform(c: Crit, a: Act): Crit {
    match a
    case CritEnter(sm) =>
      var (s, r) := Decrease(c.sync, sm);
      Crit(s, if r.None? then c.inside + multiset{sm} else c.inside)
    case CritLeave(sm, posted) =>
      var (s, _) := Increase(c.sync, posted);
      Crit(s, c.inside - multiset{sm} + if c.sync.waiting != [] && posted then multiset{c.sync.waiting[0].sm} else multiset{})
    case CritCancel(sm) => Crit(Cancel(c.sync, sm), c.inside)
  }

  predicate CritRun(c: Crit, run: seq<Act>)
    decreases |run|
  {
    run == [] || (May(c, run[0]) && CritRun(Perform(c, run[0]), run[1..]))
  }

  function CritAfter(c: Crit, run: seq<Act>): Crit
    decreases |run|
  {
    if run == [] then c else CritAfter(Perform(c, run[0]), run[1..])
  }

  predicate Exclusive(c: Crit) {
    && c.sync.max == 1 && |c.inside| + c.sync.cur + |c.sync.lost| == 1
    && (c.sync.waiting != [] ==> c.sync.cur == 0)
  }

  lemma ActKeeps(c: Crit, a: Act)
    requires Exclusive(c) && May(c, a)
    ensures Exclusive(Perform(c, a))
  {
  }

  lemma {:induction false} CritRunKeeps(c: Crit, run: seq<Act>)
    requires Exclusive(c) && CritRun(c, run)
    ensures Exclusive(CritAfter(c, run))
    decreases |run|
  {
    if run != [] {
      ActKeeps(c, run[0]);
      CritRunKeeps(Perform(c, run[0]), run[1..]);
    }
  }

  /** Mutual exclusion over every run: with the wake-ups that could not be posted, holders and value make
      one; so there is never a second holder, and one lost wake-up locks the section for good. */
  lemma CriticalSection(run: seq<Act>)
    requires CritRun(CritInit(), run)
    ensures var c := CritAfter(CritInit(), run);
            && |c.inside| <= 1
            && (c.sync.lost == [] ==> |c.inside| + c.sync.cur == 1)
            && (c.sync.lost != [] ==> |c.inside| == 0 && c.sync.cur == 0)
  {
    CritRunKeeps(CritInit(), run);
  }

  /** Machine 2 waits for machine 1 to leave, its wake-up is refused, and machine 3 waits with nobody inside. */
  lemma LockedOut()
    ensures var run := [CritEnter(1), CritEnter(2), CritLeave(1, false), CritEnter(3)];
            && CritRun(CritInit(), run)
            && CritAfter(CritInit(), run).inside == multiset{}
            && CritAfter(CritInit(), run).sync.waiting == [Waiter(3, 1)]
  {
    var run := [CritEnter(1), CritEnter(2), CritLeave(1, false), CritEnter(3)];
    var c1 := Perform(CritInit(), run[0]);
    var c2 := Perform(c1, run[1]);
    var c3 := Perform(c2, run[2]);
    assert c1.sync.cur == 0 && c1.inside == multiset{1} && c2.sync.waiting == [Waiter(2, 0)];
    assert c3.sync.waiting == [] && c3.inside == multiset{};
    assert run[1..][1..][1..] == [run[3]] && [run[3]][1..] == [];
    assert run[1..] == [run[1], run[2], run[3]] && run[1..][1..] == [run[2], run[3]];
    assert CritAfter(c3, [run[3]]) == Perform(c3, run[3]);
    assert CritAfter(c2, [run[2], run[3]]) == CritAfter(c3, [run[3]]);
    assert CritAfter(c1, [run[1], run[2], run[3]]) == CritAfter(c2, [run[2], run[3]]);
  }
}
