/** vsfsm_sync in memory: the state machines that wait are linked through their own pending_next. */
module SyncObject {
  import opened Chains
  import Syncs

  class Sm {
    const id: nat
    var pendingNext: Sm?

    constructor (id: nat)
      ensures this.id == id && pendingNext == null
    {
      this.id, pendingNext := id, null;
    }
  }

  ghost predicate Linked(c: seq<Sm>, head: Sm?)
    reads Nodes(c)
  {
    && head == (if c == [] then null else c[0])
    && (forall i :: 0 <= i < |c| - 1 ==> c[i].pendingNext == c[i + 1])
    && (|c| > 0 ==> c[|c| - 1].pendingNext == null)
  }

  lemma NextOf(c: seq<Sm>, k: nat)
    requires c != [] && Linked(c, c[0]) && k < |c|
    ensures c[k].pendingNext == if k + 1 < |c| then c[k + 1] else null
  {
  }

  lemma LinkedAfterAppend(c: seq<Sm>, head: Sm?, sm: Sm)
    requires Distinct(c) && sm !in c && head == (if c == [] then sm else c[0]) && sm.pendingNext == null
    requires forall i :: 0 <= i < |c| - 1 ==> c[i].pendingNext == c[i + 1]
    requires c != [] ==> c[|c| - 1].pendingNext == sm
    ensures Linked(c + [sm], head) && Distinct(c + [sm])
  {
  }

  lemma LinkedAfterFirst(c: seq<Sm>)
    requires Distinct(c) && c != [] && Linked(c, c[0])
    ensures Linked(c[1..], c[0].pendingNext) && Distinct(c[1..])
  {
  }

  lemma LinkedAfterRemove(c: seq<Sm>, head: Sm?, k: nat)
    requires Distinct(c) && 0 < k < |c| && head == c[0]
    requires forall i :: 0 <= i < |c| - 1 && i != k - 1 ==> c[i].pendingNext == c[i + 1]
    requires c[k - 1].pendingNext == (if k + 1 < |c| then c[k + 1] else null)
    requires k + 1 < |c| ==> c[|c| - 1].pendingNext == null
    ensures Linked(Removed(c, k), head) && Distinct(Removed(c, k))
  {
    RemovedElements(c, k);
    var d := Removed(c, k);
    forall i | 0 <= i < |d| - 1 ensures d[i].pendingNext == d[i + 1] {
      if i < k - 1 {
        assert d[i] == c[i] && d[i + 1] == c[i + 1];
      } else if i >= k {
        assert d[i] == c[i + 1] && d[i + 1] == c[i + 2];
      }
    }
    assert k + 1 < |c| ==> d[|c| - 2] == c[|c| - 1];
  }

  class SyncBlock {
    var cur: nat
    var max: nat
    var smPending: Sm?
    ghost var chain: seq<Sm>
    ghost var state: Syncs.Sync

    /** The list and the numbers are those of state. */
    ghost predicate Valid()
      reads this, Nodes(chain)
    {
      && Distinct(chain) && Linked(chain, smPending) && Matches(chain, state.waiting)
      && cur == state.cur && max == state.max
    }

    constructor (cur: nat, max: nat)
      ensures Valid() && state == Syncs.Init(cur, max) && chain == []
    {
      this.cur, this.max, smPending := cur, max, null;
      chain, state := [], Syncs.Init(cur, max);
    }

    /** The walk to the last state machine. */
    method Last() returns (at: Sm)
      requires Distinct(chain) && Linked(chain, smPending) && smPending != null
      ensures chain != [] && at == chain[|chain| - 1]
    {
      at := smPending;
      ghost var k := 0;
      while at.pendingNext != null
        invariant 0 <= k < |chain| && at == chain[k]
        decreases |chain| - k
      {
        NextOf(chain, k);
        at := at.pendingNext;
        k := k + 1;
      }
      NextOf(chain, k);
    }

    method AppendSm(sm: Sm)
      requires Distinct(chain) && Linked(chain, smPending) && sm !in chain
      modifies this`smPending, this`chain, Nodes(chain), sm
      ensures Distinct(chain) && Linked(chain, smPending) && chain == old(chain) + [sm]
    {
      ghost var c := chain;
      sm.pendingNext := null;
      if smPending == null {
        smPending := sm;
      } else {
        var at := Last();
        at.pendingNext := sm;
      }
      chain := c + [sm];
      LinkedAfterAppend(c, smPending, sm);
    }

    /** vsfsm_sync_decrease, by a state machine that does not wait already. */
    method Decrease(sm: Sm) returns (r: Syncs.Result)
      requires Valid() && sm !in chain
      modifies this, Nodes(chain), sm
      ensures Valid() && (state, r) == Syncs.Decrease(old(state), sm.id)
    {
      if cur > 0 {
        cur := cur - 1;
        r := Syncs.None;
      } else {
        AppendSm(sm);
        r := Syncs.NotReady;
      }
      state := Syncs.Decrease(state, sm.id).0;
    }

    method TakeFirst() returns (sm: Sm)
      requires Distinct(chain) && Linked(chain, smPending) && smPending != null
      modifies this`smPending, this`chain
      ensures Distinct(chain) && Linked(chain, smPending) && old(chain) == [sm] + chain
    {
      ghost var c := chain;
      sm := smPending;
      smPending := sm.pendingNext;
      chain := c[1..];
      LinkedAfterFirst(c);
    }

    /** vsfsm_sync_increase: woken is the state machine that the event goes to. */
    method Increase(posted: bool) returns (r: Syncs.Result, woken: Sm?)
      requires Valid()
      modifies this
      ensures Valid() && (state, r) == Syncs.Increase(old(state), posted)
      ensures if old(chain) == [] then woken == null else woken == old(chain[0])
    {
      woken := null;
      if smPending != null {
        woken := TakeFirst();
        r := if posted then Syncs.None else Syncs.Bug;
      } else if cur < max {
        cur := cur + 1;
        r := Syncs.None;
      } else {
        r := Syncs.Bug;
      }
      state := Syncs.Increase(state, posted).0;
    }

    /** The state machine before sm, or the last one. */
    method Before(sm: Sm) returns (at: Sm, ghost k: nat)
      requires Distinct(chain) && Linked(chain, smPending) && smPending != null && smPending != sm
      ensures k < |chain| && at == chain[k] && at.pendingNext == (if k + 1 < |chain| then chain[k + 1] else null)
      ensures sm in chain ==> at.pendingNext == sm
      ensures at.pendingNext == sm ==> sm.pendingNext == if k + 2 < |chain| then chain[k + 2] else null
    {
      at, k := smPending, 0;
      while at.pendingNext != null && at.pendingNext != sm
        invariant 0 <= k < |chain| && at == chain[k] && sm !in chain[..k + 1]
        decreases |chain| - k
      {
        NextOf(chain, k);
        at := at.pendingNext;
        k := k + 1;
      }
      NextOf(chain, k);
      if at.pendingNext == sm {
        NextOf(chain, k + 1);
      }
    }

    method CutAfter(at: Sm, sm: Sm, ghost k: nat)
      requires Distinct(chain) && Linked(chain, smPending) && k + 1 < |chain| && at == chain[k] && sm == chain[k + 1]
      requires sm.pendingNext == if k + 2 < |chain| then chain[k + 2] else null
      modifies this`chain, at
      ensures Distinct(chain) && Linked(chain, smPending) && chain == Removed(old(chain), k + 1)
    {
      ghost var c := chain;
      at.pendingNext := sm.pendingNext;
      chain := Removed(c, k + 1);
      LinkedAfterRemove(c, smPending, k + 1);
    }

    method UnlinkSm(sm: Sm) returns (ghost k: nat)
      requires Distinct(chain) && Linked(chain, smPending)
      modifies this`smPending, this`chain, Nodes(chain)
      ensures Distinct(chain) && Linked(chain, smPending)
      ensures sm !in old(chain) ==> chain == old(chain)
      ensures sm in old(chain) ==> k < |old(chain)| && old(chain)[k] == sm && chain == Removed(old(chain), k)
    {
      hide Linked;
      hide Distinct;
      k := 0;
      HeadIs();
      if smPending == sm {
        var first := TakeFirst();
        assert chain == Removed([first] + chain, 0);
      } else if smPending != null {
        var at: Sm;
        at, k := Before(sm);
        if at.pendingNext == sm {
          CutAfter(at, sm, k);
          k := k + 1;
        }
      }
    }

    lemma HeadIs()
      requires Linked(chain, smPending)
      ensures smPending == if chain == [] then null else chain[0]
    {
    }

    /** vsfsm_sync_cancel; nothing happens to a state machine that does not wait. */
    method Cancel(sm: Sm)
      requires Valid() && forall n :: n in chain && n.id == sm.id ==> n == sm
      modifies this, Nodes(chain)
      ensures Valid() && state == Syncs.Cancel(old(state), sm.id)
    {
      hide Removed;
      ghost var c, q := chain, state.waiting;
      state := Syncs.Cancel(state, sm.id);
      hide Linked;
      var k := UnlinkSm(sm);
      if sm in c {
        CancelMatches(c, q, k);
      } else {
        CancelNone(c, q, sm.id);
      }
    }
  }

  ghost predicate Matches(c: seq<Sm>, q: seq<Syncs.Waiter>) {
    |c| == |q| && forall i :: 0 <= i < |c| ==> c[i].id == q[i].sm
  }

  lemma CancelMatches(c: seq<Sm>, q: seq<Syncs.Waiter>, k: nat)
    requires Distinct(c) && Matches(c, q) && k < |c| && forall n :: n in c && n.id == c[k].id ==> n == c[k]
    ensures Matches(Removed(c, k), Syncs.Without(q, c[k].id))
  {
    var j := Syncs.WithoutAt(q, c[k].id);
    assert q[k].sm == c[k].id;
    assert j <= k;
    assert c[j] == c[k];
    RemovedElements(c, k);
  }

  lemma CancelNone(c: seq<Sm>, q: seq<Syncs.Waiter>, id: nat)
    requires Matches(c, q) && forall n :: n in c ==> n.id != id
    ensures Syncs.Without(q, id) == q
  {
    var j := Syncs.WithoutAt(q, id);
    assert forall i :: 0 <= i < |q| ==> c[i].id == q[i].sm;
  }
}
