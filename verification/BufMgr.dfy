/** The buffer manager: two singly linked lists of MCBs kept in order of size, relinked in place. */
module BufMgr {
  import opened Wrappers
  import opened Chains
  import opened Heap

  /** A memory control block. Its identity stands for its address, which never changes. */
  class Mcb {
    const addr: nat
    var buffer: nat
    var size: nat
    var next: Mcb?

    constructor (addr: nat, buffer: nat, size: nat)
      ensures this.addr == addr && this.buffer == buffer && this.size == size && next == null
    {
      this.addr, this.buffer, this.size, next := addr, buffer, size, null;
    }
  }

  // ---------- size-ordered lists; c[0] is the list head, which is no block ----------

  ghost predicate Linked(c: seq<Mcb>)
    reads Nodes(c)
  {
    && (forall i :: 0 <= i < |c| - 1 ==> c[i].next == c[i + 1])
    && (|c| > 0 ==> c[|c| - 1].next == null)
  }

  ghost predicate BySize(c: seq<Mcb>)
    reads Nodes(c)
  {
    forall i :: 1 <= i < |c| - 1 ==> c[i].size <= c[i + 1].size
  }

  ghost predicate SizeList(c: seq<Mcb>, head: Mcb)
    reads Nodes(c)
  {
    |c| > 0 && c[0] == head && Distinct(c) && Linked(c) && BySize(c)
  }

  lemma {:induction false} SizesAscend(c: seq<Mcb>, i: nat, j: nat)
    requires BySize(c) && 1 <= i <= j < |c|
    ensures c[i].size <= c[j].size
    decreases j
  {
    if i < j {
      SizesAscend(c, i, j - 1);
    }
  }

  /** The walk of remove_mcb: the block before mcb, if mcb is on the list. */
  method FindBefore(list: Mcb, mcb: Mcb, ghost c: seq<Mcb>) returns (prev: Mcb?, ghost k: nat)
    requires SizeList(c, list) && mcb != list
    ensures prev == null ==> mcb !in c
    ensures prev != null ==> 1 <= k < |c| && c[k] == mcb && c[k - 1] == prev
  {
    var active: Mcb? := list.next;
    prev, k := list, 1;
    while active != null
      invariant 1 <= k <= |c|
      invariant active == (if k < |c| then c[k] else null) && prev == c[k - 1]
      invariant mcb !in c[..k]
      decreases |c| - k
    {
      if active == mcb {
        return;
      }
      prev := active;
      active := active.next;
      k := k + 1;
    }
    prev := null;
  }

  lemma RemovedLinked(c: seq<Mcb>, k: nat)
    requires Distinct(c) && 1 <= k < |c|
    requires forall i :: 0 <= i < |c| - 1 && i != k - 1 && i != k ==> c[i].next == c[i + 1]
    requires c[k - 1].next == if k + 1 < |c| then c[k + 1] else null
    requires k + 1 < |c| ==> c[|c| - 1].next == null
    ensures Linked(Removed(c, k))
  {
    RemovedElements(c, k);
    var d := Removed(c, k);
    forall i | 0 <= i < |d| - 1 ensures d[i].next == d[i + 1] {
      if i < k - 1 {
        assert d[i] == c[i] && d[i + 1] == c[i + 1];
      } else if i >= k {
        assert d[i] == c[i + 1] && d[i + 1] == c[i + 2];
      }
    }
    assert k + 1 < |c| ==> d[|c| - 2] == c[|c| - 1];
  }

  lemma RemovedBySize(c: seq<Mcb>, k: nat)
    requires BySize(c) && Distinct(c) && 1 <= k < |c|
    ensures BySize(Removed(c, k))
  {
    RemovedElements(c, k);
  }

  method CutOut(prev: Mcb, mcb: Mcb, ghost c: seq<Mcb>, ghost k: nat)
    requires Distinct(c) && Linked(c) && 1 <= k < |c| && c[k] == mcb && c[k - 1] == prev
    modifies prev`next, mcb`next
    ensures Linked(Removed(c, k)) && mcb.next == null
  {
    prev.next := mcb.next;
    mcb.next := null;
    RemovedLinked(c, k);
  }

  method RemoveMcb(list: Mcb, mcb: Mcb, ghost c: seq<Mcb>) returns (ghost c': seq<Mcb>)
    requires SizeList(c, list) && mcb != list
    modifies Nodes(c)`next
    ensures SizeList(c', list)
    ensures Nodes(c') == Nodes(c) - {mcb}
    ensures mcb !in c ==> c' == c
    ensures mcb in c ==> mcb.next == null
  {
    c' := c;
    var prev, k := FindBefore(list, mcb, c);
    if prev != null {
      hide Linked;
      CutOut(prev, mcb, c, k);
      RemovedElements(c, k);
      RemovedBySize(c, k);
      c' := Removed(c, k);
      assert c'[0] == list;
      hide BySize;
      hide Distinct;
      hide Removed;
    }
  }

  lemma InsertedBySize(c: seq<Mcb>, k: nat, m: Mcb)
    requires BySize(c) && Distinct(c) && m !in c && 1 <= k <= |c|
    requires (1 < k ==> c[k - 1].size <= m.size) && (k < |c| ==> m.size <= c[k].size)
    ensures BySize(Inserted(c, k, m))
  {
    InsertedElements(c, k, m);
  }

  lemma InsertedLinked(c: seq<Mcb>, k: nat, m: Mcb)
    requires Distinct(c) && m !in c && 1 <= k <= |c|
    requires forall i :: 0 <= i < |c| - 1 && i != k - 1 ==> c[i].next == c[i + 1]
    requires k < |c| ==> c[|c| - 1].next == null
    requires c[k - 1].next == m && m.next == if k < |c| then c[k] else null
    ensures Linked(Inserted(c, k, m))
  {
    InsertedElements(c, k, m);
    var d := Inserted(c, k, m);
    forall i | 0 <= i < |d| - 1 ensures d[i].next == d[i + 1] {
      if i < k - 1 {
        assert d[i] == c[i] && d[i + 1] == c[i + 1];
      } else if i > k {
        assert d[i] == c[i - 1] && d[i + 1] == c[i];
      }
    }
    assert k < |c| ==> d[|c|] == c[|c| - 1];
  }

  /** The walk of insert_mcb: up to the first block that is not smaller. */
  method FindPlace(list: Mcb, size: nat, ghost c: seq<Mcb>) returns (prev: Mcb, active: Mcb?, ghost k: nat)
    requires SizeList(c, list)
    ensures 1 <= k <= |c| && prev == c[k - 1] && active == if k < |c| then c[k] else null
    ensures (1 < k ==> c[k - 1].size < size) && (k < |c| ==> size <= c[k].size)
  {
    active, prev, k := list.next, list, 1;
    while active != null && active.size < size
      invariant 1 <= k <= |c|
      invariant active == (if k < |c| then c[k] else null) && prev == c[k - 1]
      invariant 1 < k ==> prev.size < size
      decreases |c| - k
    {
      prev := active;
      active := active.next;
      k := k + 1;
    }
  }

  method LinkIn(prev: Mcb, mcb: Mcb, active: Mcb?, ghost c: seq<Mcb>, ghost k: nat)
    requires Distinct(c) && Linked(c) && mcb !in c
    requires 1 <= k <= |c| && prev == c[k - 1] && active == if k < |c| then c[k] else null
    modifies prev`next, mcb`next
    ensures Linked(Inserted(c, k, mcb))
  {
    prev.next := mcb;
    mcb.next := active;
    InsertedLinked(c, k, mcb);
  }

  method InsertMcb(list: Mcb, mcb: Mcb, ghost c: seq<Mcb>) returns (ghost c': seq<Mcb>)
    requires SizeList(c, list) && mcb !in c
    modifies Nodes(c)`next, mcb`next
    ensures SizeList(c', list)
    ensures Nodes(c') == Nodes(c) + {mcb}
  {
    var prev, active, k := FindPlace(list, mcb.size, c);
    hide Linked;
    LinkIn(prev, mcb, active, c, k);
    InsertedElements(c, k, mcb);
    InsertedBySize(c, k, mcb);
    c' := Inserted(c, k, mcb);
    assert c'[0] == list;
    hide BySize;
    hide Distinct;
    hide Inserted;
  }

  // ---------- which list a block is on ----------

  /** F and T, without their heads, share out the arena, but for the loose blocks. */
  ghost predicate Partition(arena: seq<Mcb>, F: seq<Mcb>, T: seq<Mcb>, loose: set<Mcb>) {
    && |F| > 0 && |T| > 0 && Distinct(arena)
    && Nodes(F) !! Nodes(T) && loose !! Nodes(F) + Nodes(T)
    && F[0] !in arena && T[0] !in arena
    && Nodes(arena) + {F[0], T[0]} == Nodes(F) + Nodes(T) + loose
  }

  /** Block m goes from loose to F, or from F to loose. */
  lemma PartitionMoves(arena: seq<Mcb>, F: seq<Mcb>, T: seq<Mcb>, loose: set<Mcb>, F': seq<Mcb>, m: Mcb)
    requires Partition(arena, F, T, loose) && F' != [] && F'[0] == F[0]
    ensures m in loose && Nodes(F') == Nodes(F) + {m} ==> Partition(arena, F', T, loose - {m})
    ensures m in F && m != F[0] && Nodes(F') == Nodes(F) - {m} ==> Partition(arena, F', T, loose + {m})
  {
  }

  lemma PartitionSwap(arena: seq<Mcb>, F: seq<Mcb>, T: seq<Mcb>, loose: set<Mcb>)
    requires Partition(arena, F, T, loose)
    ensures Partition(arena, T, F, loose)
  {
  }

  lemma PartitionGrows(arena: seq<Mcb>, F: seq<Mcb>, T: seq<Mcb>, loose: set<Mcb>, k: nat, t: Mcb)
    requires Partition(arena, F, T, loose) && k <= |arena| && t !in Nodes(F) + Nodes(T) + loose
    ensures Partition(Inserted(arena, k, t), F, T, loose + {t})
  {
    assert t !in Nodes(arena);
    InsertedElements(arena, k, t);
  }

  lemma PartitionShrinks(arena: seq<Mcb>, F: seq<Mcb>, T: seq<Mcb>, loose: set<Mcb>, k: nat)
    requires Partition(arena, F, T, loose) && k < |arena| && arena[k] in loose
    ensures Partition(Removed(arena, k), F, T, loose - {arena[k]})
  {
    RemovedElements(arena, k);
    assert arena[k] in Nodes(arena);
  }

  lemma SizeListHead(c: seq<Mcb>, head: Mcb)
    requires SizeList(c, head)
    ensures c != [] && c[0] == head && Distinct(c)
  {
  }

  // ---------- the manager ----------

  ghost function BlockOf(m: Mcb, taken: seq<Mcb>): Block
    reads m
  {
    Block(m.addr, m.buffer, m.size, m in taken)
  }

  ghost function BlocksOf(arena: seq<Mcb>, taken: seq<Mcb>): (bs: seq<Block>)
    reads Nodes(arena)
    ensures |bs| == |arena| && forall i :: 0 <= i < |arena| ==> bs[i] == BlockOf(arena[i], taken)
  {
    seq(|arena|, i requires 0 <= i < |arena| reads Nodes(arena) => BlockOf(arena[i], taken))
  }

  /** Block i replaced by x, and y put in after it. */
  ghost predicate Grown(before: seq<Block>, after: seq<Block>, i: nat, x: Block, y: Block) {
    && i < |before| && |after| == |before| + 1 && after[i] == x && after[i + 1] == y
    && (forall j :: 0 <= j < i ==> after[j] == before[j])
    && (forall j :: i + 1 < j < |after| ==> after[j] == before[j - 1])
  }

  lemma GrownByResizeThenAdd(before: seq<Block>, mid: seq<Block>, after: seq<Block>, i: nat, x: Block, y: Block)
    requires i < |before| && mid == before[i := x] && after == mid[..i + 1] + [y] + mid[i + 1..]
    ensures Grown(before, after, i, x, y)
  {
  }

  lemma GrownByAddThenResize(before: seq<Block>, mid: seq<Block>, after: seq<Block>, i: nat, x: Block, y: Block)
    requires i < |before| && mid == before[..i + 1] + [y] + before[i + 1..] && after == mid[i := x]
    ensures Grown(before, after, i, x, y)
  {
  }

  /** Block i keeps its head part, if any, and the rest, not on any list yet, is block j. */
  ghost predicate Detached(before: seq<Block>, after: seq<Block>, i: nat, j: nat, size: nat, align: nat) {
    && i < |before| && 0 < align && Fits(before[i], size, align)
    && j == CarvedIndex(before, i, align) && j < |after|
    && after[j] == UsedPart(before[i], size, align).(used := false)
    && (HeadPart(before[i], align) == [] ==> after == before)
    && (HeadPart(before[i], align) != [] ==> Grown(before, after, i, HeadPart(before[i], align)[0], after[j]))
  }

  lemma DetachWhole(before: seq<Block>, i: nat, size: nat, align: nat)
    requires i < |before| && 0 < align && Fits(before[i], size, align)
    requires Padding(before[i].buffer, align) < MCB_SIZE + DEFAULT_ALIGN
    ensures Detached(before, before, i, CarvedIndex(before, i, align), size, align) && CarvedIndex(before, i, align) == i
  {
  }

  lemma DetachSplit(before: seq<Block>, after: seq<Block>, i: nat, size: nat, align: nat)
    requires i < |before| && 0 < align && Fits(before[i], size, align)
    requires var b, offset := before[i], Padding(before[i].buffer, align);
             && MCB_SIZE + DEFAULT_ALIGN <= offset
             && Grown(before, after, i, b.(size := offset - MCB_SIZE),
                      Block(b.buffer + offset - MCB_SIZE, b.buffer + offset, b.size - offset, false))
    ensures Detached(before, after, i, CarvedIndex(before, i, align), size, align) && CarvedIndex(before, i, align) == i + 1
  {
  }

  /** Block j gives up what lies beyond keep bytes and a header. */
  ghost predicate Trimmed(before: seq<Block>, after: seq<Block>, j: nat, keep: nat) {
    && j < |before| && keep + MCB_SIZE <= before[j].size
    && Grown(before, after, j, before[j].(size := keep),
             Block(before[j].buffer + keep, before[j].buffer + keep + MCB_SIZE, before[j].size - keep - MCB_SIZE, false))
  }

  /** Head split, tail split and marking, each done or not as malloc decides, amount to Carve. */
  lemma CarveBySteps(before: seq<Block>, headed: seq<Block>, trimmed: seq<Block>, i: nat, j: nat, size: nat, align: nat, keep: nat)
    requires Detached(before, headed, i, j, size, align)
    requires headed[j].buffer + keep == before[i].buffer + Padding(before[i].buffer, align) + size
    requires if headed[j].size > keep + MCB_SIZE then Trimmed(headed, trimmed, j, keep) else trimmed == headed
    ensures j < |trimmed| && trimmed[j := trimmed[j].(used := true)] == Carve(before, i, size, align)
  {
    var c, after := Cut(before[i], size, align), trimmed[j := trimmed[j].(used := true)];
    forall k | 0 <= k < |Carve(before, i, size, align)|
      ensures k < |after| && after[k] == Carve(before, i, size, align)[k]
    {
      SpliceAt(before, i, i, c, k);
    }
  }

  lemma StretchBySteps(before: seq<Block>, sized: seq<Block>, after: seq<Block>, k: nat, size: nat)
    requires k + 1 < |before| && sized == before[k := before[k].(size := size)] && after == sized[..k + 1] + sized[k + 2..]
    ensures after == Stretched(before, k, 1, size)
  {
  }

  lemma StretchOver(before: seq<Block>, k: nat, size: nat)
    requires k + 2 < |before|
    ensures Stretched(before[..k + 1] + before[k + 2..], k, 1, size) == Stretched(before, k, 2, size)
  {
  }

  lemma InitialLists(f: Mcb, m: Mcb, t: Mcb)
    requires f != m && m != t && f != t && f.next == m && m.next == null && t.next == null
    ensures SizeList([f, m], f) && SizeList([t], t) && Partition([m], [f, m], [t], {})
  {
  }

  class Manager {
    var freed: Mcb
    var taken: Mcb
    // the two lists as sequences, and all blocks in address order
    ghost var freedList: seq<Mcb>
    ghost var takenList: seq<Mcb>
    ghost var arena: seq<Mcb>
    ghost const lo: nat
    ghost const hi: nat

    ghost function Repr(): set<Mcb>
      reads this
    {
      Nodes(freedList) + Nodes(takenList)
    }

    ghost predicate LinkedBut(loose: set<Mcb>)
      reads this, Repr()
    {
      SizeList(freedList, freed) && SizeList(takenList, taken) && Partition(arena, freedList, takenList, loose)
    }

    /** The arena as a client may picture it. */
    ghost function Blocks(): seq<Block>
      reads this, Nodes(arena)
    {
      BlocksOf(arena, takenList)
    }

    ghost predicate Valid()
      reads this, Repr()
    {
      LinkedBut({}) && WellFormed(Blocks(), lo, hi)
    }

    /** vsf_bufmgr_init: buf is the start of the arena, which must reach past the first header. */
    constructor (buf: nat, size: nat)
      requires PayloadStart(buf) <= buf + size
      ensures Valid() && fresh(Repr()) && lo == buf && hi == buf + size
      ensures Blocks() == InitialBlocks(buf, buf + size)
    {
      hide SizeList;
      hide Partition;
      hide WellFormed;
      var buffer := (buf + MCB_SIZE + 3) / 4 * 4;
      var mcb := new Mcb(buf, buffer, buf + size - buffer);
      var freedHead := new Mcb(0, 0, 0);
      var takenHead := new Mcb(0, 0, 0);
      freed, taken := freedHead, takenHead;
      lo, hi := buf, buf + size;
      freedList, takenList, arena := [freedHead, mcb], [takenHead], [mcb];
      new;
      freed.next := mcb;
      InitialLists(freed, mcb, taken);
      InitialWellFormed(buf, buf + size);
      assert Blocks() == InitialBlocks(buf, buf + size);
    }

    lemma Facts(loose: set<Mcb>)
      requires LinkedBut(loose)
      ensures Distinct(arena) && Nodes(freedList) !! Nodes(takenList) && loose !! Nodes(freedList) + Nodes(takenList)
      ensures forall m :: m in arena ==> m in Nodes(arena)
      ensures freed in freedList && freed !in arena && taken in takenList && taken !in arena
      ensures Nodes(arena) <= Nodes(freedList) + Nodes(takenList) + loose
    {
    }

    method Unlist(mcb: Mcb, ghost loose: set<Mcb>)
      requires LinkedBut(loose) && mcb in freedList && mcb != freed
      modifies this`freedList, Nodes(freedList)`next
      ensures LinkedBut(loose + {mcb}) && Nodes(freedList) == old(Nodes(freedList)) - {mcb}
      ensures Blocks() == old(Blocks())
    {
      hide Partition;
      hide SizeList;
      ghost var before := freedList;
      Facts(loose);
      SizeListHead(freedList, freed);
      freedList := RemoveMcb(freed, mcb, freedList);
      SizeListHead(freedList, freed);
      PartitionMoves(arena, before, takenList, loose, freedList, mcb);
    }

    method List(mcb: Mcb, ghost loose: set<Mcb>)
      requires LinkedBut(loose) && mcb in loose
      modifies this`freedList, Nodes(freedList)`next, mcb`next
      ensures LinkedBut(loose - {mcb}) && Nodes(freedList) == old(Nodes(freedList)) + {mcb}
      ensures Blocks() == old(Blocks())
    {
      hide Partition;
      hide SizeList;
      ghost var before := freedList;
      Facts(loose);
      SizeListHead(freedList, freed);
      assert mcb !in Nodes(freedList) + Nodes(takenList);
      freedList := InsertMcb(freed, mcb, freedList);
      SizeListHead(freedList, freed);
      PartitionMoves(arena, before, takenList, loose, freedList, mcb);
    }

    /** A block that is on no list may change its size. */
    method SetSize(mcb: Mcb, size: nat, ghost i: nat, ghost loose: set<Mcb>)
      requires LinkedBut(loose) && mcb in loose && i < |arena| && arena[i] == mcb
      modifies mcb`size
      ensures LinkedBut(loose) && mcb.size == size
      ensures var before := old(Blocks()); Blocks() == before[i := before[i].(size := size)]
    {
      hide Partition;
      hide SizeList;
      Facts(loose);
      mcb.size := size;
    }

    /** A header is written at addr; its block enters the arena at position k, on no list yet. */
    method NewHeader(addr: nat, size: nat, ghost k: nat, ghost loose: set<Mcb>) returns (t: Mcb)
      requires LinkedBut(loose) && k <= |arena|
      modifies this`arena
      ensures LinkedBut(loose + {t}) && fresh(t) && t.addr == addr && t.buffer == addr + MCB_SIZE && t.size == size
      ensures |arena| == |old(arena)| + 1 && arena[k] == t && (0 < k ==> arena[k - 1] == old(arena)[k - 1])
      ensures var before := old(Blocks());
              Blocks() == before[..k] + [Block(addr, addr + MCB_SIZE, size, false)] + before[k..]
    {
      hide Partition;
      hide SizeList;
      Facts(loose);
      t := new Mcb(addr, addr + MCB_SIZE, size);
      PartitionGrows(arena, freedList, takenList, loose, k, t);
      assert t !in Nodes(arena);
      InsertedElements(arena, k, t);
      arena := Inserted(arena, k, t);
    }

    /** A free block gets another size and its new place on the list. */
    method Resize(mcb: Mcb, size: nat, ghost i: nat)
      requires LinkedBut({}) && i < |arena| && arena[i] == mcb && mcb in freedList
      modifies this`freedList, Nodes(freedList)
      ensures LinkedBut({}) && Nodes(freedList) == old(Nodes(freedList)) && mcb.buffer == old(mcb.buffer)
      ensures var before := old(Blocks()); Blocks() == before[i := before[i].(size := size)]
    {
      hide SizeList;
      hide Partition;
      Facts({});
      assert {} + {mcb} == {mcb} && {mcb} - {mcb} == {};
      Unlist(mcb, {});
      SetSize(mcb, size, i, {mcb});
      List(mcb, {mcb});
    }

    /** Part of malloc: the free block at arena[i] keeps the padding but for room for a new
        header, under which the rest is returned, on no list. */
    method SplitHead(mcb: Mcb, offset: nat, ghost i: nat) returns (target: Mcb)
      requires LinkedBut({}) && i < |arena| && arena[i] == mcb && mcb in freedList && MCB_SIZE <= offset <= mcb.size
      modifies this`freedList, this`arena, Nodes(freedList)
      ensures LinkedBut({target}) && fresh(target) && Nodes(freedList) == old(Nodes(freedList))
      ensures i + 1 < |arena| && arena[i + 1] == target && target.buffer == old(mcb.buffer) + offset
      ensures Grown(old(Blocks()), Blocks(), i,
                old(Blocks())[i].(size := offset - MCB_SIZE),
                Block(old(mcb.buffer) + offset - MCB_SIZE, old(mcb.buffer) + offset, old(mcb.size) - offset, false))
    {
      hide SizeList;
      hide Partition;
      hide Grown;
      ghost var before := Blocks();
      var addr, rest := mcb.buffer + offset - MCB_SIZE, mcb.size - offset;
      Resize(mcb, offset - MCB_SIZE, i);
      ghost var mid := Blocks();
      target := NewHeader(addr, rest, i + 1, {});
      assert {} + {target} == {target};
      GrownByResizeThenAdd(before, mid, Blocks(), i,
                           before[i].(size := offset - MCB_SIZE), Block(addr, addr + MCB_SIZE, rest, false));
    }

    /** Part of malloc: what the loose block at arena[j] has beyond keep bytes and a header turns
        into a free block of its own. */
    method SplitTail(target: Mcb, keep: nat, ghost j: nat)
      requires LinkedBut({target}) && j < |arena| && arena[j] == target && keep + MCB_SIZE <= target.size
      modifies this`freedList, this`arena, Nodes(freedList)`next, target`size
      ensures LinkedBut({target}) && Nodes(freedList) >= old(Nodes(freedList)) && fresh(Nodes(freedList) - old(Nodes(freedList)))
      ensures j < |arena| && arena[j] == target
      ensures Trimmed(old(Blocks()), Blocks(), j, keep)
    {
      hide SizeList;
      hide Partition;
      ghost var before := Blocks();
      var tail := NewHeader(target.buffer + keep, target.size - keep - MCB_SIZE, j + 1, {target});
      assert {target} + {tail} - {tail} == {target};
      List(tail, {target} + {tail});
      ghost var mid := Blocks();
      SetSize(target, keep, j, {target});
      hide Grown;
      GrownByAddThenResize(before, mid, Blocks(), j, before[j].(size := keep),
                           Block(tail.addr, tail.buffer, tail.size, false));
    }

    /** Part of malloc: the loose block at arena[j] goes on the allocated list. */
    method Take(target: Mcb, ghost j: nat)
      requires LinkedBut({target}) && j < |arena| && arena[j] == target
      modifies this`takenList, Nodes(takenList)`next, target`next
      ensures LinkedBut({}) && Nodes(takenList) == old(Nodes(takenList)) + {target}
      ensures var before := old(Blocks()); Blocks() == before[j := before[j].(used := true)]
    {
      hide Partition;
      hide SizeList;
      ghost var before := takenList;
      Facts({target});
      PartitionSwap(arena, freedList, takenList, {target});
      SizeListHead(takenList, taken);
      assert target !in Nodes(freedList) + Nodes(takenList);
      assert {target} - {target} == {};
      takenList := InsertMcb(taken, target, takenList);
      SizeListHead(takenList, taken);
      PartitionMoves(arena, before, freedList, {target}, takenList, target);
      PartitionSwap(arena, takenList, freedList, {});
      assert forall m :: m in arena ==> (m in takenList <==> m in Nodes(takenList));
    }

    /** Part of free: the allocated block at arena[j] comes off its list. */
    method Untake(target: Mcb, ghost j: nat)
      requires LinkedBut({}) && j < |arena| && arena[j] == target && target in takenList
      modifies this`takenList, Nodes(takenList)`next
      ensures LinkedBut({target}) && Nodes(takenList) == old(Nodes(takenList)) - {target}
      ensures var before := old(Blocks()); Blocks() == before[j := before[j].(used := false)]
    {
      hide Partition;
      hide SizeList;
      ghost var before := takenList;
      Facts({});
      PartitionSwap(arena, freedList, takenList, {});
      SizeListHead(takenList, taken);
      assert {} + {target} == {target};
      takenList := RemoveMcb(taken, target, takenList);
      SizeListHead(takenList, taken);
      PartitionMoves(arena, before, freedList, {}, takenList, target);
      PartitionSwap(arena, takenList, freedList, {target});
      assert forall m :: m in arena ==> (m in takenList <==> m in Nodes(takenList));
    }

    /** Part of malloc: the free block at arena[i], without its head part if it is split, leaves the
        freed list; the payload that is handed out starts inner bytes into target's. */
    method Detach(mcb: Mcb, size: nat, align: nat, offset: nat, ghost i: nat) returns (target: Mcb, inner: nat)
      requires LinkedBut({}) && i < |arena| && arena[i] == mcb && mcb in freedList
      requires 0 < align && Fits(BlockOf(mcb, takenList), size, align) && offset == Padding(mcb.buffer, align)
      modifies this`freedList, this`arena, Nodes(freedList)
      ensures LinkedBut({target}) && fresh(Nodes(freedList) - old(Nodes(freedList))) && (target in old(freedList) || fresh(target))
      ensures var j := CarvedIndex(old(Blocks()), i, align);
              Detached(old(Blocks()), Blocks(), i, j, size, align) && j < |arena| && arena[j] == target
      ensures target.buffer + inner == old(mcb.buffer) + offset
    {
      hide SizeList;
      hide Partition;
      hide Grown;
      hide Detached;
      hide CarvedIndex;
      ghost var before := Blocks();
      Facts({});
      if offset >= MCB_SIZE + DEFAULT_ALIGN {
        target := SplitHead(mcb, offset, i);
        inner := 0;
        DetachSplit(before, Blocks(), i, size, align);
      } else {
        target, inner := mcb, offset;
        assert {} + {mcb} == {mcb};
        Unlist(mcb, {});
        DetachWhole(before, i, size, align);
      }
    }

    /** The successful branch of malloc: mcb, which is arena[i], serves the request. */
    method Grant(mcb: Mcb, size: nat, align: nat, offset: nat, ghost i: nat) returns (ptr: nat)
      requires LinkedBut({}) && i < |arena| && arena[i] == mcb && mcb in freedList
      requires 0 < align && Fits(BlockOf(mcb, takenList), size, align) && offset == Padding(mcb.buffer, align)
      modifies this`freedList, this`takenList, this`arena, Repr()
      ensures LinkedBut({}) && fresh(Repr() - old(Repr()))
      ensures Blocks() == Carve(old(Blocks()), i, size, align)
      ensures ptr == old(mcb.buffer) + offset
    {
      hide SizeList;
      hide Partition;
      hide Grown;
      hide Carve;
      hide Detached;
      hide Trimmed;
      hide CarvedIndex;
      ghost var before := Blocks();
      ghost var j := CarvedIndex(before, i, align);
      var target, inner := Detach(mcb, size, align, offset, i);
      ghost var headed := Blocks();
      ptr := target.buffer + inner;
      if target.size > size + inner + MCB_SIZE {
        SplitTail(target, inner + size, j);
      }
      ghost var trimmed := Blocks();
      Take(target, j);
      CarveBySteps(before, headed, trimmed, i, j, size, align, inner + size);
    }

    /** Walks the freed list to its first block that can serve the request. */
    method FirstFit(size: nat, align: nat) returns (mcb: Mcb?)
      requires LinkedBut({}) && 0 < align
      ensures mcb == null ==> forall m :: m in freedList && m != freed ==> !Fits(BlockOf(m, []), size, align)
      ensures mcb != null ==> mcb in freedList && mcb != freed && Fits(BlockOf(mcb, []), size, align)
      ensures mcb != null ==>
                forall m :: m in freedList && m != freed && Fits(BlockOf(m, []), size, align) ==> mcb.size <= m.size
    {
      mcb := freed.next;
      ghost var k := 1;
      while mcb != null
        invariant 1 <= k <= |freedList| && mcb == if k < |freedList| then freedList[k] else null
        invariant forall i :: 1 <= i < k ==> !Fits(BlockOf(freedList[i], []), size, align)
        decreases |freedList| - k
      {
        var offset := mcb.buffer % align;
        offset := if offset != 0 then align - offset else 0;
        if mcb.size >= size + offset {
          forall i | k <= i < |freedList|
            ensures mcb.size <= freedList[i].size
          {
            SizesAscend(freedList, k, i);
          }
          return;
        }
        mcb := mcb.next;
        k := k + 1;
      }
    }

    /** The walk's outcome in terms of the arena. */
    ghost method Locate(mcb: Mcb?, size: nat, align: nat) returns (i: nat)
      requires LinkedBut({}) && 0 < align
      requires mcb == null ==> forall m :: m in freedList && m != freed ==> !Fits(BlockOf(m, []), size, align)
      requires mcb != null ==> mcb in freedList && mcb != freed && Fits(BlockOf(mcb, []), size, align)
      requires mcb != null ==>
                 forall m :: m in freedList && m != freed && Fits(BlockOf(m, []), size, align) ==> mcb.size <= m.size
      ensures mcb == null ==> forall k :: 0 <= k < |arena| ==> !Fits(Blocks()[k], size, align)
      ensures mcb != null ==> i < |arena| && arena[i] == mcb && BestFit(Blocks(), i, size, align)
    {
      i := 0;
      var bs := Blocks();
      forall k | 0 <= k < |arena| && Fits(bs[k], size, align)
        ensures arena[k] in freedList && arena[k] != freed && Fits(BlockOf(arena[k], []), size, align)
      {
        assert arena[k] in Nodes(arena);
      }
      if mcb != null {
        assert mcb in Nodes(arena);
        i :| 0 <= i < |arena| && arena[i] == mcb;
      }
    }

    /** The search of malloc, and where in the arena the block it found lies. */
    method Choose(size: nat, align: nat) returns (mcb: Mcb?, ghost i: nat)
      requires LinkedBut({}) && 0 < align
      ensures mcb == null ==> forall k :: 0 <= k < |arena| ==> !Fits(Blocks()[k], size, align)
      ensures mcb != null ==> mcb in freedList && i < |arena| && arena[i] == mcb && BestFit(Blocks(), i, size, align)
    {
      mcb := FirstFit(size, align);
      i := Locate(mcb, size, align);
    }

    /** vsf_bufmgr_malloc_aligned on the lists as they are. */
    method Allocate(size: nat, align: nat) returns (r: Option<nat>)
      requires LinkedBut({})
      modifies this`freedList, this`takenList, this`arena, Repr()
      ensures LinkedBut({}) && fresh(Repr() - old(Repr()))
      ensures MallocStep(old(Blocks()), size, align, Blocks(), r)
    {
      ghost var before := Blocks();
      MallocRefuses(before, size, align);
      if size == 0 {
        return None;
      }
      var n := if size % 4 != 0 then size - size % 4 + 4 else size;
      var a := if align < DEFAULT_ALIGN then DEFAULT_ALIGN else align;
      var mcb;
      ghost var i;
      mcb, i := Choose(n, a);
      if mcb == null {
        return None;
      }
      var ptr := Grant(mcb, n, a, Padding(mcb.buffer, a), i);
      MallocServes(before, size, align, Blocks(), i, ptr);
      r := Some(ptr);
    }

    /** vsf_bufmgr_malloc_aligned. Null is None. */
    method Malloc(size: nat, align: nat) returns (r: Option<nat>)
      requires Valid()
      modifies this`freedList, this`takenList, this`arena, Repr()
      ensures Valid() && fresh(Repr() - old(Repr()))
      ensures MallocStep(old(Blocks()), size, align, Blocks(), r)
    {
      ghost var before := Blocks();
      r := Allocate(size, align);
      MallocStepKeeps(before, size, align, Blocks(), r, lo, hi);
    }

    // ---------- free ----------

    /** The header of loose block arena[k] is forgotten; its bytes now belong to a neighbour. */
    ghost method Abandon(k: nat, loose: set<Mcb>)
      requires LinkedBut(loose) && k < |arena| && arena[k] in loose
      modifies this`arena
      ensures LinkedBut(loose - {old(arena)[k]}) && |arena| == |old(arena)| - 1
      ensures forall j :: 0 <= j < |arena| ==> arena[j] == old(arena)[if j < k then j else j + 1]
      ensures var before := old(Blocks()); Blocks() == before[..k] + before[k + 1..]
    {
      hide Partition;
      hide SizeList;
      PartitionShrinks(arena, freedList, takenList, loose, k);
      Facts(loose);
      RemovedElements(arena, k);
      arena := Removed(arena, k);
    }

    /** Walks the freed list for the blocks that end where mcb starts and start where mcb ends. */
    method FindNeighbours(mcb: Mcb) returns (prev: Mcb?, next: Mcb?)
      requires LinkedBut({mcb})
      ensures next != null ==> next in freedList && next != freed && next.addr == mcb.buffer + mcb.size
      ensures next == null ==> forall m :: m in freedList && m != freed ==> m.addr != mcb.buffer + mcb.size
      ensures prev != null ==> prev in freedList && prev != freed && mcb.addr == prev.buffer + prev.size
      ensures prev == null ==> forall m :: m in freedList && m != freed ==> mcb.addr != m.buffer + m.size
    {
      prev, next := null, null;
      var active := freed.next;
      ghost var k := 1;
      while active != null
        invariant 1 <= k <= |freedList| && active == if k < |freedList| then freedList[k] else null
        invariant next != null ==> next in freedList && next != freed && next.addr == mcb.buffer + mcb.size
        invariant next == null ==> forall i :: 1 <= i < k ==> freedList[i].addr != mcb.buffer + mcb.size
        invariant prev != null ==> prev in freedList && prev != freed && mcb.addr == prev.buffer + prev.size
        invariant prev == null ==> forall i :: 1 <= i < k ==> mcb.addr != freedList[i].buffer + freedList[i].size
        decreases |freedList| - k
      {
        if mcb.buffer + mcb.size == active.addr {
          next := active;
        }
        if active.buffer + active.size == mcb.addr {
          prev := active;
        }
        active := active.next;
        k := k + 1;
      }
    }

    /** What the walk finds is what lies before and after in the arena, where that is free. */
    lemma NeighboursInArena(mcb: Mcb, i: nat, prev: Mcb?, next: Mcb?)
      requires LinkedBut({mcb}) && Tiling(Blocks(), lo, hi) && i < |arena| && arena[i] == mcb
      requires next != null ==> next in freedList && next != freed && next.addr == mcb.buffer + mcb.size
      requires next == null ==> forall m :: m in freedList && m != freed ==> m.addr != mcb.buffer + mcb.size
      requires prev != null ==> prev in freedList && prev != freed && mcb.addr == prev.buffer + prev.size
      requires prev == null ==> forall m :: m in freedList && m != freed ==> mcb.addr != m.buffer + m.size
      ensures next == if i + 1 < |arena| && arena[i + 1] !in takenList then arena[i + 1] else null
      ensures prev == if 0 < i && arena[i - 1] !in takenList then arena[i - 1] else null
    {
      var bs := Blocks();
      forall k | 0 <= k < |arena|
        ensures (arena[k].addr == mcb.buffer + mcb.size <==> k == i + 1) && (mcb.addr == arena[k].buffer + arena[k].size <==> i == k + 1)
      {
        TouchingAreNeighbours(bs, lo, hi, i, k);
      }
      forall k | 0 <= k < |arena| && k != i && arena[k] !in takenList
        ensures arena[k] in freedList && arena[k] != freed
      {
        assert arena[k] in Nodes(arena);
      }
      if next != null {
        assert next in Nodes(arena);
      }
      if prev != null {
        assert prev in Nodes(arena);
      }
    }

    /** Loose block a, which is arena[k], takes over the loose block b after it and goes on the freed list. */
    method AbsorbAndList(a: Mcb, b: Mcb, size: nat, ghost k: nat)
      requires k + 1 < |arena| && LinkedBut({a, b}) && arena[k] == a && arena[k + 1] == b
      modifies this`arena, this`freedList, Nodes(freedList)`next, a
      ensures LinkedBut({}) && Nodes(freedList) == old(Nodes(freedList)) + {a}
      ensures Blocks() == Stretched(old(Blocks()), k, 1, size)
    {
      hide SizeList;
      hide Partition;
      hide Stretched;
      Facts({a, b});
      assert {a, b} - {b} == {a} && {a} - {a} == {};
      ghost var before := Blocks();
      SetSize(a, size, k, {a, b});
      ghost var sized := Blocks();
      Abandon(k + 1, {a, b});
      StretchBySteps(before, sized, Blocks(), k, size);
      List(a, {a});
    }

    /** Free block b, which follows loose block a, is fused into it; size is what they make together. */
    method MergeNext(a: Mcb, b: Mcb, size: nat, ghost k: nat)
      requires LinkedBut({a}) && k + 1 < |arena| && arena[k] == a && arena[k + 1] == b && b in freedList
      modifies this`freedList, this`arena, Nodes(freedList)`next, a
      ensures LinkedBut({}) && Nodes(freedList) <= old(Nodes(freedList)) + {a}
      ensures Blocks() == Stretched(old(Blocks()), k, 1, size)
    {
      hide SizeList;
      hide Partition;
      hide Stretched;
      Facts({a});
      assert {a} + {b} == {a, b};
      Unlist(b, {a});
      AbsorbAndList(a, b, size, k);
    }

    /** Loose block b, which follows free block a, is fused into it; size is what they make together. */
    method MergePrev(a: Mcb, b: Mcb, size: nat, ghost k: nat)
      requires LinkedBut({b}) && k + 1 < |arena| && arena[k] == a && arena[k + 1] == b && a in freedList
      modifies this`freedList, this`arena, Nodes(freedList)
      ensures LinkedBut({}) && Nodes(freedList) <= old(Nodes(freedList))
      ensures Blocks() == Stretched(old(Blocks()), k, 1, size)
    {
      hide SizeList;
      hide Partition;
      hide Stretched;
      Facts({b});
      assert {b} + {a} == {a, b};
      Unlist(a, {b});
      AbsorbAndList(a, b, size, k);
    }

    /** Loose block b is fused into the free block a before it, and so is the free block c after it. */
    method MergeBoth(a: Mcb, b: Mcb, c: Mcb, size: nat, ghost k: nat)
      requires LinkedBut({b}) && k + 2 < |arena| && arena[k] == a && arena[k + 1] == b && arena[k + 2] == c
      requires a in freedList && c in freedList
      modifies this`freedList, this`arena, Nodes(freedList)
      ensures LinkedBut({}) && Nodes(freedList) <= old(Nodes(freedList))
      ensures Blocks() == Stretched(old(Blocks()), k, 2, size)
    {
      hide SizeList;
      hide Partition;
      hide Stretched;
      Facts({b});
      StretchOver(Blocks(), k, size);
      assert {b} + {a} == {a, b} && {a, b} - {b} == {a};
      Unlist(a, {b});
      Abandon(k + 1, {a, b});
      assert c in Nodes(freedList);
      MergeNext(a, c, size, k);
    }

    /** What Release asks for, by the neighbours found. */
    lemma MergePlan(mcb: Mcb, i: nat, prev: Mcb?, next: Mcb?)
      requires Tiling(Blocks(), lo, hi) && i < |arena| && arena[i] == mcb && mcb !in takenList
      requires next == if i + 1 < |arena| && arena[i + 1] !in takenList then arena[i + 1] else null
      requires prev == if 0 < i && arena[i - 1] !in takenList then arena[i - 1] else null
      ensures Release(Blocks(), i) ==
              var bs := Blocks();
              if prev != null && next != null then Stretched(bs, i - 1, 2, prev.size + (MCB_SIZE * 2 + mcb.size + next.size))
              else if prev != null then Stretched(bs, i - 1, 1, prev.size + (MCB_SIZE + mcb.size))
              else if next != null then Stretched(bs, i, 1, mcb.size + (MCB_SIZE + next.size))
              else bs
    {
      hide Tiling;
      hide Release;
      hide Stretched;
      StretchIsRelease(Blocks(), lo, hi, i, prev != null, next != null,
                       if prev != null then prev.size else 0, mcb.size, if next != null then next.size else 0);
    }

    /** vsf_bufmgr_merge_mcb: the loose block at arena[i] joins the freed list, fused with its free neighbours. */
    method MergeMcb(mcb: Mcb, ghost i: nat)
      requires LinkedBut({mcb}) && Tiling(Blocks(), lo, hi) && i < |arena| && arena[i] == mcb
      modifies this`freedList, this`arena, Nodes(freedList), mcb
      ensures LinkedBut({}) && Nodes(freedList) <= old(Nodes(freedList)) + {mcb}
      ensures Blocks() == Release(old(Blocks()), i)
    {
      hide SizeList;
      hide Partition;
      hide Stretched;
      hide Release;
      hide Tiling;
      assert {mcb} - {mcb} == {};
      Facts({mcb});
      var prev, next := FindNeighbours(mcb);
      NeighboursInArena(mcb, i, prev, next);
      MergePlan(mcb, i, prev, next);
      if next == null && prev == null {
        List(mcb, {mcb});
      } else if next != null && prev == null {
        MergeNext(mcb, next, mcb.size + (MCB_SIZE + next.size), i);
      } else if next == null && prev != null {
        MergePrev(prev, mcb, prev.size + (MCB_SIZE + mcb.size), i - 1);
      } else {
        MergeBoth(prev, mcb, next, prev.size + (MCB_SIZE * 2 + mcb.size + next.size), i - 1);
      }
    }

    /** Walks the allocated list to the block whose payload holds ptr. */
    method FindOwner(ptr: nat) returns (mcb: Mcb?, ghost i: nat)
      requires LinkedBut({})
      ensures Blocks() == old(Blocks())
      ensures mcb == null ==> forall j :: 0 <= j < |arena| ==> !Owns(Blocks()[j], ptr)
      ensures mcb != null ==>
                mcb in takenList && i < |arena| && arena[i] == mcb && Owns(Blocks()[i], ptr)
    {
      mcb := taken.next;
      i := 0;
      ghost var k := 1;
      while mcb != null
        invariant 1 <= k <= |takenList| && mcb == if k < |takenList| then takenList[k] else null
        invariant forall j :: 1 <= j < k ==> !(takenList[j].buffer <= ptr < takenList[j].buffer + takenList[j].size)
        decreases |takenList| - k
      {
        if mcb.buffer <= ptr && mcb.buffer + mcb.size > ptr {
          Facts({});
          assert mcb in Nodes(takenList);
          i :| 0 <= i < |arena| && arena[i] == mcb;
          return;
        }
        mcb := mcb.next;
        k := k + 1;
      }
    }

    /** vsf_bufmgr_free. */
    method Free(ptr: nat)
      requires Valid()
      modifies this`freedList, this`takenList, this`arena, Repr()
      ensures Valid() && Repr() <= old(Repr())
      ensures FreeStep(old(Blocks()), ptr, Blocks())
    {
      hide SizeList;
      hide Partition;
      hide Tiling;
      hide Release;
      hide FreeStep;
      ghost var before := Blocks();
      var mcb;
      ghost var i;
      mcb, i := FindOwner(ptr);
      if mcb != null {
        ReleaseOfUnmarked(before, lo, hi, i);
        Untake(mcb, i);
        MergeMcb(mcb, i);
        FreeOwner(before, ptr, i, Blocks());
      } else {
        FreeNothing(before, ptr);
      }
      FreeStepKeeps(before, ptr, Blocks(), lo, hi);
    }
  }
}
