/** The arena of the buffer manager as one address-ordered sequence of blocks.
    A block is a header (the MCB) followed by its payload; nothing lies between two blocks. */
module Heap {
  import opened Wrappers

  /** sizeof(struct vsf_bufmgr_mcb_t) on the 32-bit targets: pointer, size, link. */
  const MCB_SIZE: nat := 12
  const DEFAULT_ALIGN: nat := 4

  datatype Block = Block(addr: nat, buffer: nat, size: nat, used: bool) {
    function End(): nat { buffer + size }
  }

  /** The blocks cover [lo, hi) exactly: each starts where the one before it ends. Only the
      header of the first block may be longer than MCB_SIZE (init aligns its payload). */
  ghost predicate Tiling(bs: seq<Block>, lo: nat, hi: nat) {
    && |bs| > 0 && bs[0].addr == lo && bs[|bs| - 1].End() == hi
    && bs[0].addr + MCB_SIZE <= bs[0].buffer
    && (forall i :: 0 < i < |bs| ==> bs[i].addr == bs[i - 1].End() && bs[i].buffer == bs[i].addr + MCB_SIZE)
  }

  /** No two neighbouring blocks are both free. */
  ghost predicate Coalesced(bs: seq<Block>) {
    forall i :: 0 < i < |bs| ==> bs[i - 1].used || bs[i].used
  }

  ghost predicate UsedNonEmpty(bs: seq<Block>) {
    forall i :: 0 <= i < |bs| && bs[i].used ==> 0 < bs[i].size
  }

  ghost predicate WellFormed(bs: seq<Block>, lo: nat, hi: nat) {
    Tiling(bs, lo, hi) && Coalesced(bs) && UsedNonEmpty(bs)
  }

  /** Where the payload of the first block starts: past its header, word aligned. */
  function PayloadStart(lo: nat): (start: nat)
    ensures lo + MCB_SIZE <= start < lo + MCB_SIZE + 4 && start % 4 == 0
  {
    (lo + MCB_SIZE + 3) / 4 * 4
  }

  /** The arena as vsf_bufmgr_init leaves it. */
  function InitialBlocks(lo: nat, hi: nat): seq<Block>
    requires PayloadStart(lo) <= hi
  {
    [Block(lo, PayloadStart(lo), hi - PayloadStart(lo), false)]
  }

  // ---------- malloc ----------

  /** Blocks first..last replaced by c. Malloc and free are both of this form. */
  function Splice(bs: seq<Block>, first: nat, last: nat, c: seq<Block>): seq<Block>
    requires first <= last < |bs|
  {
    bs[..first] + c + bs[last + 1..]
  }

  function RoundUp4(size: nat): (n: nat)
    ensures size <= n < size + 4 && n % 4 == 0
  {
    if size % 4 != 0 then size - size % 4 + 4 else size
  }

  function EffectiveAlign(align: nat): nat {
    if align < DEFAULT_ALIGN then DEFAULT_ALIGN else align
  }

  /** Bytes to skip from buffer to reach the next multiple of align. */
  function Padding(buffer: nat, align: nat): nat
    requires 0 < align
  {
    if buffer % align != 0 then align - buffer % align else 0
  }

  predicate Fits(b: Block, size: nat, align: nat)
    requires 0 < align
  {
    !b.used && size + Padding(b.buffer, align) <= b.size
  }

  /** Index i holds a free block that can serve the request, and none that can is smaller. */
  ghost predicate BestFit(bs: seq<Block>, i: nat, size: nat, align: nat)
    requires 0 < align
  {
    && i < |bs| && Fits(bs[i], size, align)
    && forall k :: 0 <= k < |bs| && Fits(bs[k], size, align) ==> bs[i].size <= bs[k].size
  }

  /** The free remainder in front of the payload, when padding leaves room for a header and a word. */
  function HeadPart(b: Block, align: nat): seq<Block>
    requires 0 < align
  {
    var offset := Padding(b.buffer, align);
    if offset >= MCB_SIZE + DEFAULT_ALIGN then [Block(b.addr, b.buffer, offset - MCB_SIZE, false)] else []
  }

  /** What is left of block b, marked used, once HeadPart is gone. */
  function UsedPart(b: Block, size: nat, align: nat): Block
    requires 0 < align && Fits(b, size, align)
  {
    var offset := Padding(b.buffer, align);
    if HeadPart(b, align) != [] then
      Block(b.buffer + offset - MCB_SIZE, b.buffer + offset, b.size - offset, true)
    else
      b.(used := true)
  }

  /** Block b cut into free head, used block and free tail. */
  function Cut(b: Block, size: nat, align: nat): seq<Block>
    requires 0 < align && Fits(b, size, align)
  {
    var ptr := b.buffer + Padding(b.buffer, align);
    var m := UsedPart(b, size, align);
    HeadPart(b, align) +
    if m.End() > ptr + size + MCB_SIZE then
      [m.(size := ptr + size - m.buffer), Block(ptr + size, ptr + size + MCB_SIZE, m.End() - (ptr + size + MCB_SIZE), false)]
    else
      [m]
  }

  function Carve(bs: seq<Block>, i: nat, size: nat, align: nat): seq<Block>
    requires i < |bs| && 0 < align && Fits(bs[i], size, align)
  {
    Splice(bs, i, i, Cut(bs[i], size, align))
  }

  /** Where the used block of Carve ends up. */
  function CarvedIndex(bs: seq<Block>, i: nat, align: nat): nat
    requires i < |bs| && 0 < align
  {
    i + |HeadPart(bs[i], align)|
  }

  ghost predicate MallocStep(bs: seq<Block>, size: nat, align: nat, bs': seq<Block>, r: Option<nat>) {
    var n, a := RoundUp4(size), EffectiveAlign(align);
    if size == 0 || (forall i :: 0 <= i < |bs| ==> !Fits(bs[i], n, a)) then
      r == None && bs' == bs
    else
      exists i: nat :: BestFit(bs, i, n, a) && bs' == Carve(bs, i, n, a) && r == Some(bs[i].buffer + Padding(bs[i].buffer, a))
  }

  // ---------- free ----------

  predicate Owns(b: Block, ptr: nat) {
    b.used && b.buffer <= ptr < b.End()
  }

  /** The blocks that free fuses with block i: its free neighbours. */
  function First(bs: seq<Block>, i: nat): nat
    requires i < |bs|
  {
    if 0 < i && !bs[i - 1].used then i - 1 else i
  }

  function Last(bs: seq<Block>, i: nat): nat
    requires i < |bs|
  {
    if i + 1 < |bs| && !bs[i + 1].used then i + 1 else i
  }

  /** One free block from the start of a to the end of b. */
  function Fused(a: Block, b: Block): Block {
    Block(a.addr, a.buffer, if a.buffer <= b.End() then b.End() - a.buffer else 0, false)
  }

  /** Used block i turned free and fused with whichever neighbours are free. */
  function Release(bs: seq<Block>, i: nat): seq<Block>
    requires i < |bs|
  {
    Splice(bs, First(bs, i), Last(bs, i), [Fused(bs[First(bs, i)], bs[Last(bs, i)])])
  }

  ghost predicate FreeStep(bs: seq<Block>, ptr: nat, bs': seq<Block>) {
    if forall i :: 0 <= i < |bs| ==> !Owns(bs[i], ptr) then
      bs' == bs
    else
      exists i :: 0 <= i < |bs| && Owns(bs[i], ptr) && bs' == Release(bs, i)
  }

  // ---------- geometry ----------

  lemma {:induction false} BlocksAscend(bs: seq<Block>, lo: nat, hi: nat, i: nat, j: nat)
    requires Tiling(bs, lo, hi) && i < j < |bs|
    ensures bs[i].End() <= bs[j].addr < bs[j].buffer
    decreases j - i
  {
    if i + 1 < j {
      BlocksAscend(bs, lo, hi, i, j - 1);
    }
  }

  /** Every byte of the arena lies in exactly one block. */
  lemma {:induction false} ByteInOneBlock(bs: seq<Block>, lo: nat, hi: nat, x: nat)
    requires Tiling(bs, lo, hi) && lo <= x < hi
    ensures exists i :: 0 <= i < |bs| && bs[i].addr <= x < bs[i].End()
    ensures forall i, j | 0 <= i < |bs| && 0 <= j < |bs| ::
              bs[i].addr <= x < bs[i].End() && bs[j].addr <= x < bs[j].End() ==> i == j
  {
    ByteInSomeBlock(bs, lo, hi, x, |bs|);
    forall i, j | 0 <= i < |bs| && 0 <= j < |bs|
      && bs[i].addr <= x < bs[i].End() && bs[j].addr <= x < bs[j].End()
      ensures i == j
    {
      if i < j { BlocksAscend(bs, lo, hi, i, j); }
      if j < i { BlocksAscend(bs, lo, hi, j, i); }
    }
  }

  lemma {:induction false} ByteInSomeBlock(bs: seq<Block>, lo: nat, hi: nat, x: nat, n: nat)
    requires Tiling(bs, lo, hi) && 0 < n <= |bs| && lo <= x < bs[n - 1].End()
    ensures exists i :: 0 <= i < n && bs[i].addr <= x < bs[i].End()
  {
    if x < bs[n - 1].addr {
      ByteInSomeBlock(bs, lo, hi, x, n - 1);
    }
  }

  /** Header plus payload over all blocks. */
  function Total(bs: seq<Block>): nat {
    if bs == [] then 0 else Total(bs[..|bs| - 1]) + MCB_SIZE + bs[|bs| - 1].size
  }

  /** The total is fixed by the arena and the first payload address alone. */
  lemma {:induction false} TotalIsArena(bs: seq<Block>, lo: nat, hi: nat)
    requires Tiling(bs, lo, hi)
    ensures Total(bs) + bs[0].buffer == hi + MCB_SIZE
    decreases |bs|
  {
    var n := |bs| - 1;
    if n == 0 {
      assert bs[..0] == [];
    } else {
      TotalIsArena(bs[..n], lo, bs[n].addr);
    }
  }

  // ---------- replacing a run of blocks ----------

  lemma SpliceAt(bs: seq<Block>, first: nat, last: nat, c: seq<Block>, k: nat)
    requires first <= last < |bs| && k < |Splice(bs, first, last, c)|
    ensures |Splice(bs, first, last, c)| == first + |c| + |bs| - last - 1
    ensures Splice(bs, first, last, c)[k] ==
            if k < first then bs[k] else if k < first + |c| then c[k - first] else bs[k - first - |c| + last + 1]
  {
  }

  lemma SpliceKeeps(bs: seq<Block>, lo: nat, hi: nat, first: nat, last: nat, c: seq<Block>)
    requires WellFormed(bs, lo, hi) && first <= last < |bs|
    requires WellFormed(c, bs[first].addr, bs[last].End()) && c[0].buffer == bs[first].buffer
    requires 0 < first ==> bs[first - 1].used || c[0].used
    requires last + 1 < |bs| ==> c[|c| - 1].used || bs[last + 1].used
    ensures WellFormed(Splice(bs, first, last, c), lo, hi)
  {
    var out := Splice(bs, first, last, c);
    forall k | 0 < k < |out|
      ensures out[k].addr == out[k - 1].End() && out[k].buffer == out[k].addr + MCB_SIZE
      ensures out[k - 1].used || out[k].used
    {
      SpliceAt(bs, first, last, c, k - 1);
      SpliceAt(bs, first, last, c, k);
    }
    forall k | 0 <= k < |out| && out[k].used
      ensures 0 < out[k].size
    {
      SpliceAt(bs, first, last, c, k);
    }
    SpliceAt(bs, first, last, c, 0);
    SpliceAt(bs, first, last, c, |out| - 1);
  }

  // ---------- what malloc and free keep ----------

  lemma CutShape(b: Block, size: nat, align: nat)
    requires 0 < align && 0 < size && Fits(b, size, align) && b.addr + MCB_SIZE <= b.buffer
    ensures var c := Cut(b, size, align);
            var u := |HeadPart(b, align)|;
            && WellFormed(c, b.addr, b.End()) && c[0].buffer == b.buffer && u < |c|
            && forall k :: 0 <= k < |c| ==> (c[k].used <==> k == u)
  {
  }

  lemma CarveKeeps(bs: seq<Block>, lo: nat, hi: nat, i: nat, size: nat, align: nat)
    requires WellFormed(bs, lo, hi) && i < |bs| && 0 < align && 0 < size && Fits(bs[i], size, align)
    ensures WellFormed(Carve(bs, i, size, align), lo, hi)
  {
    CutShape(bs[i], size, align);
    SpliceKeeps(bs, lo, hi, i, i, Cut(bs[i], size, align));
  }

  lemma FusedShape(bs: seq<Block>, lo: nat, hi: nat, i: nat)
    requires WellFormed(bs, lo, hi) && i < |bs| && bs[i].used
    ensures var f := Fused(bs[First(bs, i)], bs[Last(bs, i)]);
            WellFormed([f], bs[First(bs, i)].addr, bs[Last(bs, i)].End()) && f.buffer == bs[First(bs, i)].buffer
    ensures 0 < First(bs, i) ==> bs[First(bs, i) - 1].used
    ensures Last(bs, i) + 1 < |bs| ==> bs[Last(bs, i) + 1].used
  {
    if First(bs, i) < Last(bs, i) { BlocksAscend(bs, lo, hi, First(bs, i), Last(bs, i)); }
  }

  lemma ReleaseKeeps(bs: seq<Block>, lo: nat, hi: nat, i: nat)
    requires WellFormed(bs, lo, hi) && i < |bs| && bs[i].used
    ensures WellFormed(Release(bs, i), lo, hi)
  {
    FusedShape(bs, lo, hi, i);
    SpliceKeeps(bs, lo, hi, First(bs, i), Last(bs, i), [Fused(bs[First(bs, i)], bs[Last(bs, i)])]);
  }

  lemma SpliceBack(bs: seq<Block>, i: nat, c: seq<Block>)
    requires i < |bs| && |c| > 0
    ensures Splice(Splice(bs, i, i, c), i, i + |c| - 1, [bs[i]]) == bs
  {
    var out := Splice(bs, i, i, c);
    assert out[..i] == bs[..i] && out[i + |c|..] == bs[i + 1..];
    assert bs == bs[..i] + [bs[i]] + bs[i + 1..];
  }

  lemma CarvedRun(bs: seq<Block>, lo: nat, hi: nat, i: nat, size: nat, align: nat)
    requires WellFormed(bs, lo, hi) && i < |bs| && 0 < align && 0 < size && Fits(bs[i], size, align)
    ensures var c, out, u := Cut(bs[i], size, align), Carve(bs, i, size, align), CarvedIndex(bs, i, align);
            && 0 < |c| && u < i + |c| <= |out|
            && First(out, u) == i && Last(out, u) == i + |c| - 1
            && out[i] == c[0] && out[i + |c| - 1] == c[|c| - 1] && out[u] == c[u - i]
  {
    var c, out, u := Cut(bs[i], size, align), Carve(bs, i, size, align), CarvedIndex(bs, i, align);
    CutShape(bs[i], size, align);
    assert |c| == u - i + 1 || |c| == u - i + 2;
    assert u == i || u == i + 1;
    SpliceAt(bs, i, i, c, u);
    SpliceAt(bs, i, i, c, i);
    SpliceAt(bs, i, i, c, i + |c| - 1);
    if 0 < i {
      assert bs[i - 1].used;
      SpliceAt(bs, i, i, c, i - 1);
    }
    if i + 1 < |bs| {
      assert bs[i + 1].used;
      SpliceAt(bs, i, i, c, i + |c|);
    }
  }

  /** malloc followed by free of what it gave restores every block. */
  lemma CarveThenRelease(bs: seq<Block>, lo: nat, hi: nat, i: nat, size: nat, align: nat)
    requires WellFormed(bs, lo, hi) && i < |bs| && 0 < align && 0 < size && Fits(bs[i], size, align)
    ensures Release(Carve(bs, i, size, align), CarvedIndex(bs, i, align)) == bs
  {
    CutShape(bs[i], size, align);
    CarvedRun(bs, lo, hi, i, size, align);
    SpliceBack(bs, i, Cut(bs[i], size, align));
  }

  lemma MallocRefuses(bs: seq<Block>, size: nat, align: nat)
    ensures size == 0 || (forall i :: 0 <= i < |bs| ==> !Fits(bs[i], RoundUp4(size), EffectiveAlign(align)))
            ==> MallocStep(bs, size, align, bs, None)
  {
  }

  lemma MallocServes(bs: seq<Block>, size: nat, align: nat, bs': seq<Block>, i: nat, ptr: nat)
    ensures var n, a := RoundUp4(size), EffectiveAlign(align);
            0 < size && BestFit(bs, i, n, a) && bs' == Carve(bs, i, n, a) && ptr == bs[i].buffer + Padding(bs[i].buffer, a)
            ==> MallocStep(bs, size, align, bs', Some(ptr))
  {
    hide Carve;
    hide Padding;
    var n, a := RoundUp4(size), EffectiveAlign(align);
    if 0 < size && BestFit(bs, i, n, a) && bs' == Carve(bs, i, n, a) {
      assert Fits(bs[i], n, a);
    }
  }

  lemma MallocStepKeeps(bs: seq<Block>, size: nat, align: nat, bs': seq<Block>, r: Option<nat>, lo: nat, hi: nat)
    requires WellFormed(bs, lo, hi) && MallocStep(bs, size, align, bs', r)
    ensures WellFormed(bs', lo, hi)
  {
    hide Carve;
    hide WellFormed;
    hide Padding;
    var n, a := RoundUp4(size), EffectiveAlign(align);
    if r.Some? {
      var i: nat :| BestFit(bs, i, n, a) && bs' == Carve(bs, i, n, a) && r == Some(bs[i].buffer + Padding(bs[i].buffer, a));
      CarveKeeps(bs, lo, hi, i, n, a);
    }
  }

  lemma FreeStepKeeps(bs: seq<Block>, ptr: nat, bs': seq<Block>, lo: nat, hi: nat)
    requires WellFormed(bs, lo, hi) && FreeStep(bs, ptr, bs')
    ensures WellFormed(bs', lo, hi)
  {
    hide Release;
    hide WellFormed;
    if exists i :: 0 <= i < |bs| && Owns(bs[i], ptr) {
      var i :| 0 <= i < |bs| && Owns(bs[i], ptr) && bs' == Release(bs, i);
      ReleaseKeeps(bs, lo, hi, i);
    }
  }

  /** Only neighbours touch. */
  lemma TouchingAreNeighbours(bs: seq<Block>, lo: nat, hi: nat, i: nat, k: nat)
    requires Tiling(bs, lo, hi) && i < |bs| && k < |bs|
    ensures bs[k].addr == bs[i].End() <==> k == i + 1
    ensures bs[k].End() == bs[i].addr <==> i == k + 1
  {
    if k < i { BlocksAscend(bs, lo, hi, k, i); }
    if k < i - 1 {
      BlocksAscend(bs, lo, hi, k, i - 1);
    }
    if i < k { BlocksAscend(bs, lo, hi, i, k); }
    if i + 1 < k {
      BlocksAscend(bs, lo, hi, i + 1, k);
    }
    PayloadEndsLater(bs, lo, hi, i);
    PayloadEndsLater(bs, lo, hi, k);
  }

  lemma PayloadEndsLater(bs: seq<Block>, lo: nat, hi: nat, i: nat)
    requires Tiling(bs, lo, hi) && i < |bs|
    ensures bs[i].addr < bs[i].End()
    ensures 0 < i ==> bs[i - 1].addr < bs[i - 1].End() == bs[i].addr
    ensures i + 1 < |bs| ==> bs[i].End() == bs[i + 1].addr < bs[i + 1].End()
  {
  }

  /** Block k stretched to size bytes over the n blocks after it. */
  function Stretched(bs: seq<Block>, k: nat, n: nat, size: nat): seq<Block>
    requires k + n < |bs|
  {
    Splice(bs, k, k + n, [bs[k].(size := size)])
  }

  lemma FusedSize(bs: seq<Block>, lo: nat, hi: nat, k: nat, n: nat)
    requires Tiling(bs, lo, hi) && k + n < |bs| && n <= 2 && !bs[k].used
    ensures n == 0 ==> Fused(bs[k], bs[k + n]) == bs[k]
    ensures n == 1 ==> Fused(bs[k], bs[k + n]) == bs[k].(size := bs[k].size + (MCB_SIZE + bs[k + 1].size))
    ensures n == 2 ==>
              Fused(bs[k], bs[k + n]) == bs[k].(size := bs[k].size + (MCB_SIZE * 2 + bs[k + 1].size + bs[k + 2].size))
  {
  }

  lemma SpliceSelf(bs: seq<Block>, i: nat)
    requires i < |bs|
    ensures Splice(bs, i, i, [bs[i]]) == bs
  {
  }

  /** The sums free computes give what Release says, whichever neighbours are free. */
  lemma StretchIsRelease(bs: seq<Block>, lo: nat, hi: nat, i: nat, prev: bool, next: bool, p: nat, m: nat, n: nat)
    requires Tiling(bs, lo, hi) && i < |bs| && !bs[i].used && m == bs[i].size
    requires prev == (0 < i && !bs[i - 1].used) && (prev ==> p == bs[i - 1].size)
    requires next == (i + 1 < |bs| && !bs[i + 1].used) && (next ==> n == bs[i + 1].size)
    ensures Release(bs, i) ==
            if prev && next then Stretched(bs, i - 1, 2, p + (MCB_SIZE * 2 + m + n))
            else if prev then Stretched(bs, i - 1, 1, p + (MCB_SIZE + m))
            else if next then Stretched(bs, i, 1, m + (MCB_SIZE + n))
            else bs
  {
    hide Tiling;
    hide Splice;
    var k := if prev then i - 1 else i;
    var l := if next then i + 1 else i;
    SpliceSelf(bs, i);
    assert First(bs, i) == k && Last(bs, i) == l;
    FusedSize(bs, lo, hi, k, l - k);
  }

  lemma InitialWellFormed(lo: nat, hi: nat)
    requires PayloadStart(lo) <= hi
    ensures WellFormed(InitialBlocks(lo, hi), lo, hi)
  {
  }

  lemma TilingIgnoresMarks(bs: seq<Block>, lo: nat, hi: nat, i: nat, used: bool)
    requires Tiling(bs, lo, hi) && i < |bs|
    ensures Tiling(bs[i := bs[i].(used := used)], lo, hi)
  {
  }

  lemma FusedIgnoresMark(bs: seq<Block>, i: nat, used: bool)
    requires i < |bs|
    ensures var cs := bs[i := bs[i].(used := used)];
            && First(cs, i) == First(bs, i) && Last(cs, i) == Last(bs, i)
            && Fused(cs[First(cs, i)], cs[Last(cs, i)]) == Fused(bs[First(bs, i)], bs[Last(bs, i)])
  {
  }

  lemma SpliceOver(bs: seq<Block>, first: nat, i: nat, last: nat, b: Block, c: seq<Block>)
    requires first <= i <= last < |bs|
    ensures Splice(bs[i := b], first, last, c) == Splice(bs, first, last, c)
  {
    assert bs[i := b][..first] == bs[..first] && bs[i := b][last + 1..] == bs[last + 1..];
  }

  /** Release looks at everything about block i but its mark. */
  lemma ReleaseOfUnmarked(bs: seq<Block>, lo: nat, hi: nat, i: nat)
    requires Tiling(bs, lo, hi) && i < |bs|
    ensures var cs := bs[i := bs[i].(used := false)]; Tiling(cs, lo, hi) && Release(cs, i) == Release(bs, i)
  {
    hide Tiling;
    hide Splice;
    hide Fused;
    TilingIgnoresMarks(bs, lo, hi, i, false);
    FusedIgnoresMark(bs, i, false);
    SpliceOver(bs, First(bs, i), i, Last(bs, i), bs[i].(used := false), [Fused(bs[First(bs, i)], bs[Last(bs, i)])]);
  }

  lemma FreeOwner(bs: seq<Block>, ptr: nat, i: nat, bs': seq<Block>)
    requires i < |bs| && Owns(bs[i], ptr) && bs' == Release(bs, i)
    ensures FreeStep(bs, ptr, bs')
  {
  }

  lemma FreeNothing(bs: seq<Block>, ptr: nat)
    requires forall j :: 0 <= j < |bs| ==> !Owns(bs[j], ptr)
    ensures FreeStep(bs, ptr, bs)
  {
  }
}
