/** Whole histories of malloc and free calls over the arena, as a client sees them. */
module HeapRuns {
  import opened Wrappers
  import opened Division
  import opened Heap

  datatype Request = Malloc(size: nat, align: nat) | Free(ptr: nat)

  /** live maps each pointer handed out and not yet freed to the size that the client asked for. */
  datatype State = State(blocks: seq<Block>, live: map<nat, nat>)

  ghost predicate MallocEffect(s: State, size: nat, align: nat, s': State, r: Option<nat>) {
    && MallocStep(s.blocks, size, align, s'.blocks, r)
    && s'.live == if r == None then s.live else s.live[r.value := size]
  }

  ghost predicate Step(s: State, q: Request, s': State) {
    match q
    case Malloc(size, align) =>
      exists r: Option<nat> :: MallocEffect(s, size, align, s', r)
    case Free(ptr) =>
      // the client frees what it holds, or an address in no block (NULL, for one)
      && (ptr in s.live || forall b :: b in s.blocks ==> !Owns(b, ptr))
      && FreeStep(s.blocks, ptr, s'.blocks)
      && s'.live == s.live - {ptr}
  }

  ghost predicate Run(states: seq<State>, requests: seq<Request>, lo: nat, hi: nat) {
    && PayloadStart(lo) <= hi
    && |states| == |requests| + 1
    && states[0] == State(InitialBlocks(lo, hi), map[])
    && forall k :: 0 <= k < |requests| ==> Step(states[k], requests[k], states[k + 1])
  }

  function Used(bs: seq<Block>): set<Block> {
    set b | b in bs && b.used
  }

  ghost predicate Holds(b: Block, ptr: nat, size: nat) {
    b.buffer <= ptr && 0 < size && ptr + size <= b.End()
  }

  ghost predicate Held(used: set<Block>, ptr: nat, size: nat) {
    exists b :: b in used && Holds(b, ptr, size)
  }

  ghost predicate Leased(live: map<nat, nat>, b: Block) {
    exists p :: p in live && Owns(b, p)
  }

  /** Live pointers and used blocks correspond one to one. */
  ghost predicate Ledger(used: set<Block>, live: map<nat, nat>) {
    && (forall p {:trigger Held(used, p, live[p])} :: p in live ==> Held(used, p, live[p]))
    && (forall b {:trigger Leased(live, b)} :: b in used ==> Leased(live, b))
    && (forall b, p, q {:trigger Owns(b, p), Owns(b, q)} :: b in used && p in live && q in live && Owns(b, p) && Owns(b, q) ==> p == q)
  }

  ghost predicate Apart(a: Block, b: Block) {
    a.End() <= b.addr || b.End() <= a.addr
  }

  ghost predicate AllApart(used: set<Block>) {
    forall a, b :: a in used && b in used && a != b ==> Apart(a, b)
  }

  ghost predicate Headed(used: set<Block>) {
    forall b :: b in used ==> b.addr < b.buffer && b.used
  }

  lemma LedgerGrows(used: set<Block>, live: map<nat, nat>, m: Block, ptr: nat, size: nat)
    requires Ledger(used, live) && Headed(used + {m})
    requires forall b :: b in used ==> Apart(m, b)
    requires Holds(m, ptr, size)
    ensures Ledger(used + {m}, live[ptr := size])
  {
    var live' := live[ptr := size];
    forall p | p in live
      ensures !Owns(m, p) && Held(used + {m}, p, live[p])
    {
      assert Held(used, p, live[p]);
      var b :| b in used && Holds(b, p, live[p]);
      assert b in used + {m} && Apart(m, b);
    }
    assert Owns(m, ptr) && ptr !in live;
    forall b | b in used
      ensures Leased(live', b) && !Owns(b, ptr)
    {
      assert Leased(live, b);
      var p :| p in live && Owns(b, p);
      assert p in live' && Apart(m, b);
    }
    assert Leased(live', m) by { assert ptr in live'; }
    assert Held(used + {m}, ptr, size) by { assert m in used + {m}; }
  }

  lemma LedgerShrinks(used: set<Block>, live: map<nat, nat>, b: Block, ptr: nat)
    requires Ledger(used, live) && AllApart(used) && Headed(used)
    requires b in used && ptr in live && Owns(b, ptr)
    ensures Ledger(used - {b}, live - {ptr})
  {
    forall p | p in live - {ptr}
      ensures Held(used - {b}, p, live[p])
    {
      assert Held(used, p, live[p]);
      var c :| c in used && Holds(c, p, live[p]);
      assert Owns(c, p);
      assert c in used - {b};
    }
    forall c | c in used - {b}
      ensures Leased(live - {ptr}, c)
    {
      assert Leased(live, c);
      var p :| p in live && Owns(c, p);
      assert Apart(c, b);
      assert p in live - {ptr};
    }
  }

  ghost predicate Sound(s: State, lo: nat, hi: nat) {
    && WellFormed(s.blocks, lo, hi)
    && s.blocks[0].buffer == PayloadStart(lo)
    && Ledger(Used(s.blocks), s.live)
  }

  lemma BlocksApart(bs: seq<Block>, lo: nat, hi: nat, i: nat)
    requires Tiling(bs, lo, hi) && i < |bs|
    ensures forall j :: 0 <= j < |bs| && j != i ==> Apart(bs[i], bs[j])
    ensures lo <= bs[i].addr && bs[i].addr < bs[i].buffer && bs[i].End() <= hi
  {
    if 0 < i { BlocksAscend(bs, lo, hi, 0, i); }
    if i < |bs| - 1 { BlocksAscend(bs, lo, hi, i, |bs| - 1); }
    forall j | 0 <= j < |bs| && j != i
      ensures Apart(bs[i], bs[j])
    {
      if i < j { BlocksAscend(bs, lo, hi, i, j); }
      if j < i { BlocksAscend(bs, lo, hi, j, i); }
    }
  }

  lemma UsedApart(bs: seq<Block>, lo: nat, hi: nat)
    requires Tiling(bs, lo, hi)
    ensures AllApart(Used(bs)) && Headed(Used(bs))
  {
    forall i | 0 <= i < |bs|
      ensures bs[i].addr < bs[i].buffer && forall j :: 0 <= j < |bs| && j != i ==> Apart(bs[i], bs[j])
    {
      BlocksApart(bs, lo, hi, i);
    }
  }

  lemma SpliceUsed(bs: seq<Block>, first: nat, last: nat, c: seq<Block>)
    requires first <= last < |bs|
    ensures Used(Splice(bs, first, last, c)) == Used(bs[..first]) + Used(c) + Used(bs[last + 1..])
    ensures Used(bs) == Used(bs[..first]) + Used(bs[first..last + 1]) + Used(bs[last + 1..])
  {
    assert bs == bs[..first] + bs[first..last + 1] + bs[last + 1..];
  }

  lemma CarveUsed(bs: seq<Block>, i: nat, size: nat, align: nat)
    requires i < |bs| && 0 < align && 0 < size && Fits(bs[i], size, align) && bs[i].addr + MCB_SIZE <= bs[i].buffer
    ensures var m := Cut(bs[i], size, align)[|HeadPart(bs[i], align)|];
            && Used(Carve(bs, i, size, align)) == Used(bs) + {m}
            && m.used && bs[i].addr <= m.addr < m.buffer && m.End() <= bs[i].End()
            && Holds(m, bs[i].buffer + Padding(bs[i].buffer, align), size)
  {
    CutShape(bs[i], size, align);
    var c, u := Cut(bs[i], size, align), |HeadPart(bs[i], align)|;
    SpliceUsed(bs, i, i, c);
    assert bs[i..i + 1] == [bs[i]];
    assert c[u] in Used(c);
    assert Used(c) == {c[u]};
  }

  /** Of the blocks that free fuses, only the one being freed was used. */
  lemma FusedUsed(bs: seq<Block>, i: nat)
    requires i < |bs| && bs[i].used
    ensures Used(bs[First(bs, i)..Last(bs, i) + 1]) == {bs[i]}
  {
    var middle := bs[First(bs, i)..Last(bs, i) + 1];
    assert middle[i - First(bs, i)] == bs[i];
    assert forall k :: 0 <= k < |middle| ==> middle[k] == bs[First(bs, i) + k];
  }

  lemma BlockOnce(bs: seq<Block>, lo: nat, hi: nat, i: nat)
    requires Tiling(bs, lo, hi) && i < |bs|
    ensures bs[i] !in bs[..i] && bs[i] !in bs[i + 1..]
  {
    BlocksApart(bs, lo, hi, i);
    assert forall j :: 0 <= j < |bs| && j != i ==> bs[j] != bs[i];
  }

  lemma ReleaseUsed(bs: seq<Block>, lo: nat, hi: nat, i: nat)
    requires Tiling(bs, lo, hi) && i < |bs| && bs[i].used
    ensures Used(Release(bs, i)) == Used(bs) - {bs[i]}
  {
    var first, last := First(bs, i), Last(bs, i);
    var f := Fused(bs[first], bs[last]);
    SpliceUsed(bs, first, last, [f]);
    FusedUsed(bs, i);
    BlockOnce(bs, lo, hi, i);
    FreeAlone(f);
    NotAround(bs, first, i, last);
    hide Used;
    hide Tiling;
    hide Splice;
    hide Fused;
  }

  lemma FreeAlone(f: Block)
    requires !f.used
    ensures Used([f]) == {}
  {
  }

  lemma NotAround(bs: seq<Block>, first: nat, i: nat, last: nat)
    requires first <= i <= last < |bs| && bs[i] !in bs[..i] && bs[i] !in bs[i + 1..]
    ensures bs[i] !in Used(bs[..first]) && bs[i] !in Used(bs[last + 1..])
  {
    assert bs[..first] == bs[..i][..first];
    assert bs[last + 1..] == bs[i + 1..][last - i..];
  }

  lemma MallocChoice(bs: seq<Block>, size: nat, align: nat, bs': seq<Block>, ptr: nat) returns (i: nat)
    requires MallocStep(bs, size, align, bs', Some(ptr))
    ensures 0 < size && i < |bs| && Fits(bs[i], RoundUp4(size), EffectiveAlign(align))
    ensures bs' == Carve(bs, i, RoundUp4(size), EffectiveAlign(align))
    ensures ptr == bs[i].buffer + Padding(bs[i].buffer, EffectiveAlign(align))
  {
    i := MallocChoiceBest(bs, size, align, bs', ptr);
    hide Carve;
    hide Padding;
    hide Fits;
    hide MallocStep;
  }

  lemma MallocSound(s: State, size: nat, align: nat, s': State, r: Option<nat>, lo: nat, hi: nat)
    requires Sound(s, lo, hi) && MallocEffect(s, size, align, s', r)
    ensures Sound(s', lo, hi)
  {
    hide Carve;
    hide Padding;
    hide WellFormed;
    hide Ledger;
    if r.Some? {
      var i := MallocChoice(s.blocks, size, align, s'.blocks, r.value);
      CarveSound(s, i, RoundUp4(size), EffectiveAlign(align), size, lo, hi);
    }
  }

  /** A piece of free block i lies apart from all that is used. */
  lemma PieceApart(bs: seq<Block>, lo: nat, hi: nat, i: nat, m: Block)
    requires Tiling(bs, lo, hi) && i < |bs| && !bs[i].used
    requires m.used && bs[i].addr <= m.addr < m.buffer && m.End() <= bs[i].End()
    ensures bs[i].addr + MCB_SIZE <= bs[i].buffer
    ensures Headed(Used(bs) + {m}) && forall b :: b in Used(bs) ==> Apart(m, b)
  {
    BlocksApart(bs, lo, hi, i);
    UsedApart(bs, lo, hi);
    forall b | b in Used(bs) ensures Apart(m, b) {
      var j :| 0 <= j < |bs| && bs[j] == b;
      assert Apart(bs[i], bs[j]);
    }
  }

  lemma CarveLedger(s: State, i: nat, n: nat, a: nat, size: nat, lo: nat, hi: nat)
    requires Sound(s, lo, hi) && i < |s.blocks| && 0 < a && 0 < size <= n && Fits(s.blocks[i], n, a)
    ensures Ledger(Used(Carve(s.blocks, i, n, a)), s.live[s.blocks[i].buffer + Padding(s.blocks[i].buffer, a) := size])
  {
    var bs := s.blocks;
    FirstHeader(bs, lo, hi, i);
    hide Tiling;
    hide Ledger;
    hide Carve;
    hide Cut;
    hide Padding;
    hide Used;
    hide Headed;
    hide Apart;
    CutShape(bs[i], n, a);
    var m := Cut(bs[i], n, a)[|HeadPart(bs[i], a)|];
    CarveUsed(bs, i, n, a);
    PieceApart(bs, lo, hi, i, m);
    LedgerGrows(Used(bs), s.live, m, bs[i].buffer + Padding(bs[i].buffer, a), size);
  }

  lemma FirstHeader(bs: seq<Block>, lo: nat, hi: nat, i: nat)
    requires Tiling(bs, lo, hi) && i < |bs|
    ensures bs[i].addr + MCB_SIZE <= bs[i].buffer
  {
  }

  lemma CarveSound(s: State, i: nat, n: nat, a: nat, size: nat, lo: nat, hi: nat)
    requires Sound(s, lo, hi) && i < |s.blocks| && 0 < a && 0 < size <= n && Fits(s.blocks[i], n, a)
    ensures Sound(State(Carve(s.blocks, i, n, a), s.live[s.blocks[i].buffer + Padding(s.blocks[i].buffer, a) := size]), lo, hi)
  {
    hide WellFormed;
    hide Ledger;
    hide Carve;
    hide Padding;
    hide Used;
    CarveWhole(s.blocks, lo, hi, i, n, a);
    CarveLedger(s, i, n, a, size, lo, hi);
  }

  lemma LiveBlock(s: State, ptr: nat) returns (i: nat)
    requires Ledger(Used(s.blocks), s.live) && ptr in s.live
    ensures i < |s.blocks| && Owns(s.blocks[i], ptr) && Holds(s.blocks[i], ptr, s.live[ptr])
  {
    assert Held(Used(s.blocks), ptr, s.live[ptr]);
    var b :| b in Used(s.blocks) && Holds(b, ptr, s.live[ptr]);
    i :| 0 <= i < |s.blocks| && s.blocks[i] == b;
  }

  lemma FreeSound(s: State, ptr: nat, s': State, lo: nat, hi: nat)
    requires Sound(s, lo, hi) && Step(s, Free(ptr), s')
    ensures Sound(s', lo, hi)
  {
    var bs := s.blocks;
    if forall i :: 0 <= i < |bs| ==> !Owns(bs[i], ptr) {
      if ptr in s.live {
        var _ := LiveBlock(s, ptr);
      }
      assert s'.live == s.live;
    } else {
      var i :| 0 <= i < |bs| && Owns(bs[i], ptr) && s'.blocks == Release(bs, i);
      ReleaseSound(s, ptr, i, lo, hi);
    }
  }

  lemma ReleaseSound(s: State, ptr: nat, i: nat, lo: nat, hi: nat)
    requires Sound(s, lo, hi) && i < |s.blocks| && Owns(s.blocks[i], ptr) && ptr in s.live
    ensures Sound(State(Release(s.blocks, i), s.live - {ptr}), lo, hi)
  {
    var bs := s.blocks;
    ReleaseKeeps(bs, lo, hi, i);
    FusedShape(bs, lo, hi, i);
    SpliceAt(bs, First(bs, i), Last(bs, i), [Fused(bs[First(bs, i)], bs[Last(bs, i)])], 0);
    ReleaseUsed(bs, lo, hi, i);
    UsedApart(bs, lo, hi);
    LedgerShrinks(Used(bs), s.live, bs[i], ptr);
  }

  /** Every state of every run is tiled, coalesced and in step with what the client holds. */
  lemma {:induction false} RunSound(states: seq<State>, requests: seq<Request>, lo: nat, hi: nat, k: nat)
    requires Run(states, requests, lo, hi) && k < |states|
    ensures Sound(states[k], lo, hi)
  {
    if k == 0 {
      assert PayloadStart(lo) >= lo + MCB_SIZE;
      assert Used(states[0].blocks) == {};
    } else {
      RunSound(states, requests, lo, hi, k - 1);
      var s, q, s' := states[k - 1], requests[k - 1], states[k];
      assert Step(s, q, s');
      match q
      case Malloc(size, align) =>
        var r :| MallocEffect(s, size, align, s', r);
        MallocSound(s, size, align, s', r, lo, hi);
      case Free(ptr) => FreeSound(s, ptr, s', lo, hi);
    }
  }

  /** The bytes of two live allocations never overlap, and none of them lies in a header or a free payload. */
  lemma LiveBytesAreOwned(states: seq<State>, requests: seq<Request>, lo: nat, hi: nat, k: nat, p: nat, x: nat)
    requires Run(states, requests, lo, hi) && k < |states|
    requires p in states[k].live && p <= x < p + states[k].live[p]
    ensures lo <= x < hi
    ensures forall q :: q in states[k].live && q <= x < q + states[k].live[q] ==> q == p
    ensures forall b :: b in states[k].blocks && b.addr <= x < b.End() ==> b.used && b.buffer <= x
  {
    RunSound(states, requests, lo, hi, k);
    var s := states[k];
    assert Held(Used(s.blocks), p, s.live[p]);
    var b :| b in Used(s.blocks) && Holds(b, p, s.live[p]);
    var i :| 0 <= i < |s.blocks| && s.blocks[i] == b;
    BlocksApart(s.blocks, lo, hi, i);
    UsedApart(s.blocks, lo, hi);
    forall q | q in s.live && q <= x < q + s.live[q]
      ensures q == p
    {
      assert Held(Used(s.blocks), q, s.live[q]);
      var c :| c in Used(s.blocks) && Holds(c, q, s.live[q]);
      assert c == b;
      assert Owns(b, p) && Owns(b, q);
    }
  }

  /** Any calls at all, also a free of an address inside somebody's block. */
  ghost predicate AnyStep(bs: seq<Block>, q: Request, bs': seq<Block>) {
    match q
    case Malloc(size, align) => exists r: Option<nat> :: MallocStep(bs, size, align, bs', r)
    case Free(ptr) => FreeStep(bs, ptr, bs')
  }

  ghost predicate AnyRun(states: seq<seq<Block>>, requests: seq<Request>, lo: nat, hi: nat) {
    && PayloadStart(lo) <= hi && |states| == |requests| + 1 && states[0] == InitialBlocks(lo, hi)
    && forall k :: 0 <= k < |requests| ==> AnyStep(states[k], requests[k], states[k + 1])
  }

  /** The arena is whole, and its first payload is where init put it. */
  ghost predicate Whole(bs: seq<Block>, lo: nat, hi: nat) {
    WellFormed(bs, lo, hi) && bs[0].buffer == PayloadStart(lo)
  }

  lemma CarveWhole(bs: seq<Block>, lo: nat, hi: nat, i: nat, n: nat, a: nat)
    requires Whole(bs, lo, hi) && i < |bs| && 0 < a && 0 < n && Fits(bs[i], n, a)
    ensures Whole(Carve(bs, i, n, a), lo, hi)
  {
    CarveKeeps(bs, lo, hi, i, n, a);
    CutShape(bs[i], n, a);
    SpliceAt(bs, i, i, Cut(bs[i], n, a), 0);
  }

  lemma ReleaseWhole(bs: seq<Block>, lo: nat, hi: nat, i: nat)
    requires Whole(bs, lo, hi) && i < |bs| && bs[i].used
    ensures Whole(Release(bs, i), lo, hi)
  {
    ReleaseKeeps(bs, lo, hi, i);
    FusedShape(bs, lo, hi, i);
    SpliceAt(bs, First(bs, i), Last(bs, i), [Fused(bs[First(bs, i)], bs[Last(bs, i)])], 0);
  }

  lemma MallocWhole(bs: seq<Block>, size: nat, align: nat, bs': seq<Block>, r: Option<nat>, lo: nat, hi: nat)
    requires Whole(bs, lo, hi) && MallocStep(bs, size, align, bs', r)
    ensures Whole(bs', lo, hi)
  {
    hide Carve;
    hide Whole;
    hide Padding;
    if r.Some? {
      var i := MallocChoice(bs, size, align, bs', r.value);
      CarveWhole(bs, lo, hi, i, RoundUp4(size), EffectiveAlign(align));
    }
  }

  lemma FreeWhole(bs: seq<Block>, ptr: nat, bs': seq<Block>, lo: nat, hi: nat)
    requires Whole(bs, lo, hi) && FreeStep(bs, ptr, bs')
    ensures Whole(bs', lo, hi)
  {
    hide Release;
    hide Whole;
    if exists i :: 0 <= i < |bs| && Owns(bs[i], ptr) {
      var i :| 0 <= i < |bs| && Owns(bs[i], ptr) && bs' == Release(bs, i);
      ReleaseWhole(bs, lo, hi, i);
    }
  }

  lemma AnyStepKeeps(bs: seq<Block>, q: Request, bs': seq<Block>, lo: nat, hi: nat)
    requires Whole(bs, lo, hi) && AnyStep(bs, q, bs')
    ensures Whole(bs', lo, hi)
  {
    hide MallocStep;
    hide FreeStep;
    hide Whole;
    match q
    case Malloc(size, align) =>
      var r :| MallocStep(bs, size, align, bs', r);
      MallocWhole(bs, size, align, bs', r, lo, hi);
    case Free(ptr) => FreeWhole(bs, ptr, bs', lo, hi);
  }

  lemma InitialWhole(lo: nat, hi: nat)
    requires PayloadStart(lo) <= hi
    ensures Whole(InitialBlocks(lo, hi), lo, hi)
  {
    InitialWellFormed(lo, hi);
  }

  lemma {:induction false} AnyRunWhole(states: seq<seq<Block>>, requests: seq<Request>, lo: nat, hi: nat, k: nat)
    requires AnyRun(states, requests, lo, hi) && k < |states|
    ensures Whole(states[k], lo, hi)
  {
    hide Whole;
    hide AnyStep;
    if k == 0 {
      InitialWhole(lo, hi);
    } else {
      AnyRunWhole(states, requests, lo, hi, k - 1);
      AnyStepKeeps(states[k - 1], requests[k - 1], states[k], lo, hi);
    }
  }

  /** Whatever is freed, the arena stays tiled and coalesced, and headers and payloads come to the same sum. */
  lemma RunConserves(states: seq<seq<Block>>, requests: seq<Request>, lo: nat, hi: nat, k: nat)
    requires AnyRun(states, requests, lo, hi) && k < |states|
    ensures WellFormed(states[k], lo, hi) && Total(states[k]) == hi + MCB_SIZE - PayloadStart(lo)
  {
    AnyRunWhole(states, requests, lo, hi, k);
    TotalIsArena(states[k], lo, hi);
  }

  /** Once the client holds nothing, in whatever order it freed, init's single block is back. */
  lemma AllFreedIsInitial(states: seq<State>, requests: seq<Request>, lo: nat, hi: nat, k: nat)
    requires Run(states, requests, lo, hi) && k < |states| && states[k].live == map[]
    ensures states[k].blocks == InitialBlocks(lo, hi)
  {
    RunSound(states, requests, lo, hi, k);
    var bs := states[k].blocks;
    assert forall i :: 0 <= i < |bs| && bs[i].used ==> bs[i] in Used(bs);
    assert forall b :: b in Used(bs) ==> !Leased(states[k].live, b);
    assert Used(bs) == {};
    if 1 < |bs| {
      NeighbourUsed(bs, 1);
    }
  }

  lemma NeighbourUsed(bs: seq<Block>, i: nat)
    requires Coalesced(bs) && 0 < i < |bs|
    ensures bs[i - 1].used || bs[i].used
  {
  }

  /** Of the blocks after a malloc only the new one owns the result. */
  lemma CarvedOwner(bs: seq<Block>, i: nat, n: nat, a: nat, lo: nat, hi: nat)
    requires WellFormed(bs, lo, hi) && i < |bs| && 0 < a && 0 < n && Fits(bs[i], n, a)
    ensures var ptr, out := bs[i].buffer + Padding(bs[i].buffer, a), Carve(bs, i, n, a);
            && CarvedIndex(bs, i, a) < |out|
            && forall j :: 0 <= j < |out| ==> (Owns(out[j], ptr) <==> j == CarvedIndex(bs, i, a))
  {
    var out, u := Carve(bs, i, n, a), CarvedIndex(bs, i, a);
    CarvedRun(bs, lo, hi, i, n, a);
    CutShape(bs[i], n, a);
    CarveUsed(bs, i, n, a);
    CarveKeeps(bs, lo, hi, i, n, a);
    BlocksApart(out, lo, hi, u);
  }

  lemma FreeOnly(bs: seq<Block>, ptr: nat, bs': seq<Block>, u: nat)
    requires FreeStep(bs, ptr, bs') && u < |bs|
    requires forall j :: 0 <= j < |bs| ==> (Owns(bs[j], ptr) <==> j == u)
    ensures bs' == Release(bs, u)
  {
    assert Owns(bs[u], ptr);
  }

  lemma BlocksRestored(bs: seq<Block>, size: nat, align: nat, bs': seq<Block>, ptr: nat, bs'': seq<Block>, lo: nat, hi: nat)
    requires WellFormed(bs, lo, hi) && MallocStep(bs, size, align, bs', Some(ptr)) && FreeStep(bs', ptr, bs'')
    ensures bs'' == bs
  {
    var n, a := RoundUp4(size), EffectiveAlign(align);
    var i := MallocChoice(bs, size, align, bs', ptr);
    CarvedOwner(bs, i, n, a, lo, hi);
    FreeOnly(bs', ptr, bs'', CarvedIndex(bs, i, a));
    CarveThenRelease(bs, lo, hi, i, n, a);
  }

  lemma PointerFresh(s: State, size: nat, align: nat, bs': seq<Block>, ptr: nat, lo: nat, hi: nat)
    requires Sound(s, lo, hi) && MallocStep(s.blocks, size, align, bs', Some(ptr))
    ensures ptr !in s.live
  {
    var i := MallocChoice(s.blocks, size, align, bs', ptr);
    if ptr in s.live {
      var j := LiveBlock(s, ptr);
      BlocksApart(s.blocks, lo, hi, i);
    }
  }

  /** malloc and an immediate free of its result leave blocks and live pointers as they were. */
  lemma MallocFreeRestores(s: State, size: nat, align: nat, s': State, ptr: nat, s'': State, lo: nat, hi: nat)
    requires Sound(s, lo, hi) && MallocEffect(s, size, align, s', Some(ptr)) && Step(s', Free(ptr), s'')
    ensures s'' == s
  {
    BlocksRestored(s.blocks, size, align, s'.blocks, ptr, s''.blocks, lo, hi);
    PointerFresh(s, size, align, s'.blocks, ptr, lo, hi);
    InsertThenRemove(s.live, ptr, size);
  }

  lemma InsertThenRemove(m: map<nat, nat>, k: nat, v: nat)
    requires k !in m
    ensures m[k := v] - {k} == m
  {
  }

  lemma PaddedIsMultiple(x: nat, a: nat)
    requires 0 < a
    ensures (x + Padding(x, a)) % a == 0
  {
    var q, r := x / a, x % a;
    assert x == q * a + r;
    if r != 0 {
      assert (q + 1) * a == q * a + a;
      Divided(x + (a - r), a, q + 1, 0);
    }
  }

  /** What malloc returns is a multiple of the alignment asked for, or of 4 if less was asked for. */
  lemma ResultIsAligned(bs: seq<Block>, size: nat, align: nat, bs': seq<Block>, ptr: nat)
    requires MallocStep(bs, size, align, bs', Some(ptr))
    ensures ptr % (if align < 4 then 4 else align) == 0
  {
    hide Carve;
    hide Padding;
    hide Fits;
    hide MallocStep;
    var i := MallocChoice(bs, size, align, bs', ptr);
    PaddedIsMultiple(bs[i].buffer, EffectiveAlign(align));
  }

  // ---------- what is granted, by addresses ----------

  /** Free block b has m bytes at x, and x is a multiple of a. */
  predicate Offers(b: Block, m: nat, a: nat, x: nat)
    requires 0 < a
  {
    !b.used && b.buffer <= x && x % a == 0 && x + m <= b.End()
  }

  /** The padded address is the first multiple of the alignment. */
  lemma PaddedIsFirst(x: nat, a: nat, y: nat)
    requires 0 < a && x <= y && y % a == 0
    ensures x + Padding(x, a) <= y
  {
    PaddedIsMultiple(x, a);
    var p := x + Padding(x, a);
    assert p < x + a;
    if y < p {
      MultiplesApart(y, p, a);
    }
  }

  lemma TimesGrows(i: nat, j: nat, a: nat)
    requires i <= j
    ensures i * a <= j * a
  {
  }

  /** Two multiples of a differ by a at least. */
  lemma MultiplesApart(y: nat, p: nat, a: nat)
    requires 0 < a && y < p && y % a == 0 && p % a == 0
    ensures y + a <= p
  {
    var i, j := y / a, p / a;
    assert y == i * a && p == j * a && (i + 1) * a == i * a + a;
    if j <= i {
      TimesGrows(j, i, a);
    } else {
      TimesGrows(i + 1, j, a);
    }
  }

  lemma FitsIsOffer(b: Block, m: nat, a: nat)
    requires 0 < a
    ensures Fits(b, m, a) ==> Offers(b, m, a, b.buffer + Padding(b.buffer, a))
    ensures forall x :: Offers(b, m, a, x) ==> Fits(b, m, a) && b.buffer + Padding(b.buffer, a) <= x
  {
    hide Padding;
    PaddedIsMultiple(b.buffer, a);
    forall x | Offers(b, m, a, x) ensures Fits(b, m, a) && b.buffer + Padding(b.buffer, a) <= x {
      PaddedIsFirst(b.buffer, a, x);
    }
  }

  /** Block b of the arena offers the request, at ptr and not before, and none that offers it is smaller. */
  ghost predicate Chosen(bs: seq<Block>, b: Block, m: nat, a: nat, ptr: nat)
    requires 0 < a
  {
    && b in bs && Offers(b, m, a, ptr)
    && (forall x :: Offers(b, m, a, x) ==> ptr <= x)
    && (forall c, x :: c in bs && Offers(c, m, a, x) ==> b.size <= c.size)
  }

  lemma BestIsChosen(bs: seq<Block>, i: nat, m: nat, a: nat)
    requires 0 < a && BestFit(bs, i, m, a)
    ensures Chosen(bs, bs[i], m, a, bs[i].buffer + Padding(bs[i].buffer, a))
  {
    hide Padding;
    hide Offers;
    hide Fits;
    forall b | b in bs
      ensures Fits(b, m, a) ==> Offers(b, m, a, b.buffer + Padding(b.buffer, a))
      ensures forall x :: Offers(b, m, a, x) ==> Fits(b, m, a) && b.buffer + Padding(b.buffer, a) <= x
    {
      FitsIsOffer(b, m, a);
    }
  }

  lemma NoneFitsNoOffer(bs: seq<Block>, m: nat, a: nat)
    requires 0 < a
    ensures (forall i :: 0 <= i < |bs| ==> !Fits(bs[i], m, a)) ==> forall b, x :: b in bs ==> !Offers(b, m, a, x)
  {
    hide Padding;
    hide Offers;
    hide Fits;
    if forall i :: 0 <= i < |bs| ==> !Fits(bs[i], m, a) {
      forall b, x | b in bs ensures !Offers(b, m, a, x) {
        FitsIsOffer(b, m, a);
      }
    }
  }

  /** What malloc answers, by addresses: with m the least multiple of 4 that is not below the size, it refuses
      exactly if the size is 0 or no free block has m bytes at a multiple of the alignment; otherwise it
      gives the first such address in a smallest such block. */
  lemma MallocExactly(bs: seq<Block>, size: nat, align: nat, bs': seq<Block>, r: Option<nat>, m: nat)
    requires MallocStep(bs, size, align, bs', r) && size <= m < size + 4 && m % 4 == 0
    ensures var a := if align < 4 then 4 else align;
            && (r.None? <==> size == 0 || forall b, x :: b in bs ==> !Offers(b, m, a, x))
            && (r.None? ==> bs' == bs)
            && (r.Some? ==> exists b :: Chosen(bs, b, m, a, r.value))
  {
    hide Carve;
    hide Padding;
    hide Offers;
    hide Fits;
    hide BestFit;
    assert m == RoundUp4(size);
    NoneFitsNoOffer(bs, m, EffectiveAlign(align));
    if r.Some? {
      var i := MallocChoiceBest(bs, size, align, bs', r.value);
      BestIsChosen(bs, i, m, EffectiveAlign(align));
      ChosenOffers(bs, bs[i], m, EffectiveAlign(align), r.value);
    }
  }

  lemma ChosenOffers(bs: seq<Block>, b: Block, m: nat, a: nat, ptr: nat)
    requires 0 < a && Chosen(bs, b, m, a, ptr)
    ensures b in bs && Offers(b, m, a, ptr)
  {
  }

  lemma MallocChoiceBest(bs: seq<Block>, size: nat, align: nat, bs': seq<Block>, ptr: nat) returns (i: nat)
    requires MallocStep(bs, size, align, bs', Some(ptr))
    ensures 0 < size && i < |bs| && BestFit(bs, i, RoundUp4(size), EffectiveAlign(align))
    ensures bs' == Carve(bs, i, RoundUp4(size), EffectiveAlign(align))
    ensures ptr == bs[i].buffer + Padding(bs[i].buffer, EffectiveAlign(align))
  {
    hide Carve;
    hide Padding;
    hide Fits;
    var n, a := RoundUp4(size), EffectiveAlign(align);
    i :| BestFit(bs, i, n, a) && bs' == Carve(bs, i, n, a) && Some(ptr) == Some(bs[i].buffer + Padding(bs[i].buffer, a));
  }

  /** Block u of m bytes at ptr, cut out of block b: fewer bytes than a header and a word lie in front of them
      in it, and no more than a header behind them. */
  ghost predicate Tight(b: Block, u: Block, ptr: nat, m: nat) {
    && b.addr <= u.addr < u.buffer && u.End() <= b.End() && u.used
    && u.buffer <= ptr < u.buffer + MCB_SIZE + 4 && ptr + m <= u.End() <= ptr + m + MCB_SIZE
  }

  /** What malloc takes: just one block more is used than before, cut out of a free one, with little but the m
      bytes at the address given. */
  lemma MallocTakes(bs: seq<Block>, size: nat, align: nat, bs': seq<Block>, ptr: nat, m: nat, lo: nat, hi: nat)
    requires WellFormed(bs, lo, hi) && MallocStep(bs, size, align, bs', Some(ptr)) && size <= m < size + 4 && m % 4 == 0
    ensures exists b, u :: b in bs && !b.used && u !in Used(bs) && Used(bs') == Used(bs) + {u} && Tight(b, u, ptr, m)
  {
    hide Carve;
    hide Padding;
    hide Used;
    hide MallocStep;
    assert m == RoundUp4(size);
    var i := MallocChoice(bs, size, align, bs', ptr);
    var u := CarveTakes(bs, i, m, EffectiveAlign(align), lo, hi);
    assert !bs[i].used;
  }

  lemma CarveTakes(bs: seq<Block>, i: nat, m: nat, a: nat, lo: nat, hi: nat) returns (u: Block)
    requires Tiling(bs, lo, hi) && i < |bs| && 0 < a && 0 < m && Fits(bs[i], m, a)
    ensures u !in Used(bs) && Used(Carve(bs, i, m, a)) == Used(bs) + {u}
    ensures Tight(bs[i], u, bs[i].buffer + Padding(bs[i].buffer, a), m)
  {
    FirstHeader(bs, lo, hi, i);
    CutIsTight(bs[i], m, a);
    hide Tiling;
    hide Carve;
    hide Cut;
    hide Padding;
    hide Used;
    CarveUsed(bs, i, m, a);
    u := Cut(bs[i], m, a)[|HeadPart(bs[i], a)|];
    PieceApart(bs, lo, hi, i, u);
    assert u !in Used(bs) by { assert !Apart(u, u); }
  }

  lemma CutIsTight(b: Block, m: nat, a: nat)
    requires 0 < a && 0 < m && Fits(b, m, a)
    ensures |HeadPart(b, a)| < |Cut(b, m, a)|
    ensures var u, ptr := Cut(b, m, a)[|HeadPart(b, a)|], b.buffer + Padding(b.buffer, a);
            u.buffer <= ptr < u.buffer + MCB_SIZE + 4 && ptr + m <= u.End() <= ptr + m + MCB_SIZE
  {
  }
}
