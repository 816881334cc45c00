/** The stack over the dynamic array. */
module DynStack {
  import opened Chains
  import opened Division
  import opened Words
  import opened DynArr

  const MAX: nat := 0x1_0000

  class Stack {
    const arr: Array
    var sp: nat

    ghost predicate Valid()
      reads this, arr, Nodes(arr.tables)
    {
      arr.Valid() && sp <= arr.length
    }

    ghost function Item(pos: nat): (item: seq<Word>)
      requires arr.Valid() && pos < arr.length
      reads arr, Nodes(arr.tables), Nodes(arr.bufs)
      ensures |item| == arr.words
    {
      arr.ItemPlace(pos);
      arr.bufs[Row(pos, arr.itemNum)][arr.Offset(pos)..arr.Offset(pos) + arr.words]
    }

    /** The items, oldest first. */
    ghost function Items(): (items: seq<seq<Word>>)
      requires Valid()
      reads this, arr, Nodes(arr.tables), Nodes(arr.bufs)
      ensures |items| == sp && forall p :: 0 <= p < sp ==> items[p] == Item(p)
    {
      seq(sp, p requires 0 <= p < sp && Valid() reads this, arr, Nodes(arr.tables), Nodes(arr.bufs) => Item(p))
    }

    constructor (words: nat, itemNum: nat, tableNum: nat)
      requires words > 0 && itemNum > 0 && tableNum > 0
      ensures Valid() && Items() == [] && fresh(arr) && arr.words == words
    {
      arr := new Array(words, itemNum, tableNum);
      sp := 0;
    }

    /** vsf_dynstack_get: the position goes through 16 bits. */
    method Get(offset: nat) returns (cell: array?<Word>, at: nat)
      requires Valid()
      ensures Valid() && Items() == old(Items())
      ensures offset >= sp ==> cell == null
      ensures offset < sp ==>
                var pos := (sp - offset - 1) % MAX;
                Row(pos, arr.itemNum) < |arr.bufs| && cell == arr.bufs[Row(pos, arr.itemNum)] && at == arr.Offset(pos)
                && at + arr.words <= cell.Length
    {
      cell, at := null, 0;
      if offset < sp {
        cell, at := arr.Get((sp - offset - 1) % MAX);
        ItemsStay();
      }
    }

    /** memcpy of one item into its cell: no other item changes. */
    method Store(cell: array<Word>, at: nat, item: seq<Word>, ghost pos: nat)
      requires Valid() && |item| == arr.words && pos < arr.length
      requires Row(pos, arr.itemNum) < |arr.bufs| && cell == arr.bufs[Row(pos, arr.itemNum)] && at == arr.Offset(pos)
      requires at + arr.words <= cell.Length
      modifies cell
      ensures Valid() && Item(pos) == item
      ensures forall q :: 0 <= q < arr.length && q != pos ==> Item(q) == old(Item(q))
    {
      forall k | 0 <= k < |item| {
        cell[at + k] := item[k];
      }
      forall q | 0 <= q < arr.length && q != pos ensures Item(q) == old(Item(q)) {
        arr.ItemPlace(q);
        arr.ItemsDisjoint(pos, q);
      }
    }

    /** What is stored in cells that were there before growth is there after it. */
    twostate lemma ItemsStay()
      requires old(arr.Valid()) && arr.Valid() && arr.Grown() && old(arr.length) <= arr.length
      requires forall b :: b in old(arr.bufs) ==> b[..] == old(b[..])
      ensures forall q :: 0 <= q < old(arr.length) ==> Item(q) == old(Item(q))
    {
      forall q | 0 <= q < old(arr.length) ensures Item(q) == old(Item(q)) {
        ItemStays(q);
      }
    }

    twostate lemma ItemStays(q: nat)
      requires old(arr.Valid()) && arr.Valid() && arr.Grown() && q < old(arr.length) <= arr.length
      requires forall b :: b in old(arr.bufs) ==> b[..] == old(b[..])
      ensures Item(q) == old(Item(q))
    {
      hide Linked;
      hide Filled;
      hide Distinct;
      hide Times;
      hide Blocks;
      hide Row;
      hide Col;
      RowBound(q, old(arr.length), arr.itemNum);
      arr.ItemPlace(q);
      var k := Row(q, arr.itemNum);
      var b := old(arr.bufs[k]);
      assert arr.bufs[k] == b;
      assert b in old(arr.bufs);
      var o := arr.Offset(q);
      assert b[o..o + arr.words] == b[..][o..o + arr.words];
      assert old(b[o..o + arr.words]) == old(b[..])[o..o + arr.words];
    }

    /** Room for num items more; nothing that is on the stack moves. */
    method Reserve(num: nat, budget: nat) returns (ok: bool)
      requires Valid()
      modifies arr, Nodes(arr.tables)
      ensures Valid() && Items() == old(Items()) && (ok ==> sp + num <= arr.length)
      ensures arr.Grown()
    {
      ok := true;
      if arr.length < sp + num {
        ok := arr.SetSize(sp + num, budget);
        ItemsStay();
      }
    }

    /** One item of the stack is written, counted from the top. */
    method StoreAt(offset: nat, item: seq<Word>)
      requires Valid() && |item| == arr.words && offset < sp <= MAX
      modifies Nodes(arr.bufs)
      ensures Valid() && Items() == old(Items())[sp - offset - 1 := item]
    {
      hide Linked;
      hide Filled;
      hide Distinct;
      hide Row;
      hide Col;
      hide Times;
      ghost var pos: nat := sp - offset - 1;
      var cell, at := Get(offset);
      assert pos % MAX == pos;
      assert Row(pos % MAX, arr.itemNum) == Row(pos, arr.itemNum);
      assert pos < arr.length;
      assert at == arr.Offset(pos);
      assert at + arr.words <= cell.Length;
      Store(cell, at, item, pos);
    }

    /** The copies into the top num items. */
    method FillTop(item: seq<Word>, num: nat)
      requires Valid() && |item| == arr.words && num <= sp <= MAX
      modifies Nodes(arr.bufs)
      ensures Valid() && Items() == old(Items())[..sp - num] + seq(num, i => item)
    {
      hide Linked;
      hide Filled;
      hide Distinct;
      ghost var was := Items();
      ghost var base := sp - num;
      var todo: nat := num;
      while todo > 0
        invariant Valid() && todo <= num
        invariant forall q :: 0 <= q < base ==> Items()[q] == was[q]
        invariant forall q :: base <= q < sp - todo ==> Items()[q] == item
      {
        StoreAt(todo - 1, item);
        todo := todo - 1;
      }
    }

    /** vsf_dynstack_push: the item goes on the stack num times, or the memory ends and nothing changes. */
    method Push(item: seq<Word>, num: nat, budget: nat) returns (ok: bool)
      requires Valid() && |item| == arr.words && sp + num <= MAX
      modifies this, arr, Nodes(arr.tables), Nodes(arr.bufs)
      ensures Valid() && arr.Grown()
      ensures fresh(Nodes(arr.bufs) - old(Nodes(arr.bufs))) && fresh(Nodes(arr.tables) - old(Nodes(arr.tables)))
      ensures Items() == if ok then old(Items()) + seq(num, i => item) else old(Items())
    {
      ok := Reserve(num, budget);
      if !ok {
        return;
      }
      Enlarge(num);
      FillTop(item, num);
    }

    method Enlarge(num: nat)
      requires Valid() && sp + num <= arr.length
      modifies this
      ensures Valid() && sp == old(sp) + num && Items()[..old(sp)] == old(Items())
    {
      hide Row;
      hide Col;
      hide Times;
      sp := sp + num;
      ItemsStay();
    }

    /** vsf_dynstack_pop: the num newest items go; the oldest of them is handed out. */
    method Pop(num: nat) returns (cell: array?<Word>, at: nat)
      requires Valid() && sp <= MAX
      modifies this`sp
      ensures Valid()
      ensures cell == null <==> num == 0 || old(sp) < num
      ensures if cell == null then sp == old(sp) && Items() == old(Items()) else sp == old(sp) - num && Items() == old(Items())[..sp]
      ensures cell != null ==> cell in arr.bufs && at + arr.words <= cell.Length && cell[at..at + arr.words] == old(Items())[sp]
    {
      cell, at := null, 0;
      if sp >= num && num > 0 {
        cell, at := Get(num - 1);
        TopIs(num, cell, at);
        Lower(num);
      }
    }

    lemma TopIs(num: nat, cell: array<Word>, at: nat)
      requires Valid() && 0 < num <= sp <= MAX
      requires var pos := (sp - num) % MAX;
               Row(pos, arr.itemNum) < |arr.bufs| && cell == arr.bufs[Row(pos, arr.itemNum)] && at == arr.Offset(pos)
      ensures at + arr.words <= cell.Length && cell[at..at + arr.words] == Items()[sp - num]
    {
      assert (sp - num) % MAX == sp - num;
      arr.ItemPlace(sp - num);
    }

    method Lower(num: nat)
      requires Valid() && num <= sp
      modifies this`sp
      ensures Valid() && sp == old(sp) - num && Items() == old(Items())[..sp]
    {
      hide Row;
      hide Col;
      hide Times;
      sp := sp - num;
      ItemsStay();
    }

    /** The next item of a block, which starts at the word from. */
    method PushPiece(data: seq<Word>, from: nat, budget: nat, ghost i: nat, ghost num: nat, ghost was: seq<seq<Word>>) returns (ok: bool)
      requires Valid() && sp < MAX && i < num && num * arr.words <= |data| && from == i * arr.words
      requires i * arr.words <= |data| && Items() == was + Chop(data, arr.words, i)
      modifies this, arr, Nodes(arr.tables), Nodes(arr.bufs)
      ensures Valid() && fresh(Nodes(arr.bufs) - old(Nodes(arr.bufs))) && fresh(Nodes(arr.tables) - old(Nodes(arr.tables)))
      ensures (i + 1) * arr.words == from + arr.words <= |data|
      ensures Items() == was + Chop(data, arr.words, if ok then i + 1 else i)
    {
      hide Chop;
      hide Linked;
      hide Filled;
      hide Distinct;
      hide Row;
      hide Col;
      hide Times;
      ChopNext(data, arr.words, i, num, was);
      ok := Push(data[from..from + arr.words], 1, budget);
    }

    /** vsf_dynstack_push_ext: a block of len bytes goes on the stack, item after item; data is what is in
        memory from the block on, up to a whole item. When the memory ends the items before stay. */
    method PushExt(data: seq<Word>, len: nat, budgets: seq<nat>) returns (ok: bool, ghost done: nat)
      requires Valid() && sp + Blocks((len + 3) / 4, arr.words) <= MAX
      requires Blocks((len + 3) / 4, arr.words) * arr.words <= |data| && Blocks((len + 3) / 4, arr.words) <= |budgets|
      modifies this, arr, Nodes(arr.tables), Nodes(arr.bufs)
      ensures Valid()
      ensures done <= Blocks((len + 3) / 4, arr.words) && (ok ==> done == Blocks((len + 3) / 4, arr.words))
      ensures done * arr.words <= |data| && Items() == old(Items()) + Chop(data, arr.words, done)
    {
      hide Chop;
      hide Blocks;
      hide Linked;
      hide Filled;
      hide Distinct;
      hide Row;
      hide Col;
      hide Times;
      var num := Blocks((len + 3) / 4, arr.words);
      ghost var was := Items();
      done := 0;
      ChopNone(data, arr.words, was);
      var i := 0;
      var from := 0;
      ok := true;
      while i < num
        invariant 0 <= i == done <= num && ok && Valid() && from == i * arr.words
        invariant fresh(Nodes(arr.bufs) - old(Nodes(arr.bufs))) && fresh(Nodes(arr.tables) - old(Nodes(arr.tables)))
        invariant done * arr.words <= |data| && Items() == was + Chop(data, arr.words, done)
      {
        ok := PushPiece(data, from, budgets[i], i, num, was);
        if !ok {
          return;
        }
        i := i + 1;
        from := from + arr.words;
        done := done + 1;
      }
    }

    /** One round of vsf_dynstack_pop_ext: an item goes, and its first r words are handed out. */
    method PopSome(r: nat) returns (ok: bool, words: seq<Word>)
      requires Valid() && sp <= MAX && r <= arr.words
      modifies this`sp
      ensures Valid() && (ok <==> old(sp) > 0)
      ensures if !ok then sp == old(sp) && Items() == old(Items())
              else sp == old(sp) - 1 && Items() == old(Items())[..sp] && words == old(Items())[sp][..r]
    {
      words := [];
      var cell, at := Pop(1);
      ok := cell != null;
      if ok {
        words := cell[at..at + r];
        assert words == cell[at..at + arr.words][..r];
      }
    }

    /** vsf_dynstack_pop_ext: the last len bytes, rounded up to words, come back; it fails exactly if there
        are too few items, and then the stack is empty. */
    method PopExt(len: nat) returns (ok: bool, words: seq<Word>)
      requires Valid() && sp <= MAX
      modifies this`sp
      ensures Valid() && (ok <==> Blocks((len + 3) / 4, arr.words) <= old(sp))
      ensures !ok ==> Items() == []
      ensures ok ==> (Items(), words) == TakeWords(old(Items()), arr.words, (len + 3) / 4)
    {
      hide TakeWords;
      hide Blocks;
      hide Row;
      hide Col;
      hide Times;
      var num: nat := (len + 3) / 4;
      ghost var w := num;
      ghost var target := TakeWords(Items(), arr.words, w);
      ok, words := true, [];
      assert target.1 + words == target.1;
      while num > 0
        invariant Valid() && num <= w && sp <= MAX
        invariant Blocks(num, arr.words) - sp == Blocks(w, arr.words) - old(sp)
        invariant TakeWords(Items(), arr.words, num).0 == target.0
        invariant TakeWords(Items(), arr.words, num).1 + words == target.1
        invariant ok
      {
        ghost var items := Items();
        LastItem(num, arr.words);
        var r: nat := if num % arr.words == 0 then arr.words else num % arr.words;
        var part: seq<Word>;
        ok, part := PopSome(r);
        if !ok {
          return;
        }
        TakeTop(items, arr.words, num, words);
        words := part + words;
        num := num - r;
      }
      TakeNone(Items(), arr.words);
      assert [] + words == words;
    }

    /** A block pushed and popped again comes back as it was, and so does the stack; it fails only if the
        memory ends on the way. */
    method PushAndPop(data: seq<Word>, len: nat, budgets: seq<nat>) returns (ok: bool, words: seq<Word>)
      requires Valid() && sp + Blocks((len + 3) / 4, arr.words) <= MAX
      requires Blocks((len + 3) / 4, arr.words) * arr.words <= |data| && Blocks((len + 3) / 4, arr.words) <= |budgets|
      modifies this, arr, Nodes(arr.tables), Nodes(arr.bufs)
      ensures Valid()
      ensures ok ==> (len + 3) / 4 <= |data| && words == data[..(len + 3) / 4]
      ensures ok ==> Items() == old(Items()) && sp == old(sp)
    {
      hide Blocks;
      hide Chop;
      hide TakeWords;
      hide Row;
      hide Col;
      hide Times;
      ghost var was := Items();
      ghost var done: nat;
      words := [];
      ok, done := PushExt(data, len, budgets);
      if ok {
        PushThenPop(was, data, arr.words, (len + 3) / 4);
        ok, words := PopExt(len);
      }
    }
  }

  lemma TakeNone(items: seq<seq<Word>>, n: nat)
    requires n > 0
    ensures TakeWords(items, n, 0) == (items, []) && Blocks(0, n) == 0
  {
    BlocksOnly(0, n, 0);
  }

  lemma TakeTop(items: seq<seq<Word>>, n: nat, w: nat, words: seq<Word>)
    requires n > 0 && w > 0 && items != [] && |items[|items| - 1]| == n
    ensures var r := if w % n == 0 then n else w % n;
            && r <= w && r <= n
            && TakeWords(items, n, w).0 == TakeWords(items[..|items| - 1], n, w - r).0
            && TakeWords(items, n, w).1 + words == TakeWords(items[..|items| - 1], n, w - r).1 + (items[|items| - 1][..r] + words)
  {
    LastItem(w, n);
  }

  lemma ChopNone(data: seq<Word>, n: nat, was: seq<seq<Word>>)
    ensures was + Chop(data, n, 0) == was
  {
  }

  lemma ChopNext(data: seq<Word>, n: nat, i: nat, num: nat, was: seq<seq<Word>>)
    requires i < num && num * n <= |data|
    ensures 0 <= i * n && (i + 1) * n == i * n + n <= |data|
    ensures was + Chop(data, n, i) + seq(1, j => data[i * n..i * n + n]) == was + Chop(data, n, i + 1)
  {
    PieceBounds(n, i, num);
    ChopOne(data, n, i);
    assert seq(1, j => data[i * n..i * n + n]) == [data[i * n..i * n + n]];
    hide Chop;
  }

  lemma PieceBounds(n: nat, i: nat, num: nat)
    requires i < num
    ensures 0 <= i * n && (i + 1) * n == i * n + n <= num * n
  {
    var k := num - i - 1;
    assert num * n == (i * n + n) + k * n;
    assert k * n >= 0;
  }

  lemma ChopOne(data: seq<Word>, n: nat, i: nat)
    requires 0 <= i * n && (i + 1) * n == i * n + n <= |data|
    ensures Chop(data, n, i + 1) == Chop(data, n, i) + [data[i * n..i * n + n]]
  {
  }
}
