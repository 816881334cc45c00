/** The two-level dynamic array: a list of tables of buffers, which grows without moving a cell. */
module DynArr {
  import opened Chains
  import opened Division
  import opened Words

  /** A table: its slots are the pointers that follow the list node. */
  class Table {
    var next: Table?
    var slots: seq<array?<Word>>

    constructor (n: nat)
      ensures next == null && |slots| == n
    {
      next, slots := null, seq(n, i => null);
    }
  }

  ghost predicate Linked(c: seq<Table>, head: Table?)
    reads Nodes(c)
  {
    && head == (if c == [] then null else c[0])
    && (forall i :: 0 <= i < |c| - 1 ==> c[i].next == c[i + 1])
    && (|c| > 0 ==> c[|c| - 1].next == null)
  }

  lemma NextOf(c: seq<Table>, k: nat)
    requires c != [] && Linked(c, c[0]) && k < |c|
    ensures c[k].next == if k + 1 < |c| then c[k + 1] else null
  {
  }

  lemma LinkedAfterAppend(c: seq<Table>, head: Table?, t: Table)
    requires Distinct(c) && t !in c && head == (if c == [] then t else c[0]) && t.next == null
    requires forall i :: 0 <= i < |c| - 1 ==> c[i].next == c[i + 1]
    requires c != [] ==> c[|c| - 1].next == t
    ensures Linked(c + [t], head) && Distinct(c + [t])
  {
  }

  /** The table of buffer k, and its slot there. */
  function Row(k: nat, n: nat): nat
    requires n > 0
  {
    k / n
  }

  function Col(k: nat, n: nat): (j: nat)
    requires n > 0
    ensures j < n
  {
    k % n
  }

  /** Slot k of all slots, table after table, is buffer k. */
  ghost predicate Placed(tables: seq<Table>, bufs: seq<array<Word>>, n: nat)
    requires n > 0
    reads Nodes(tables)
  {
    && (forall i :: 0 <= i < |tables| ==> |tables[i].slots| == n)
    && (forall k :: 0 <= k < |bufs| ==> Row(k, n) < |tables| && tables[Row(k, n)].slots[Col(k, n)] == bufs[k])
  }

  ghost predicate Filled(tables: seq<Table>, bufs: seq<array<Word>>, n: nat)
    requires n > 0
    reads Nodes(tables)
  {
    |tables| == Blocks(|bufs|, n) && Placed(tables, bufs, n)
  }

  /** The place of the next buffer: in the last table, or in a new one if that is full. */
  lemma NextPlace(b: nat, n: nat)
    requires n > 0 && b > 0
    ensures if (b - 1) % n + 1 == n then b / n == Blocks(b, n) && b % n == 0 && Blocks(b + 1, n) == Blocks(b, n) + 1
            else b / n == Blocks(b, n) - 1 && b % n == (b - 1) % n + 1 && Blocks(b + 1, n) == Blocks(b, n)
    ensures (b - 1) / n == Blocks(b, n) - 1
  {
    var i, j := (b - 1) / n, (b - 1) % n;
    assert b - 1 == i * n + j;
    assert (i + 1) * n == i * n + n;
    DividedNext(b - 1, n);
    BlocksOnly(b, n, i + 1);
    if j + 1 == n {
      assert (i + 2) * n == i * n + n + n;
      BlocksOnly(b + 1, n, i + 2);
    } else {
      BlocksOnly(b + 1, n, i + 1);
    }
  }

  lemma FirstPlace(n: nat)
    requires n > 0
    ensures Blocks(0, n) == 0 && Blocks(1, n) == 1 && 0 / n == 0 && 0 % n == 0
  {
    BlocksOnly(0, n, 0);
    BlocksOnly(1, n, 1);
  }

  lemma PlaceOnce(k: nat, b: nat, n: nat)
    requires n > 0 && k / n == b / n && k % n == b % n
    ensures k == b
  {
    assert k == (k / n) * n + k % n && b == (b / n) * n + b % n;
  }

  lemma OtherPlaces(b: nat, n: nat)
    requires n > 0
    ensures forall k :: 0 <= k < b ==> Row(k, n) != Row(b, n) || Col(k, n) != Col(b, n)
  {
    forall k | 0 <= k < b ensures Row(k, n) != Row(b, n) || Col(k, n) != Col(b, n) {
      if k / n == b / n && k % n == b % n {
        PlaceOnce(k, b, n);
      }
    }
  }

  lemma PlacedAfter(tables: seq<Table>, b: seq<array<Word>>, n: nat, buffer: array<Word>)
    requires n > 0 && forall i :: 0 <= i < |tables| ==> |tables[i].slots| == n
    requires forall k :: 0 <= k < |b| ==> Row(k, n) < |tables| && tables[Row(k, n)].slots[Col(k, n)] == b[k]
    requires Row(|b|, n) < |tables| && tables[Row(|b|, n)].slots[Col(|b|, n)] == buffer
    ensures Placed(tables, b + [buffer], n)
  {
  }

  class Array {
    const words: nat
    const itemNum: nat
    const tableNum: nat
    var table: Table?
    var length: nat
    ghost var tables: seq<Table>
    ghost var bufs: seq<array<Word>>

    ghost predicate Sizes() {
      words > 0 && itemNum > 0 && tableNum > 0
    }

    /** The tables and buffers fit together. */
    ghost predicate Shape()
      reads this, Nodes(tables)
    {
      && Sizes() && Distinct(tables) && Linked(tables, table) && Filled(tables, bufs, tableNum)
      && Distinct(bufs) && forall k :: 0 <= k < |bufs| ==> bufs[k].Length == itemNum * words
    }

    ghost predicate Valid()
      reads this, Nodes(tables)
    {
      Shape() && |bufs| == Blocks(length, itemNum)
    }

    constructor (words: nat, itemNum: nat, tableNum: nat)
      requires words > 0 && itemNum > 0 && tableNum > 0
      ensures Valid() && length == 0 && bufs == [] && tables == []
      ensures this.words == words && this.itemNum == itemNum && this.tableNum == tableNum
    {
      this.words, this.itemNum, this.tableNum := words, itemNum, tableNum;
      table, length, tables, bufs := null, 0, [], [];
      FirstPlace(itemNum);
      FirstPlace(tableNum);
    }

    /** Down the list of tables. */
    method Walk(n: nat) returns (t: Table)
      requires Distinct(tables) && Linked(tables, table) && n < |tables|
      ensures t == tables[n]
    {
      t := table;
      var i := 0;
      while i < n
        invariant 0 <= i <= n && t == tables[i]
      {
        NextOf(tables, i);
        t := t.next;
        i := i + 1;
      }
    }

    /** Where the walk over the buffers stands: after the last one there is. */
    ghost predicate At(t: Table?, idx: nat)
      requires Sizes()
      reads this
    {
      if bufs == [] then tables == [] && t == null && idx == tableNum - 1
      else tables != [] && t == tables[|tables| - 1] && idx == (|bufs| - 1) % tableNum
    }

    /** A table is put in behind t, or first. */
    method AddTable(t: Table?, added: Table)
      requires Sizes() && Distinct(tables) && Linked(tables, table) && Placed(tables, bufs, tableNum)
      requires added !in tables && added.next == null && |added.slots| == tableNum
      requires if tables == [] then t == null else t == tables[|tables| - 1]
      modifies this`table, this`tables, Nodes(tables)`next
      ensures Distinct(tables) && Linked(tables, table) && Placed(tables, bufs, tableNum) && tables == old(tables) + [added]
    {
      ghost var c := tables;
      if t == null {
        table := added;
      } else {
        t.next := added;
      }
      tables := c + [added];
      LinkedAfterAppend(c, table, added);
    }

    /** The next buffer goes into its slot. */
    method SetSlot(t: Table, idx: nat, buffer: array<Word>)
      requires Sizes() && Distinct(tables) && Linked(tables, table) && Placed(tables, bufs, tableNum)
      requires Row(|bufs|, tableNum) < |tables| && t == tables[Row(|bufs|, tableNum)] && idx == Col(|bufs|, tableNum)
      modifies this`bufs, t`slots
      ensures Linked(tables, table) && Placed(tables, bufs, tableNum) && bufs == old(bufs) + [buffer]
    {
      ghost var b := bufs;
      hide Row;
      hide Col;
      OtherPlaces(|b|, tableNum);
      t.slots := t.slots[idx := buffer];
      assert forall i :: 0 <= i < |tables| && i != Row(|b|, tableNum) ==> tables[i] != t;
      bufs := b + [buffer];
      PlacedAfter(tables, b, tableNum, buffer);
      hide Placed;
    }

    lemma PlaceOfNext(t: Table?, idx: nat)
      requires Shape() && At(t, idx)
      ensures if idx + 1 == tableNum then |bufs| / tableNum == |tables| && |bufs| % tableNum == 0 && Blocks(|bufs| + 1, tableNum) == |tables| + 1
              else tables != [] && |bufs| / tableNum == |tables| - 1 && |bufs| % tableNum == idx + 1 && Blocks(|bufs| + 1, tableNum) == |tables|
      ensures if tables == [] then t == null else t == tables[|tables| - 1]
      ensures |tables| == Blocks(|bufs|, tableNum)
    {
      if bufs != [] {
        NextPlace(|bufs|, tableNum);
      } else {
        FirstPlace(tableNum);
        DividedNext(0, tableNum);
      }
    }

    /** One more buffer, and a table for it if the last one is full; budget is how many more blocks the
        buffer manager has. */
    method GrowOne(t: Table?, idx: nat, budget: nat) returns (ok: bool, t': Table?, idx': nat, budget': nat)
      requires Shape() && At(t, idx)
      modifies this`table, this`tables, this`bufs, Nodes(tables)
      ensures Shape() && (ok ==> At(t', idx'))
      ensures if ok then |bufs| == |old(bufs)| + 1 && bufs[..|old(bufs)|] == old(bufs) && fresh(bufs[|old(bufs)|])
              else bufs == old(bufs)
      ensures fresh(Nodes(tables) - old(Nodes(tables)))
    {
      hide Linked;
      hide Placed;
      hide Blocks;
      ok, t', idx', budget' := false, t, idx + 1, budget;
      PlaceOfNext(t, idx);
      var added: Table? := null;
      if idx' == tableNum {
        if budget' == 0 {
          return;
        }
        budget' := budget' - 1;
        added := new Table(tableNum);
        idx' := 0;
      }
      if budget' == 0 {
        return;
      }
      budget' := budget' - 1;
      var buffer := new Word[itemNum * words];
      if added != null {
        AddTable(t', added);
        t' := added;
      }
      SetSlot(t', idx', buffer);
      ok := true;
    }

    /** What growth keeps: the buffers that are there, and the tables but for fresh ones. */
    twostate predicate Grown()
      reads this, Nodes(tables)
    {
      && |old(bufs)| <= |bufs| && bufs[..|old(bufs)|] == old(bufs) && fresh(Nodes(tables) - old(Nodes(tables)))
      && forall k :: |old(bufs)| <= k < |bufs| ==> fresh(bufs[k])
    }

    /** The loop that adds buffers, until there are more of them or the memory ends. */
    method GrowBy(more: nat, t: Table?, idx: nat, budget: nat) returns (ok: bool)
      requires Shape() && At(t, idx) && length == |bufs| * itemNum
      modifies this, Nodes(tables)
      ensures Shape() && Grown() && length == |bufs| * itemNum
      ensures ok ==> |bufs| == |old(bufs)| + more
    {
      hide Linked;
      hide Filled;
      hide Distinct;
      var at, place: nat, left, todo: nat := t, idx, budget, more;
      ok := true;
      while todo > 0
        invariant Shape() && At(at, place) && length == |bufs| * itemNum && |bufs| + todo == |old(bufs)| + more
        invariant Grown() && ok
      {
        ghost var before := bufs;
        WholeBuffers(|bufs|, itemNum);
        ok, at, place, left := GrowOne(at, place, left);
        if !ok {
          return;
        }
        assert bufs[..|old(bufs)|] == before[..|old(bufs)|];
        length := length + itemNum;
        todo := todo - 1;
      }
    }

    /** The growing branch of vsf_dynarr_set_size. No buffer that is there is moved or written; when the
        memory ends the array keeps what it got. */
    method SetSize(size: nat, budget: nat) returns (ok: bool)
      requires Valid() && length <= size
      modifies this, Nodes(tables)
      ensures Valid() && Grown() && length >= old(length) && (ok ==> length == size)
    {
      hide Linked;
      hide Filled;
      hide Distinct;
      hide Blocks;
      var num, had := Blocks(size, itemNum), Blocks(length, itemNum);
      RoundedUp(length, size, itemNum);
      length := had * itemNum;
      if num > had {
        if had == 0 {
          EmptyTables();
          ok := GrowBy(num, table, tableNum - 1, budget);
        } else {
          PlaceOfLast();
          var t := Walk((had - 1) / tableNum);
          ok := GrowBy(num - had, t, (had - 1) % tableNum, budget);
        }
        WholeBuffers(|bufs|, itemNum);
        if !ok {
          GrownLength(old(length), had, |bufs|, itemNum);
          return;
        }
      }
      length := size;
      ok := true;
    }

    /** The word at which an item starts in its buffer. */
    function Offset(pos: nat): nat
      requires itemNum > 0
    {
      Times(Col(pos, itemNum), words)
    }

    /** Where item pos is: in which buffer and at which word. */
    method Get(pos: nat) returns (cell: array?<Word>, at: nat)
      requires Valid()
      ensures Valid()
      ensures pos >= length <==> cell == null
      ensures pos < length ==> Row(pos, itemNum) < |bufs| && cell == bufs[Row(pos, itemNum)] && at == Offset(pos)
      ensures pos < length ==> at + words <= cell.Length
    {
      hide Times;
      cell, at := null, 0;
      if pos < length {
        ItemPlace(pos);
        var k := Row(pos, itemNum);
        var t := Walk(Row(k, tableNum));
        cell := t.slots[Col(k, tableNum)];
        at := Offset(pos);
      }
    }

    lemma ItemPlace(pos: nat)
      requires Valid() && pos < length
      ensures Row(pos, itemNum) < |bufs| && Row(Row(pos, itemNum), tableNum) < |tables|
      ensures tables[Row(Row(pos, itemNum), tableNum)].slots[Col(Row(pos, itemNum), tableNum)] == bufs[Row(pos, itemNum)]
      ensures Offset(pos) + words <= bufs[Row(pos, itemNum)].Length
    {
      BlocksCover(length, itemNum);
      Smaller(pos, itemNum, |bufs|);
      hide Blocks;
      InRow(Col(pos, itemNum), itemNum, words);
    }

    /** Two items share no word. */
    lemma ItemsDisjoint(p: nat, q: nat)
      requires Valid() && p < length && q < length && p != q
      ensures Row(p, itemNum) < |bufs| && Row(q, itemNum) < |bufs|
      ensures bufs[Row(p, itemNum)] != bufs[Row(q, itemNum)] || Offset(p) + words <= Offset(q) || Offset(q) + words <= Offset(p)
    {
      ItemPlace(p);
      ItemPlace(q);
      OtherPlaces(p, itemNum);
      OtherPlaces(q, itemNum);
      Apart(Col(p, itemNum), Col(q, itemNum), words);
      hide Row;
      hide Col;
      hide Times;
      hide Blocks;
    }

    lemma EmptyTables()
      requires Shape() && bufs == []
      ensures tables == [] && table == null
    {
      FirstPlace(tableNum);
    }

    lemma PlaceOfLast()
      requires Shape() && bufs != []
      ensures tables != [] && (|bufs| - 1) / tableNum == |tables| - 1
    {
      NextPlace(|bufs|, tableNum);
    }
  }

  lemma RowBound(pos: nat, length: nat, n: nat)
    requires n > 0 && pos < length
    ensures Row(pos, n) < Blocks(length, n)
  {
    BlocksCover(length, n);
    Smaller(pos, n, Blocks(length, n));
  }

  function Times(j: nat, w: nat): nat {
    j * w
  }

  lemma InRow(j: nat, n: nat, w: nat)
    requires j < n
    ensures Times(j, w) + w <= n * w
  {
    assert (n - j) * w == n * w - j * w;
    Multiple(n - j, w);
  }

  lemma Apart(i: nat, j: nat, w: nat)
    ensures i < j ==> Times(i, w) + w <= Times(j, w)
    ensures j < i ==> Times(j, w) + w <= Times(i, w)
  {
    if i < j {
      InRow(i, j, w);
    } else if j < i {
      InRow(j, i, w);
    }
  }

  lemma RoundedUp(length: nat, size: nat, n: nat)
    requires n > 0 && length <= size
    ensures length <= Blocks(length, n) * n && Blocks(length, n) <= Blocks(size, n)
    ensures 0 <= Blocks(length, n) * n && Blocks(Blocks(length, n) * n, n) == Blocks(length, n)
  {
    var a, b := Blocks(length, n), Blocks(size, n);
    BlocksCover(length, n);
    BlocksCover(size, n);
    BlocksOnly(a * n, n, a);
    assert (a - b - 1) * n == a * n - b * n - n;
    Multiple(a - b - 1, n);
    assert a - b - 1 == 0 ==> (a - b - 1) * n == 0;
  }

  lemma WholeBuffers(b: nat, n: nat)
    requires n > 0
    ensures 0 <= b * n && Blocks(b * n, n) == b && (b + 1) * n == b * n + n
  {
    BlocksOnly(b * n, n, b);
  }

  lemma GrownLength(length: nat, had: nat, b: nat, n: nat)
    requires length <= had * n && had <= b
    ensures length <= b * n
  {
    assert b * n == had * n + (b - had) * n;
  }
}
