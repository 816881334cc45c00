/** Blocks of words as a stack of items holds them. */
module Words {
  import opened Division

  type Word = w: nat | w < 0x1_0000_0000

  /** The first k items of size n in the words. */
  function Chop(words: seq<Word>, n: nat, k: nat): (items: seq<seq<Word>>)
    requires k * n <= |words|
    ensures |items| == k
    decreases k
  {
    if k == 0 then []
    else
      assert (k - 1) * n <= k * n == (k - 1) * n + n;
      Chop(words, n, k - 1) + [words[(k - 1) * n..k * n]]
  }

  /** The last w words of the items, at most n an item, and what is left of the items. The last item holds
      only what the others leave. */
  function TakeWords(items: seq<seq<Word>>, n: nat, w: nat): (seq<seq<Word>>, seq<Word>)
    requires n > 0
    decreases w
  {
    if w == 0 || items == [] then (items, [])
    else
      var r := if w % n == 0 then n else w % n;
      var top := items[|items| - 1];
      var (rest, words) := TakeWords(items[..|items| - 1], n, if w >= r then w - r else 0);
      (rest, words + if r <= |top| then top[..r] else top)
  }

  /** A block of w words, pushed as items and popped again. */
  lemma {:induction false} PushThenPop(items: seq<seq<Word>>, words: seq<Word>, n: nat, w: nat)
    requires n > 0 && Blocks(w, n) * n <= |words|
    ensures w <= |words| && TakeWords(items + Chop(words, n, Blocks(w, n)), n, w) == (items, words[..w])
    decreases w
  {
    var k := Blocks(w, n);
    BlocksCover(w, n);
    if w == 0 {
      BlocksOnly(0, n, 0);
      assert items + [] == items;
    } else {
      Multiple(k, n);
      var r := if w % n == 0 then n else w % n;
      LastItem(w, n);
      var before := items + Chop(words, n, k - 1);
      assert items + Chop(words, n, k) == before + [words[(k - 1) * n..k * n]];
      PushThenPop(items, words, n, w - r);
      assert words[..w] == words[..w - r] + words[(k - 1) * n..k * n][..r];
    }
  }

  lemma LastItem(w: nat, n: nat)
    requires n > 0 && w > 0
    ensures var r := if w % n == 0 then n else w % n;
            && Blocks(w, n) > 0 && r <= w && (Blocks(w, n) - 1) * n == w - r
            && Blocks(w - r, n) == Blocks(w, n) - 1
  {
    hide Blocks;
    var q := w / n;
    assert w == q * n + w % n;
    if w % n == 0 {
      LastWhole(w, n, q);
    } else {
      LastPart(w, n, q, w % n);
    }
  }

  lemma LastWhole(w: nat, n: nat, q: nat)
    requires n > 0 && w == q * n && w > 0
    ensures q > 0 && n <= w && (q - 1) * n == w - n && Blocks(w, n) == q && Blocks(w - n, n) == q - 1
  {
    hide Blocks;
    Multiple(q, n);
    assert (q - 1) * n + n == q * n;
    BlocksOnly(w, n, q);
    BlocksOnly(w - n, n, q - 1);
  }

  lemma LastPart(w: nat, n: nat, q: nat, r: nat)
    requires 0 < r < n && w == q * n + r
    ensures r <= w && q * n == w - r && Blocks(w, n) == q + 1 && Blocks(w - r, n) == q
  {
    hide Blocks;
    assert (q + 1) * n == q * n + n;
    assert q * n >= 0;
    BlocksOnly(w, n, q + 1);
    BlocksOnly(w - r, n, q);
  }
}
