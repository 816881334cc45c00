/** Quotients and remainders by a number that is not fixed. */
module Division {
  lemma Multiple(d: int, n: nat)
    ensures d > 0 ==> d * n >= n
    ensures d < 0 ==> d * n + n <= 0
  {
  }

  /** Quotient and remainder are the only ones. */
  lemma Divided(k: nat, n: nat, i: nat, j: nat)
    requires n > 0 && j < n && k == i * n + j
    ensures k / n == i && k % n == j
  {
    var d := k / n - i;
    assert k == (k / n) * n + k % n;
    assert d * n == j - k % n;
    Multiple(d, n);
  }

  /** One further. */
  lemma DividedNext(k: nat, n: nat)
    requires n > 0
    ensures if k % n + 1 == n then (k + 1) / n == k / n + 1 && (k + 1) % n == 0
            else (k + 1) / n == k / n && (k + 1) % n == k % n + 1
  {
    var i := k / n;
    assert k == i * n + k % n;
    if k % n + 1 == n {
      assert k + 1 == (i + 1) * n + 0;
      Divided(k + 1, n, i + 1, 0);
    } else {
      Divided(k + 1, n, i, k % n + 1);
    }
  }

  /** How many n make up size. */
  function Blocks(size: nat, n: nat): nat
    requires n > 0
  {
    (size + n - 1) / n
  }

  lemma BlocksCover(size: nat, n: nat)
    requires n > 0
    ensures size <= Blocks(size, n) * n < size + n
  {
    var k := size + n - 1;
    assert k == (k / n) * n + k % n;
  }

  lemma BlocksOnly(size: nat, n: nat, b: nat)
    requires n > 0 && size <= b * n < size + n
    ensures Blocks(size, n) == b
  {
    Divided(size + n - 1, n, b, size + n - 1 - b * n);
  }

  lemma Smaller(pos: nat, n: nat, b: nat)
    requires n > 0 && pos < b * n
    ensures pos / n < b
  {
    assert pos == (pos / n) * n + pos % n;
    Multiple(pos / n - b, n);
    assert (pos / n - b) * n < n;
  }
}
