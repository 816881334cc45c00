/** What several modules share. */
module Wrappers {
  datatype Option<+T> = None | Some(value: T)

  type Byte = b: nat | b < 256

  function Min(a: nat, b: nat): nat {
    if a < b then a else b
  }

  /** --n on an unsigned counter of that many values. */
  function Down(n: nat, width: nat): nat
    requires 0 < width
  {
    if n == 0 then width - 1 else n - 1
  }

  /** An index below 2n, around n. */
  function Around(i: nat, n: nat): nat {
    if i < n then i else i - n
  }
}
