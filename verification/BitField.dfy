/** buf_get_value and buf_set_value. Bytes and words are given by their bits, lowest first. */
module BitField {
  import opened Wrappers
  import opened Division

  type Octet = b: seq<bool> | |b| == 8 witness NONE
  const NONE: seq<bool> := [false, false, false, false, false, false, false, false]
  type Bits32 = b: seq<bool> | |b| == 32 witness NONE + NONE + NONE + NONE

  // ---------- the operators of the machine ----------

  function Shl(b: seq<bool>, k: nat): (r: seq<bool>)
    ensures |r| == |b| && forall i :: 0 <= i < |b| ==> (r[i] <==> k <= i && b[i - k])
  {
    seq(|b|, i requires 0 <= i < |b| => k <= i && b[i - k])
  }

  function Shr(b: seq<bool>, k: nat): (r: seq<bool>)
    ensures |r| == |b| && forall i :: 0 <= i < |b| ==> (r[i] <==> i + k < |b| && b[i + k])
  {
    seq(|b|, i requires 0 <= i < |b| => i + k < |b| && b[i + k])
  }

  function And(a: seq<bool>, b: seq<bool>): (r: seq<bool>)
    requires |a| == |b|
    ensures |r| == |a| && forall i :: 0 <= i < |a| ==> (r[i] <==> a[i] && b[i])
  {
    seq(|a|, i requires 0 <= i < |a| => a[i] && b[i])
  }

  function Or(a: seq<bool>, b: seq<bool>): (r: seq<bool>)
    requires |a| == |b|
    ensures |r| == |a| && forall i :: 0 <= i < |a| ==> (r[i] <==> a[i] || b[i])
  {
    seq(|a|, i requires 0 <= i < |a| => a[i] || b[i])
  }

  function Not(a: seq<bool>): (r: seq<bool>)
    ensures |r| == |a| && forall i :: 0 <= i < |a| ==> (r[i] <==> !a[i])
  {
    seq(|a|, i requires 0 <= i < |a| => !a[i])
  }

  /** (1 << n) - 1 */
  function Mask(n: nat): (r: Bits32)
    ensures forall i :: 0 <= i < 32 ==> (r[i] <==> i < n)
  {
    seq(32, i => i < n)
  }

  /** A byte as an operand, and what of a result a byte keeps. */
  function Widen(b: Octet): (r: Bits32)
    ensures forall i :: 0 <= i < 32 ==> (r[i] <==> i < 8 && b[i])
  {
    seq(32, i requires 0 <= i < 32 => i < 8 && b[i])
  }

  function Narrow(b: Bits32): (r: Octet)
    ensures forall i :: 0 <= i < 8 ==> r[i] == b[i]
  {
    seq(8, i requires 0 <= i < 8 => b[i])
  }

  function Every(bit: bool): (r: Bits32)
    ensures forall i :: 0 <= i < 32 ==> r[i] == bit
  {
    seq(32, i => bit)
  }

  // ---------- bits of a buffer ----------

  predicate BitAt(bytes: seq<Octet>, i: nat)
    requires i < 8 * |bytes|
  {
    bytes[i / 8][i % 8]
  }

  /** len bits from offset on as a number: no bits above them. */
  function Field(bytes: seq<Octet>, offset: nat, len: nat): (r: Bits32)
    requires len <= 32 && offset + len <= 8 * |bytes|
    ensures forall k :: 0 <= k < 32 ==> (r[k] <==> k < len && BitAt(bytes, offset + k))
  {
    seq(32, k requires 0 <= k < 32 => k < len && BitAt(bytes, offset + k))
  }

  /** What a number is modulo 2 to the len. */
  function Modulo(value: Bits32, len: nat): (r: Bits32)
    ensures forall k :: 0 <= k < 32 ==> (r[k] <==> k < len && value[k])
  {
    seq(32, k requires 0 <= k < 32 => k < len && value[k])
  }

  /** after is before with value in the field, and nothing else changed. */
  predicate Replaced(before: seq<Octet>, after: seq<Octet>, offset: nat, len: nat, value: Bits32)
    requires |before| == |after| && len <= 32
  {
    forall i :: 0 <= i < 8 * |before| ==>
      (BitAt(after, i) <==> if offset <= i < offset + len then value[i - offset] else BitAt(before, i))
  }

  /** Reading back gives the value modulo 2 to the len. */
  lemma ReadBack(before: seq<Octet>, after: seq<Octet>, offset: nat, len: nat, value: Bits32)
    requires |before| == |after| && len <= 32 && offset + len <= 8 * |before| && Replaced(before, after, offset, len, value)
    ensures Field(after, offset, len) == Modulo(value, len)
  {
    forall k | 0 <= k < 32 ensures Field(after, offset, len)[k] == Modulo(value, len)[k] {
      if k < len {
        assert BitAt(after, offset + k) == value[k];
      }
    }
  }

  /** A field that shares no bit reads as before. */
  lemma OthersStay(before: seq<Octet>, after: seq<Octet>, offset: nat, len: nat, value: Bits32, o: nat, n: nat)
    requires |before| == |after| && len <= 32 && offset + len <= 8 * |before| && Replaced(before, after, offset, len, value)
    requires n <= 32 && o + n <= 8 * |before| && (o + n <= offset || offset + len <= o)
    ensures Field(after, o, n) == Field(before, o, n)
  {
    forall k | 0 <= k < 32 ensures Field(after, o, n)[k] == Field(before, o, n)[k] {
      if k < n {
        assert BitAt(after, o + k) == BitAt(before, o + k);
      }
    }
  }

  /** The value of bits as a number, for reading the results above. */
  function Value(b: seq<bool>): nat {
    if b == [] then 0 else (if b[0] then 1 else 0) + 2 * Value(b[1..])
  }

  function Pow2(n: nat): (r: nat)
    ensures r > 0
  {
    if n == 0 then 1 else 2 * Pow2(n - 1)
  }

  function Doubled(x: nat, n: nat): nat {
    if n == 0 then x else 2 * Doubled(x, n - 1)
  }

  lemma {:induction false} DoubledIs(x: nat, n: nat)
    ensures Doubled(x, n) == x * Pow2(n)
  {
    if n > 0 {
      DoubledIs(x, n - 1);
      assert x * (2 * Pow2(n - 1)) == 2 * (x * Pow2(n - 1));
    }
  }

  lemma {:induction false} ValueSplits(b: seq<bool>, n: nat)
    requires n <= |b|
    ensures Value(b) == Value(b[..n]) + Doubled(Value(b[n..]), n) && Value(b[..n]) < Pow2(n)
  {
    if n == 0 {
      assert b[0..] == b;
    } else {
      ValueSplits(b[1..], n - 1);
      assert b[..n][1..] == b[1..][..n - 1] && b[n..] == b[1..][n - 1..];
    }
  }

  lemma {:induction false} ValueOfFalse(b: seq<bool>)
    requires forall i :: 0 <= i < |b| ==> !b[i]
    ensures Value(b) == 0
  {
    if b != [] {
      ValueOfFalse(b[1..]);
    }
  }

  /** Modulo is the remainder. */
  lemma ModuloIsRemainder(value: Bits32, len: nat)
    requires len <= 32
    ensures Value(Modulo(value, len)) == Value(value) % Pow2(len)
  {
    var m := Modulo(value, len);
    ValueSplits(value, len);
    ValueSplits(m, len);
    ValueOfFalse(m[len..]);
    assert m[..len] == value[..len];
    DoubledIs(0, len);
    DoubledIs(Value(value[len..]), len);
    hide Value;
    hide Doubled;
    hide Pow2;
    Divided(Value(value), Pow2(len), Value(value[len..]), Value(value[..len]));
  }

  // ---------- the two loops ----------

  /** A byte with bits of the value from done on in it. */
  function Spliced(b: Octet, value: Bits32, done: nat, bitpos: nat, bitlen: nat): Octet {
    var cleared := Narrow(And(Widen(b), Not(Shl(And(Shr(Every(true), done), Mask(bitlen)), bitpos))));
    Narrow(Or(Widen(cleared), Shl(And(Shr(value, done), Mask(bitlen)), bitpos)))
  }

  lemma SplicedIs(b: Octet, value: Bits32, done: nat, bitpos: nat, bitlen: nat)
    requires bitpos + bitlen <= 8 && done + bitlen <= 32
    ensures forall i :: 0 <= i < 8 ==>
              (Spliced(b, value, done, bitpos, bitlen)[i] <==> if bitpos <= i < bitpos + bitlen then value[done + i - bitpos] else b[i])
  {
  }

  lemma Joined(before: seq<Octet>, mid: seq<Octet>, offset: nat, done: nat, bitlen: nat, value: Bits32)
    requires |before| == |mid| && done + bitlen <= 32 && offset + done + bitlen <= 8 * |mid|
    requires Replaced(before, mid, offset, done, value)
    requires var at := offset + done; at % 8 + bitlen <= 8 && at / 8 < |mid|
    ensures var at := offset + done;
            Replaced(before, mid[at / 8 := Spliced(mid[at / 8], value, done, at % 8, bitlen)], offset, done + bitlen, value)
  {
    var at := offset + done;
    SplicedIs(mid[at / 8], value, done, at % 8, bitlen);
    hide Spliced;
    var after := mid[at / 8 := Spliced(mid[at / 8], value, done, at % 8, bitlen)];
    forall i | 0 <= i < 8 * |before|
      ensures BitAt(after, i) <==> if offset <= i < offset + (done + bitlen) then value[i - offset] else BitAt(before, i)
    {
      assert BitAt(mid, i) <==> if offset <= i < offset + done then value[i - offset] else BitAt(before, i);
    }
  }

  lemma PartIs(b: Octet, done: nat, bitpos: nat, bitlen: nat)
    requires bitpos + bitlen <= 8 && done + bitlen <= 32
    ensures var part := Shl(And(Shr(Widen(b), bitpos), Mask(bitlen)), done);
            forall k :: 0 <= k < 32 ==> (part[k] <==> done <= k < done + bitlen && b[bitpos + k - done])
  {
  }

  method GetValue(bytes: seq<Octet>, offset: nat, len: nat) returns (result: Bits32)
    requires len <= 32 && offset < 256 && offset + len <= 256 && offset + len <= 8 * |bytes|
    ensures result == Field(bytes, offset, len)
  {
    var at, done: nat := offset, 0;
    result := Every(false);
    while done < len
      invariant 0 <= done <= len && at == (offset + done) % 256
      invariant forall k :: 0 <= k < 32 ==> (result[k] <==> k < done && BitAt(bytes, offset + k))
    {
      var bytepos, bitpos := at / 8, at % 8;
      var bitlen := Min(len - done, 8 - bitpos);
      var mask := Mask(bitlen);
      assert at == offset + done;
      var part := Shl(And(Shr(Widen(bytes[bytepos]), bitpos), mask), done);
      PartIs(bytes[bytepos], done, bitpos, bitlen);
      forall k | done <= k < done + bitlen ensures part[k] <==> BitAt(bytes, offset + k) {
        assert (offset + k) / 8 == bytepos && (offset + k) % 8 == bitpos + k - done;
      }
      result := Or(result, part);
      at := (at + bitlen) % 256;
      done := done + bitlen;
    }
  }

  method SetValue(buf: array<Octet>, offset: nat, len: nat, value: Bits32)
    requires len <= 32 && offset < 256 && offset + len <= 256 && offset + len <= 8 * buf.Length
    modifies buf
    ensures Replaced(old(buf[..]), buf[..], offset, len, value)
    ensures Field(buf[..], offset, len) == Modulo(value, len)
  {
    ghost var before := buf[..];
    var at, done: nat := offset, 0;
    while done < len
      invariant 0 <= done <= len && at == (offset + done) % 256
      invariant Replaced(before, buf[..], offset, done, value)
    {
      var bytepos, bitpos := at / 8, at % 8;
      var bitlen := Min(len - done, 8 - bitpos);
      var mask := Mask(bitlen);
      ghost var mid := buf[..];
      assert at == offset + done;
      hide Replaced;
      buf[bytepos] := Narrow(And(Widen(buf[bytepos]), Not(Shl(And(Shr(Every(true), done), mask), bitpos))));
      buf[bytepos] := Narrow(Or(Widen(buf[bytepos]), Shl(And(Shr(value, done), mask), bitpos)));
      SplicedIs(mid[bytepos], value, done, bitpos, bitlen);
      assert buf[..] == mid[bytepos := Spliced(mid[bytepos], value, done, bitpos, bitlen)];
      Joined(before, mid, offset, done, bitlen, value);
      at := (at + bitlen) % 256;
      done := done + bitlen;
    }
    ReadBack(before, buf[..], offset, len, value);
  }
}
