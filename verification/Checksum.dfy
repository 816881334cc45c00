/** The Internet checksum, the IPv4 header that carries it, and its patch in forwarding. */
module Checksum {
  import opened Wrappers

  const MOD16: nat := 0x1_0000
  const ONES: nat := 0xFFFF
  type Word16 = w: nat | w < 0x1_0000

  function Pair(hi: Byte, lo: Byte): Word16 {
    hi * 256 + lo
  }

  /** The sum of the big-endian words; an odd last byte counts as the high half of one. */
  function WordSum(data: seq<Byte>): nat {
    if data == [] then 0
    else if |data| == 1 then Pair(data[0], 0)
    else Pair(data[0], data[1]) + WordSum(data[2..])
  }

  function Fold(s: nat): nat {
    s % MOD16 + s / MOD16
  }

  /** What the code makes of a sum: two folds, and 16 bits of the result. */
  function Folded(s: nat): Word16 {
    Fold(Fold(s)) % MOD16
  }

  /** The number between 1 and 0xFFFF that is congruent to a positive sum modulo 0xFFFF. */
  lemma FoldedIs(s: nat)
    requires s < MOD16 * MOD16
    ensures Fold(Fold(s)) < MOD16
    ensures Folded(s) == if s == 0 then 0 else (s - 1) % ONES + 1
  {
    var hi, lo := s / MOD16, s % MOD16;
    var t := lo + hi;
    assert s == hi * MOD16 + lo;
    assert s - 1 == hi * ONES + (t - 1);
    var r := Fold(t);
    assert t / MOD16 == 0 || t / MOD16 == 1;
    if s > 0 {
      Residue(t - 1, hi);
      assert r == if t < MOD16 then t else t - MOD16 + 1;
    }
  }

  lemma Residue(x: nat, k: nat)
    ensures (k * ONES + x) % ONES == x % ONES
    decreases k
  {
    if k > 0 {
      Residue(x, k - 1);
      assert k * ONES + x == ((k - 1) * ONES + x) + ONES;
    }
  }

  /** The test on input: all ones exactly for a positive multiple of 0xFFFF. */
  lemma PassesExactly(s: nat)
    requires s < MOD16 * MOD16
    ensures Folded(s) == ONES <==> s > 0 && s % ONES == 0
  {
    FoldedIs(s);
  }

  lemma {:induction false} SumBound(data: seq<Byte>)
    ensures WordSum(data) <= (|data| + 1) / 2 * ONES
    decreases |data|
  {
    if |data| > 1 {
      SumBound(data[2..]);
    }
  }

  lemma {:induction false} SumSplits(a: seq<Byte>, b: seq<Byte>)
    requires |a| % 2 == 0
    ensures WordSum(a + b) == WordSum(a) + WordSum(b)
    decreases |a|
  {
    if a == [] {
      assert a + b == b;
    } else {
      SumSplits(a[2..], b);
      assert (a + b)[2..] == a[2..] + b;
    }
  }

  lemma SumOfPair(a: Byte, b: Byte)
    ensures WordSum([a, b]) == Pair(a, b)
  {
    assert [a, b][2..] == [];
  }

  /** One word replaced. */
  lemma SumReplaced(data: seq<Byte>, i: nat, hi: Byte, lo: Byte)
    requires i % 2 == 0 && i + 1 < |data|
    ensures WordSum(data[i := hi][i + 1 := lo]) == WordSum(data) - Pair(data[i], data[i + 1]) + Pair(hi, lo)
  {
    var a, z := data[..i], data[i + 2..];
    assert data == a + ([data[i], data[i + 1]] + z);
    assert data[i := hi][i + 1 := lo] == a + ([hi, lo] + z);
    SumSplits(a, [data[i], data[i + 1]] + z);
    SumSplits(a, [hi, lo] + z);
    SumSplits([data[i], data[i + 1]], z);
    SumSplits([hi, lo], z);
    SumOfPair(data[i], data[i + 1]);
    SumOfPair(hi, lo);
  }

  /** vsfip_checksum: for every length the sum stays within 32 bits, so two folds are enough. */
  method Compute(data: seq<Byte>) returns (r: Word16)
    requires |data| < MOD16
    ensures r == Folded(WordSum(data))
    ensures WordSum(data) < MOD16 * MOD16
    ensures r == if WordSum(data) == 0 then 0 else (WordSum(data) - 1) % ONES + 1
  {
    var checksum: nat := 0;
    var i, len := 0, |data|;
    while len > 1
      invariant 0 <= i && 0 <= len && i + len == |data|
      invariant checksum + WordSum(data[i..]) == WordSum(data)
    {
      assert data[i..][2..] == data[i + 2..];
      assert WordSum(data[i..]) == Pair(data[i], data[i + 1]) + WordSum(data[i + 2..]);
      checksum := checksum + Pair(data[i], data[i + 1]);
      i := i + 2;
      len := len - 2;
    }
    if len == 1 {
      checksum := checksum + Pair(data[i], 0);
    }
    SumBound(data);
    FoldedIs(WordSum(data));
    checksum := checksum % MOD16 + checksum / MOD16;
    checksum := checksum % MOD16 + checksum / MOD16;
    r := checksum % MOD16;
  }

  // ---------- the IPv4 header ----------

  datatype Header = Header(len: Word16, id: Word16, offset: Word16, protocol: Byte, src: seq<Byte>, dst: seq<Byte>)

  function High(w: Word16): Byte {
    w / 256
  }

  function Low(w: Word16): Byte {
    w % 256
  }

  /** The twenty bytes with a checksum in place. */
  function Bytes(h: Header, ttl: Byte, sum: Word16): seq<Byte>
    requires |h.src| == |h.dst| == 4
  {
    [0x45, 0, High(h.len), Low(h.len), High(h.id), Low(h.id), High(h.offset), Low(h.offset),
     ttl, h.protocol, High(sum), Low(sum)] + h.src + h.dst
  }

  function Complement(w: Word16): Word16 {
    ONES - w
  }

  /** What vsfip_add_ip4head writes. */
  function Built(h: Header): seq<Byte>
    requires |h.src| == |h.dst| == 4
  {
    Bytes(h, 32, Complement(Folded(WordSum(Bytes(h, 32, 0)))))
  }

  /** The header check of vsfip_ip4_input. */
  predicate Passes(head: seq<Byte>) {
    Folded(WordSum(head)) == ONES
  }

  lemma ChecksumPut(h: Header, ttl: Byte, sum: Word16)
    requires |h.src| == |h.dst| == 4
    ensures var b: seq<Byte> := Bytes(h, ttl, 0);
            && Bytes(h, ttl, sum) == (b[10 := High(sum)])[11 := Low(sum)]
            && |b| == 20 && b[0] == 0x45 && b[1] == 0 && b[10] == b[11] == 0
  {
  }

  lemma SumWithChecksum(h: Header, ttl: Byte, sum: Word16)
    requires |h.src| == |h.dst| == 4
    ensures WordSum(Bytes(h, ttl, sum)) == WordSum(Bytes(h, ttl, 0)) + sum
    ensures 0x4500 <= WordSum(Bytes(h, ttl, sum)) <= 10 * ONES
  {
    hide WordSum;
    ChecksumPut(h, ttl, sum);
    hide Bytes;
    var b: seq<Byte> := Bytes(h, ttl, 0);
    SumReplaced(b, 10, High(sum), Low(sum));
    SumBound(Bytes(h, ttl, sum));
    SumFromFirst(b, 20);
    assert b[..20] == b;
  }

  /** A sum completed by the complement of its checksum folds to all ones. */
  lemma Completed(s: nat)
    requires 0 < s && s + ONES < MOD16 * MOD16
    ensures Folded(s + Complement(Folded(s))) == ONES
  {
    FoldedIs(s);
    var t := s + Complement(Folded(s));
    assert s - 1 == (s - 1) / ONES * ONES + (s - 1) % ONES;
    assert t == (s - 1) / ONES * ONES + ONES;
    Residue(ONES, (s - 1) / ONES);
    PassesExactly(t);
  }

  lemma PairOf(w: Word16)
    ensures Pair(High(w), Low(w)) == w
  {
  }

  /** What stands where in a header that is built: version 4 and five words, no service, length, identification,
      offset, time to live, protocol, the two addresses, and in the eleventh and twelfth byte what brings the
      sum to all ones. */
  lemma BuiltFields(h: Header)
    requires |h.src| == |h.dst| == 4
    ensures var b := Built(h);
            && |b| == 20 && b[0] / 16 == 4 && b[0] % 16 == 5 && b[1] == 0
            && Pair(b[2], b[3]) == h.len && Pair(b[4], b[5]) == h.id && Pair(b[6], b[7]) == h.offset
            && b[8] == 32 && b[9] == h.protocol && b[12..16] == h.src && b[16..20] == h.dst
            && Folded(WordSum(b)) == 0xFFFF
  {
    PairOf(h.len);
    PairOf(h.id);
    PairOf(h.offset);
    BuiltPasses(h);
    hide WordSum;
    hide Folded;
  }

  /** Every header that is built passes the check on input. */
  lemma BuiltPasses(h: Header)
    requires |h.src| == |h.dst| == 4
    ensures Passes(Built(h))
  {
    SumWithChecksum(h, 32, 0);
    var s := WordSum(Bytes(h, 32, 0));
    SumWithChecksum(h, 32, Complement(Folded(s)));
    Completed(s);
  }

  // ---------- the check on input ----------

  /** The length that a header gives itself, in 32-bit words in its first byte. */
  function HeaderLength(packet: seq<Byte>): (n: nat)
    requires packet != []
    ensures n % 4 == 0 && n <= 60 && (n == 0 || (n >= 4 && packet[0] > 0))
  {
    packet[0] % 16 * 4
  }

  /** The check of vsfip_ip4_input on what the buffer holds from the header on: it takes the length of the
      header from the header. */
  predicate Accepts(packet: seq<Byte>)
    requires |packet| >= 60
  {
    Passes(packet[..HeaderLength(packet)])
  }

  function Altered(packet: seq<Byte>, i: nat, hi: Byte, lo: Byte): seq<Byte>
    requires i + 1 < |packet|
  {
    (packet[i := hi])[i + 1 := lo]
  }

  /** The sum over a header is its first word and the rest. */
  lemma SumFromFirst(packet: seq<Byte>, n: nat)
    requires 2 <= n <= |packet| <= MOD16 && n % 2 == 0
    ensures WordSum(packet[..n]) == Pair(packet[0], packet[1]) + WordSum(packet[2..n])
  {
    assert packet[..n] == [packet[0], packet[1]] + packet[2..n];
    SumSplits([packet[0], packet[1]], packet[2..n]);
    SumOfPair(packet[0], packet[1]);
  }

  lemma AcceptsIs(packet: seq<Byte>)
    requires |packet| >= 60
    ensures var n := HeaderLength(packet);
            Accepts(packet) <==> n > 0 && WordSum(packet[..n]) % ONES == 0
    ensures HeaderLength(packet) > 0 ==> WordSum(packet[..HeaderLength(packet)]) >= 256
  {
    var head := packet[..HeaderLength(packet)];
    SumBound(head);
    PassesExactly(WordSum(head));
    if HeaderLength(packet) > 0 {
      SumFromFirst(packet[..60], HeaderLength(packet));
      assert packet[..60][..HeaderLength(packet)] == head;
    }
  }

  lemma Shifted(s: nat, was: Word16, now: Word16)
    requires s % ONES == 0 && s > was
    ensures (s - was + now) % ONES == 0 <==> was == now || (was == 0 && now == ONES) || (was == ONES && now == 0)
  {
    var k := s / ONES;
    assert s == k * ONES;
  }

  lemma Congruent(was: nat, rest: nat, x: nat)
    requires (was + rest) % ONES == 0
    ensures (x + rest) % ONES == 0 <==> x % ONES == was % ONES
  {
    var k, a, b := (was + rest) / ONES, was / ONES, x / ONES;
    assert was + rest == k * ONES && was == a * ONES + was % ONES && x == b * ONES + x % ONES;
    var d := x % ONES - was % ONES;
    assert x + rest == (k + b - a) * ONES + d;
  }

  /** With one word altered and the header's length kept, the check still passes exactly if nothing changed
      or the word went from all zeros to all ones or back. */
  lemma AlteredWord(packet: seq<Byte>, i: nat, hi: Byte, lo: Byte)
    requires |packet| >= 60 && Accepts(packet) && i % 2 == 0 && i + 1 < HeaderLength(packet)
    requires HeaderLength(Altered(packet, i, hi, lo)) == HeaderLength(packet)
    ensures var was, now := Pair(packet[i], packet[i + 1]), Pair(hi, lo);
            Accepts(Altered(packet, i, hi, lo)) <==>
            was == now || (was == 0 && now == ONES) || (was == ONES && now == 0)
  {
    var n, other := HeaderLength(packet), Altered(packet, i, hi, lo);
    var head: seq<Byte> := packet[..n];
    assert other[..n] == (head[i := hi])[i + 1 := lo];
    SumReplaced(head, i, hi, lo);
    AcceptsIs(packet);
    AcceptsIs(other);
    hide WordSum;
    hide Passes;
    var s, was, now := WordSum(head), Pair(packet[i], packet[i + 1]), Pair(hi, lo);
    if s > was {
      Shifted(s, was, now);
    } else {
      OnlyWord(head, i);
      assert i == 0 && s == was == ONES;
      assert now >= 256;
    }
  }

  /** The first word of a header is never zero, so a word that is the whole sum is the first. */
  lemma OnlyWord(head: seq<Byte>, i: nat)
    requires i % 2 == 0 && i + 1 < |head| && |head| <= 60 && head[0] > 0
    ensures WordSum(head) >= Pair(head[i], head[i + 1])
    ensures i > 0 ==> WordSum(head) > Pair(head[i], head[i + 1])
  {
    SumFromFirst(head, 2);
    assert head == head[..i] + ([head[i], head[i + 1]] + head[i + 2..]);
    SumSplits(head[..i], [head[i], head[i + 1]] + head[i + 2..]);
    SumSplits([head[i], head[i + 1]], head[i + 2..]);
    SumOfPair(head[i], head[i + 1]);
    if i > 0 {
      SumFromFirst(head, i);
    }
  }

  lemma LengthenedHeader(packet: seq<Byte>, hi: Byte, lo: Byte)
    requires |packet| >= 60 && Accepts(packet) && HeaderLength(packet) < hi % 16 * 4
    ensures Accepts(Altered(packet, 0, hi, lo)) <==>
            (Pair(hi, lo) + WordSum(packet[HeaderLength(packet)..hi % 16 * 4])) % ONES == Pair(packet[0], packet[1]) % ONES
  {
    var other: seq<Byte> := Altered(packet, 0, hi, lo);
    var n: nat, m: nat := HeaderLength(packet), HeaderLength(other);
    assert m == hi % 16 * 4;
    AcceptsIs(packet);
    AcceptsIs(other);
    hide HeaderLength;
    EmptySum();
    FirstAltered(packet, n, hi, lo, n, m);
    hide WordSum;
    hide Accepts;
    hide Passes;
    hide Altered;
    hide Pair;
    Congruent(Pair(packet[0], packet[1]), WordSum(packet[2..n]), Pair(hi, lo) + WordSum(packet[n..m]));
  }

  lemma ShortenedHeader(packet: seq<Byte>, hi: Byte, lo: Byte)
    requires |packet| >= 60 && Accepts(packet) && 0 < hi % 16 * 4 < HeaderLength(packet)
    ensures Accepts(Altered(packet, 0, hi, lo)) <==>
            Pair(hi, lo) % ONES == (Pair(packet[0], packet[1]) + WordSum(packet[hi % 16 * 4..HeaderLength(packet)])) % ONES
  {
    var other := Altered(packet, 0, hi, lo);
    var n, m := HeaderLength(packet), HeaderLength(other);
    AcceptsIs(packet);
    AcceptsIs(other);
    hide WordSum;
    hide Accepts;
    hide Passes;
    EmptySum();
    FirstAltered(packet, n, hi, lo, m, m);
    hide Altered;
    Congruent(Pair(packet[0], packet[1]) + WordSum(packet[m..n]), WordSum(packet[2..m]), Pair(hi, lo));
  }

  /** What a first word that changes the length must be for the check to pass: it makes up for the bytes that
      the header gains or loses. A length of zero never passes. */
  lemma AlteredLength(packet: seq<Byte>, hi: Byte, lo: Byte)
    requires |packet| >= 60 && Accepts(packet) && hi % 16 != packet[0] % 16
    ensures var was, now, n, m := Pair(packet[0], packet[1]), Pair(hi, lo), HeaderLength(packet), hi % 16 * 4;
            Accepts(Altered(packet, 0, hi, lo)) <==>
            if m == 0 then false
            else if n < m then (now + WordSum(packet[n..m])) % ONES == was % ONES
            else now % ONES == (was + WordSum(packet[m..n])) % ONES
  {
    hide WordSum;
    hide Passes;
    AcceptsIs(Altered(packet, 0, hi, lo));
    hide Accepts;
    var n, m := HeaderLength(packet), hi % 16 * 4;
    if n < m {
      LengthenedHeader(packet, hi, lo);
    } else if m > 0 {
      ShortenedHeader(packet, hi, lo);
    }
  }

  /** Both sums, split where the shorter header ends. */
  lemma FirstAltered(packet: seq<Byte>, n: nat, hi: Byte, lo: Byte, k: nat, m: nat)
    requires 2 <= k <= n <= 60 <= |packet| && k <= m <= 60 && k % 2 == 0 && n % 2 == 0 && m % 2 == 0
    ensures WordSum(packet[..n]) == Pair(packet[0], packet[1]) + WordSum(packet[2..k]) + WordSum(packet[k..n])
    ensures WordSum(Altered(packet, 0, hi, lo)[..m]) == Pair(hi, lo) + WordSum(packet[2..k]) + WordSum(packet[k..m])
    ensures packet[k..k] == []
  {
    hide WordSum;
    var other := Altered(packet, 0, hi, lo);
    TwoParts(packet, k, n);
    TwoParts(other, k, m);
    assert other[2..k] == packet[2..k] && other[k..m] == packet[k..m];
  }

  lemma EmptySum()
    ensures WordSum([]) == 0
  {
  }

  lemma TwoParts(packet: seq<Byte>, k: nat, n: nat)
    requires 2 <= k <= n <= 60 <= |packet| && k % 2 == 0 && n % 2 == 0
    ensures WordSum(packet[..n]) == Pair(packet[0], packet[1]) + WordSum(packet[2..k]) + WordSum(packet[k..n])
  {
    var head := packet[..60];
    SumFromFirst(head, n);
    assert head[..n] == packet[..n] && head[2..n] == packet[2..k] + packet[k..n];
    SumSplits(packet[2..k], packet[k..n]);
  }

  /** So there is a change that goes unnoticed although no word goes from zeros to ones: a header that was
      built, followed by FE FF 00 00, with its length altered from five words to six. */
  lemma LongerHeaderPasses(h: Header, rest: seq<Byte>)
    requires |h.src| == |h.dst| == 4 && |rest| >= 36
    ensures var packet := Built(h) + [0xFE, 0xFF, 0, 0] + rest;
            Accepts(packet) && Accepts(Altered(packet, 0, 0x46, 0))
  {
    hide WordSum;
    hide Folded;
    var packet: seq<Byte> := Built(h) + [0xFE, 0xFF, 0, 0] + rest;
    BuiltPasses(h);
    BuiltStarts(h);
    hide Built;
    assert packet[..20] == Built(h) && packet[0] == 0x45 && packet[1] == 0;
    assert packet[20..24] == [0xFE, 0xFF, 0, 0];
    MakesUp();
    AlteredLength(packet, 0x46, 0);
  }

  lemma BuiltStarts(h: Header)
    requires |h.src| == |h.dst| == 4
    ensures |Built(h)| == 20 && Built(h)[0] == 0x45 && Built(h)[1] == 0
  {
  }

  lemma MakesUp()
    ensures WordSum([0xFE, 0xFF, 0, 0]) == 0xFEFF && (Pair(0x46, 0) + 0xFEFF) % ONES == Pair(0x45, 0) % ONES
  {
    var more: seq<Byte> := [0xFE, 0xFF, 0, 0];
    assert more == [0xFE, 0xFF] + [0, 0];
    SumSplits([0xFE, 0xFF], [0, 0]);
    SumOfPair(0xFE, 0xFF);
    SumOfPair(0, 0);
  }

  // ---------- forwarding ----------

  /** The patch for a time to live that goes down by one. */
  function Patched(sum: Word16): Word16 {
    var c := sum + 0x100;
    (c + c / MOD16) % MOD16
  }

  lemma PatchedIs(sum: Word16)
    ensures Patched(sum) == if sum < 0xFF00 then sum + 0x100 else sum + 0x100 - ONES
  {
  }

  lemma LessOnes(s: nat)
    requires s >= ONES
    ensures (s - ONES) % ONES == s % ONES
  {
  }

  /** --ttl on a byte. */
  function Earlier(ttl: Byte): Byte {
    Down(ttl, 256)
  }

  /** What vsfip_ip4_forward makes of a header: its time to live is a byte that wraps. */
  function Forwarded(packet: seq<Byte>): (r: seq<Byte>)
    requires |packet| >= 60
    ensures |r| == |packet|
  {
    var sum := Patched(Pair(packet[10], packet[11]));
    Altered(packet[8 := Earlier(packet[8])], 10, High(sum), Low(sum))
  }

  /** The sum of a header after its time to live and its checksum are replaced. */
  lemma TwoReplaced(head: seq<Byte>, ttl: Byte, hi: Byte, lo: Byte)
    requires |head| >= 12
    ensures WordSum(((head[8 := ttl])[10 := hi])[11 := lo]) + Pair(head[8], head[9]) + Pair(head[10], head[11])
            == WordSum(head) + Pair(ttl, head[9]) + Pair(hi, lo)
  {
    hide WordSum;
    var one: seq<Byte> := (head[8 := ttl])[9 := head[9]];
    assert one == head[8 := ttl];
    SumReplaced(head, 8, ttl, head[9]);
    SumReplaced(one, 10, hi, lo);
  }

  lemma ForwardedHead(packet: seq<Byte>, n: nat)
    requires |packet| >= 60 && 12 <= n <= 60
    ensures var sum := Patched(Pair(packet[10], packet[11]));
            Forwarded(packet)[..n]
            == ((packet[..n][8 := Earlier(packet[8])])[10 := High(sum)])[11 := Low(sum)]
  {
  }

  lemma PlusOne(s: nat)
    requires s % ONES == 0
    ensures (s + 1) % ONES != 0 && (s + MOD16) % ONES != 0
  {
  }

  /** A header that was accepted, whatever its options and type of service, is accepted after forwarding
      exactly if its time to live was not zero already, or it is too short to hold the fields. */
  lemma ForwardedPasses(packet: seq<Byte>)
    requires |packet| >= 60 && Accepts(packet)
    ensures Accepts(Forwarded(packet)) <==> packet[8] > 0 || HeaderLength(packet) < 12
  {
    hide Forwarded;
    hide Passes;
    hide Accepts;
    hide HeaderLength;
    ForwardedKeeps(packet);
    AcceptsIs(packet);
    AcceptsIs(Forwarded(packet));
    if HeaderLength(packet) >= 12 {
      ForwardedResidue(packet, HeaderLength(packet));
    }
    hide WordSum;
  }

  lemma ForwardedResidue(packet: seq<Byte>, n: nat)
    requires |packet| >= 60 && 12 <= n <= 60
    requires WordSum(packet[..n]) % ONES == 0 && WordSum(Forwarded(packet)[..n]) >= 256
    ensures WordSum(Forwarded(packet)[..n]) % ONES == 0 <==> packet[8] > 0
  {
    hide WordSum;
    hide Forwarded;
    hide Patched;
    var sum := Patched(Pair(packet[10], packet[11]));
    ForwardedHead(packet, n);
    TwoReplaced(packet[..n], Earlier(packet[8]), High(sum), Low(sum));
    assert Pair(High(sum), Low(sum)) == sum;
    PatchedSum(WordSum(packet[..n]), WordSum(Forwarded(packet)[..n]), Pair(packet[10], packet[11]), packet[8] == 0);
  }

  lemma ForwardedKeeps(packet: seq<Byte>)
    requires |packet| >= 60
    ensures var n := HeaderLength(packet);
            |Forwarded(packet)| >= 60 && HeaderLength(Forwarded(packet)) == n && (n < 12 ==> Forwarded(packet)[..n] == packet[..n])
  {
  }

  lemma PatchedSum(s: nat, t: nat, sum: Word16, wraps: bool)
    requires s % ONES == 0 && t >= 256
    requires t + sum == s + Patched(sum) + if wraps then 0xFF00 else -0x100
    ensures t % ONES == 0 <==> !wraps
  {
    PatchedIs(sum);
    PlusOne(s);
    hide Patched;
    if !wraps && sum >= 0xFF00 {
      assert t == s - ONES;
      LessOnes(s);
    }
  }

  /** vsfip_ip4_forward, past the route: the packet goes on unless its time to live runs out. */
  method Forward(buffer: array<Byte>, at: nat) returns (sent: bool)
    requires at + 60 <= buffer.Length
    modifies buffer
    ensures sent <==> old(buffer[at + 8]) != 1
    ensures sent ==> buffer[at..at + 60] == Forwarded(old(buffer[at..at + 60]))
    ensures forall k :: 0 <= k < buffer.Length && !(at + 8 <= k < at + 12) ==> buffer[k] == old(buffer[k])
  {
    hide Patched;
    ghost var before: seq<Byte> := buffer[at..at + 60];
    var ttl := Earlier(buffer[at + 8]);
    buffer[at + 8] := ttl;
    if buffer[at + 8] == 0 {
      return false;
    }
    var checksum := AddToChecksum(Pair(buffer[at + 10], buffer[at + 11]));
    buffer[at + 10] := High(checksum);
    buffer[at + 11] := Low(checksum);
    assert buffer[at..at + 60] == ((before[8 := ttl])[10 := High(checksum)])[11 := Low(checksum)];
    sent := true;
  }

  /** The patch in 32 bits. */
  method AddToChecksum(sum: Word16) returns (r: Word16)
    ensures r == Patched(sum)
  {
    var checksum := sum + 0x100;
    checksum := checksum + checksum / MOD16;
    r := checksum % MOD16;
  }

  /** The fields of the header, with no checksum yet. */
  method WriteFields(buffer: array<Byte>, at: nat, h: Header)
    requires at + 20 <= buffer.Length && |h.src| == |h.dst| == 4
    modifies buffer
    ensures buffer[at..at + 20] == Bytes(h, 32, 0)
    ensures forall k :: 0 <= k < buffer.Length && !(at <= k < at + 20) ==> buffer[k] == old(buffer[k])
  {
    var fields: seq<Byte> := [0x45, 0, High(h.len), Low(h.len), High(h.id), Low(h.id), High(h.offset), Low(h.offset),
                              32, h.protocol, 0, 0];
    forall k | 0 <= k < 20 {
      buffer[at + k] := if k < 12 then fields[k] else if k < 16 then h.src[k - 12] else h.dst[k - 16];
    }
  }

  /** vsfip_add_ip4head, in the twenty bytes before the packet at start, whose application data begins at
      app; it refuses a buffer with fewer than twenty bytes before app. What lies between start and app,
      the transport header, leaves room for it otherwise. */
  method AddHeader(buffer: array<Byte>, app: nat, start: nat, h: Header) returns (ok: bool)
    requires start <= buffer.Length && (app >= 20 ==> start >= 20) && |h.src| == |h.dst| == 4
    modifies buffer
    ensures ok <==> app >= 20
    ensures ok ==> buffer[start - 20..start] == Built(h) && Passes(buffer[start - 20..start])
    ensures forall k :: 0 <= k < buffer.Length && !(ok && start - 20 <= k < start) ==> buffer[k] == old(buffer[k])
  {
    hide WordSum;
    hide Folded;
    if app < 20 {
      return false;
    }
    var at := start - 20;
    WriteFields(buffer, at, h);
    var folded := Compute(buffer[at..at + 20]);
    var checksum: Word16 := ONES - folded;
    ghost var b: seq<Byte> := buffer[at..at + 20];
    buffer[at + 10] := High(checksum);
    buffer[at + 11] := Low(checksum);
    assert buffer[at..at + 20] == (b[10 := High(checksum)])[11 := Low(checksum)];
    assert (b[10 := High(checksum)])[11 := Low(checksum)] == Bytes(h, 32, checksum);
    BuiltPasses(h);
    ok := true;
  }

  // ---------- the transport checksum ----------

  /** What vsfip_proto_checksum adds up besides the segment: addresses, protocol and length. */
  function PseudoSum(src: seq<Byte>, dst: seq<Byte>, protocol: Byte, size: Word16): nat {
    WordSum(src) + WordSum(dst) + protocol + size
  }

  /** The pseudo header of section 3.1 of RFC 793, byte by byte. */
  function PseudoHeader(src: seq<Byte>, dst: seq<Byte>, protocol: Byte, size: Word16): seq<Byte> {
    src + dst + [0, protocol, High(size), Low(size)]
  }

  lemma PseudoSumIs(src: seq<Byte>, dst: seq<Byte>, protocol: Byte, size: Word16)
    requires |src| == |dst| == 4
    ensures PseudoSum(src, dst, protocol, size) == WordSum(PseudoHeader(src, dst, protocol, size))
  {
    var tail: seq<Byte> := [0, protocol] + [High(size), Low(size)];
    PairOf(size);
    SumOfPair(0, protocol);
    SumOfPair(High(size), Low(size));
    SumSplits([0, protocol], [High(size), Low(size)]);
    SumSplits(src + dst, tail);
    SumSplits(src, dst);
    hide WordSum;
    assert PseudoHeader(src, dst, protocol, size) == (src + dst) + tail;
  }

  /** vsfip_proto_checksum, which folds the segment before it adds the rest. */
  function ProtoChecksum(segment: seq<Byte>, src: seq<Byte>, dst: seq<Byte>, protocol: Byte): Word16
    requires |segment| < MOD16
  {
    Folded(Folded(WordSum(segment)) + PseudoSum(src, dst, protocol, |segment|))
  }

  /** Folding a part first makes no difference. */
  lemma FoldFirst(s: nat, t: nat)
    requires s < MOD16 * ONES && t < MOD16 * ONES && s + t < MOD16 * ONES && t > 0
    ensures Folded(Folded(s) + t) == Folded(s + t)
  {
    FoldedIs(s);
    FoldedIs(s + t);
    FoldedIs(Folded(s) + t);
    hide Folded;
    if s > 0 {
      var k := (s - 1) / ONES;
      assert s - 1 == k * ONES + (s - 1) % ONES;
      assert s + t - 1 == k * ONES + (Folded(s) + t - 1);
      Residue(Folded(s) + t - 1, k);
    }
  }

  /** A segment whose checksum field, zero before, is filled with the complement sums up, with its pseudo
      header, to all ones. */
  lemma TransportPasses(segment: seq<Byte>, i: nat, src: seq<Byte>, dst: seq<Byte>, protocol: Byte)
    requires |segment| < MOD16 && |src| == |dst| == 4 && i % 2 == 0 && i + 1 < |segment|
    requires segment[i] == segment[i + 1] == 0
    ensures var c := Complement(ProtoChecksum(segment, src, dst, protocol));
            Folded(WordSum(PseudoHeader(src, dst, protocol, |segment|) + (segment[i := High(c)])[i + 1 := Low(c)])) == ONES
  {
    hide WordSum;
    hide Folded;
    PseudoSumIs(src, dst, protocol, |segment|);
    var c := Complement(ProtoChecksum(segment, src, dst, protocol));
    var s, t := WordSum(segment), PseudoSum(src, dst, protocol, |segment|);
    SumBound(segment);
    SumBound(src);
    SumBound(dst);
    SumReplaced(segment, i, High(c), Low(c));
    assert Pair(High(c), Low(c)) == c && Pair(0, 0) == 0;
    SumsFit(s, t, |segment|);
    FoldFirst(s, t);
    Completed(s + t);
    SumSplits(PseudoHeader(src, dst, protocol, |segment|), (segment[i := High(c)])[i + 1 := Low(c)]);
    assert |PseudoHeader(src, dst, protocol, |segment|)| == 12;
  }

  lemma SumsFit(s: nat, t: nat, n: Word16)
    requires s <= (n + 1) / 2 * ONES && t <= 6 * ONES
    ensures s < MOD16 * ONES && t < MOD16 * ONES && s + t < MOD16 * ONES && s + t + ONES < MOD16 * MOD16
  {
    assert (n + 1) / 2 <= 0x8000;
  }
}
