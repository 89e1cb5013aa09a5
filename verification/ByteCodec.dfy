/**
 The typed layer of ByteArray: fixed-width integers in either byte order,
 variable-length integers, zigzag, length-prefixed strings, and programs of
 such writes.  Bit operations of the original are written as arithmetic: `|` of
 disjoint bits is `+`, shifts are multiplications and divisions by powers of two.
 */
module ByteCodec {
  import opened Bytes
  import opened FlatBuffer

  // ---------------------------------------------------------------- fixed width

  function Pow256(w: nat): (r: nat)
    ensures r > 0
  {
    if w == 0 then 1 else 256 * Pow256(w - 1)
  }

  function LittleEndian(v: nat, w: nat): (r: seq<Byte>)
    ensures |r| == w
  {
    if w == 0 then [] else [v % 256] + LittleEndian(v / 256, w - 1)
  }

  function FromLittleEndian(s: seq<Byte>): nat {
    if s == [] then 0 else s[0] + 256 * FromLittleEndian(s[1..])
  }

  function Reversed(s: seq<Byte>): (r: seq<Byte>)
    ensures |r| == |s|
    ensures forall i :: 0 <= i < |s| ==> r[i] == s[|s| - 1 - i]
  {
    if s == [] then [] else Reversed(s[1..]) + [s[0]]
  }

  /** The bytes of a value in one byte order: that of the machine's memory, or that of the buffer. */
  function FixedBytes(v: nat, w: nat, little: bool): (r: seq<Byte>)
    ensures |r| == w
  {
    if little then LittleEndian(v, w) else Reversed(LittleEndian(v, w))
  }

  function FromFixedBytes(s: seq<Byte>, little: bool): nat {
    FromLittleEndian(if little then s else Reversed(s))
  }

  /** bswap_16, bswap_32 and bswap_64. */
  function ByteSwap(v: nat, w: nat): nat {
    FromLittleEndian(Reversed(LittleEndian(v, w)))
  }

  /** The bit pattern of a signed value, and back. */
  function Unsigned(v: int, w: nat): int {
    if v < 0 then v + Pow256(w) else v
  }

  function Signed(u: nat, w: nat): int {
    if 2 * u >= Pow256(w) then u - Pow256(w) else u
  }

  lemma {:induction false} FromToLittleEndian(v: nat, w: nat)
    requires v < Pow256(w)
    ensures FromLittleEndian(LittleEndian(v, w)) == v
  {
    if w > 0 {
      FromToLittleEndian(v / 256, w - 1);
      assert LittleEndian(v, w)[1..] == LittleEndian(v / 256, w - 1);
    }
  }

  lemma {:induction false} ToFromLittleEndian(s: seq<Byte>)
    ensures FromLittleEndian(s) < Pow256(|s|)
    ensures LittleEndian(FromLittleEndian(s), |s|) == s
  {
    if s != [] {
      ToFromLittleEndian(s[1..]);
      assert FromLittleEndian(s) / 256 == FromLittleEndian(s[1..]);
    }
  }

  lemma ReversedTwice(s: seq<Byte>)
    ensures Reversed(Reversed(s)) == s
  {
  }

  /** Swapping when the orders differ and then storing in host order gives the buffer's order, on either host. */
  lemma HostOrderIrrelevant(v: nat, w: nat, little: bool, hostLittle: bool)
    requires v < Pow256(w)
    ensures FixedBytes(if little != hostLittle then ByteSwap(v, w) else v, w, hostLittle) == FixedBytes(v, w, little)
  {
    ToFromLittleEndian(Reversed(LittleEndian(v, w)));
    ReversedTwice(LittleEndian(v, w));
  }

  /** Loading in host order and swapping when the orders differ reads the buffer's order, on either host. */
  lemma HostOrderIrrelevantForReading(s: seq<Byte>, little: bool, hostLittle: bool)
    ensures var raw := FromFixedBytes(s, hostLittle);
            (if little == hostLittle then raw else ByteSwap(raw, |s|)) == FromFixedBytes(s, little)
  {
    ToFromLittleEndian(s);
    ToFromLittleEndian(Reversed(s));
    ReversedTwice(s);
  }

  lemma FixedRoundTrip(v: nat, w: nat, little: bool)
    requires v < Pow256(w)
    ensures FromFixedBytes(FixedBytes(v, w, little), little) == v
  {
    FromToLittleEndian(v, w);
    ReversedTwice(LittleEndian(v, w));
  }

  /** Byte i of a value: in little-endian order the i-th lowest, in big-endian order the i-th highest. */
  lemma {:induction false} FixedByteIs(v: nat, w: nat, little: bool, i: nat)
    requires i < w
    ensures FixedBytes(v, w, little)[i] == v / Pow256(if little then i else w - 1 - i) % 256
  {
    LittleByteIs(v, w, if little then i else w - 1 - i);
  }

  lemma {:induction false} LittleByteIs(v: nat, w: nat, i: nat)
    requires i < w
    ensures LittleEndian(v, w)[i] == v / Pow256(i) % 256
  {
    if i > 0 {
      LittleByteIs(v / 256, w - 1, i - 1);
      DividedTwice(v, 256, Pow256(i - 1));
    }
  }

  lemma DividedTwice(v: nat, a: nat, b: nat)
    requires a > 0 && b > 0
    ensures a * b > 0 && v / a / b == v / (a * b)
  {
    var q, r, s := v / a / b, v / a % b, v % a;
    assert v == (q * b + r) * a + s by { assert v / a == q * b + r; }
    assert (q * b + r) * a + s == q * (a * b) + (r * a + s);
    assert r * a + s < a * b by { MulMonotone(r + 1, b, a); }
    DivisionIsUnique(v, a * b, q, r * a + s);
  }

  lemma WidthsAre()
    ensures Pow256(1) == 0x100 && Pow256(2) == 0x1_0000 && Pow256(4) == 0x1_0000_0000
    ensures Pow256(8) == 0x1_0000_0000_0000_0000
  {
    assert Pow256(3) == 0x100_0000 && Pow256(6) == 256 * Pow256(5);
    assert Pow256(5) == 256 * Pow256(4) && Pow256(7) == 256 * Pow256(6);
  }

  /** The bit pattern of a value that fits is the value modulo 256^w, and back. */
  lemma SignedIsResidue(v: int, w: nat)
    requires w > 0 && 0 <= v + Pow256(w) / 2 && v < Pow256(w) / 2
    ensures Unsigned(v, w) == v % Pow256(w) && Signed(v % Pow256(w), w) == v
  {
    var m := Pow256(w);
    assert m == 256 * Pow256(w - 1);
    if v < 0 { ResidueBelow(v, m); } else { DivisionIsUnique(v, m, 0, v); }
  }

  lemma ResidueBelow(v: int, m: nat)
    requires -(m as int) <= v < 0
    ensures v % m == v + m
  {
    var d := v / m + 1;
    assert v == v / m * m + v % m;
    assert d * m == v + m - v % m;
    assert d >= 1 ==> d * m >= m;
    assert d <= -1 ==> d * m + m <= 0;
  }

  // ------------------------------------------------------------ variable length

  function Pow2(n: nat): (r: nat)
    ensures r > 0
  {
    if n == 0 then 1 else 2 * Pow2(n - 1)
  }

  function Varint(v: nat): (r: seq<Byte>)
    ensures |r| > 0
  {
    if v >= 128 then [v % 128 + 128] + Varint(v / 128) else [v]
  }

  lemma PowersAre()
    ensures Pow2(32) == 0x1_0000_0000 && Pow2(64) == 0x1_0000_0000_0000_0000
  {
    hide Pow2;
    assert Pow2(1) == 2 by { PowerOne(); }
    Pow2Plus7(1);
    Pow2Add(8, 8);
    Pow2Add(16, 16);
    Pow2Add(32, 32);
  }

  lemma PowerOne()
    ensures Pow2(1) == 2
  {
    assert Pow2(0) == 1;
  }

  /** Byte i holds bits 7i to 7i+6, and says whether more bytes follow. */
  lemma {:induction false} VarintByteIs(v: nat, i: nat)
    requires i < |Varint(v)|
    ensures Varint(v)[i] == v / Pow2(7 * i) % 128 + if i + 1 < |Varint(v)| then 128 else 0
  {
    if i > 0 {
      VarintByteIs(v / 128, i - 1);
      Pow2Plus7(7 * (i - 1));
      DividedTwice(v, 128, Pow2(7 * (i - 1)));
    } else {
      assert Pow2(0) == 1;
    }
  }

  /** -2^(bits-1) <= v < 2^(bits-1). */
  predicate SignedFits(v: int, bits: nat) {
    bits > 0 && 0 <= v + Pow2(bits - 1) && v < Pow2(bits - 1)
  }

  lemma Pow2Plus7(n: nat)
    ensures Pow2(n + 7) == 128 * Pow2(n)
  {
    assert Pow2(n + 7) == 2 * Pow2(n + 6);
    assert Pow2(n + 6) == 2 * Pow2(n + 5);
    assert Pow2(n + 5) == 2 * Pow2(n + 4);
    assert Pow2(n + 4) == 2 * Pow2(n + 3);
    assert Pow2(n + 3) == 2 * Pow2(n + 2);
    assert Pow2(n + 2) == 2 * Pow2(n + 1);
  }

  lemma Pow2Monotone(m: nat, n: nat)
    requires m <= n
    ensures Pow2(m) <= Pow2(n)
  {
    if m < n {
      Pow2Monotone(m, n - 1);
    }
  }

  lemma Pow2Add(m: nat, n: nat)
    ensures Pow2(m + n) == Pow2(m) * Pow2(n)
  {
    if n > 0 {
      Pow2Add(m, n - 1);
      assert Pow2(m + n) == 2 * Pow2(m + (n - 1));
    }
  }

  /** x << i in an integer type of `bits` bits: the bits beyond the type are dropped. */
  function ShiftLeft(x: nat, i: nat, bits: nat): nat
    requires i <= bits
  {
    x % Pow2(bits - i) * Pow2(i)
  }

  /** Adding a shifted group of 7 bits to the `i` bits below it. */
  lemma ShiftLeftFits(acc: nat, x: nat, i: nat, bits: nat)
    requires i <= bits && acc < Pow2(i) && x < 128
    ensures acc + ShiftLeft(x, i, bits) < Pow2(if i + 7 < bits then i + 7 else bits)
  {
    hide Pow2;
    Pow2Plus7(i);
    Pow2Add(bits - i, i);
    RemainderIsSmall(x, Pow2(bits - i));
    var m := x % Pow2(bits - i);
    BelowMultiple(acc, m, 128, Pow2(i));
    BelowMultiple(acc, m, Pow2(bits - i), Pow2(i));
  }

  lemma RemainderIsSmall(x: nat, n: nat)
    requires n > 0
    ensures x % n < n && x % n <= x
  {
  }

  lemma BelowMultiple(acc: nat, m: nat, n: nat, p: nat)
    requires acc < p && m < n
    ensures acc + m * p < n * p
  {
    MulMonotone(m + 1, n, p);
    assert (m + 1) * p == m * p + p;
  }

  lemma MulMonotone(a: nat, b: nat, c: nat)
    requires a <= b
    ensures a * c <= b * c
  {
  }

  /** A value below 2^(7k) takes at most k bytes, and conversely. */
  lemma {:induction false} VarintLength(v: nat, k: nat)
    requires k > 0
    ensures |Varint(v)| <= k <==> v < Pow2(7 * k)
  {
    Pow2Plus7(7 * (k - 1));
    if k == 1 {
      assert Pow2(0) == 1;
    } else {
      VarintLength(v / 128, k - 1);
      Pow2Monotone(7, 7 * k);
      Pow2Plus7(0);
    }
  }

  /** The 5 and 10 byte scratch arrays of writeUint32 and writeUint64 are large enough. */
  lemma VarintFitsScratch(v: nat)
    ensures v < Pow2(32) ==> |Varint(v)| <= 5
    ensures v < Pow2(64) ==> |Varint(v)| <= 10
  {
    Pow2Monotone(32, 35);
    Pow2Monotone(64, 70);
    VarintLength(v, 5);
    VarintLength(v, 10);
  }

  /** No encoding is a prefix of another one. */
  lemma {:induction false} VarintPrefixFree(v: nat, u: nat)
    requires Varint(v) <= Varint(u)
    ensures v == u
  {
    if v >= 128 {
      assert Varint(v)[0] == Varint(u)[0];
      assert Varint(u)[1..] == Varint(u / 128);
      assert Varint(v)[1..] == Varint(v / 128);
      VarintPrefixFree(v / 128, u / 128);
    } else {
      assert Varint(v)[0] == Varint(u)[0];
    }
  }

  /** Canonical: the last byte of a multi-byte encoding is not zero. */
  lemma {:induction false} VarintCanonical(v: nat)
    ensures var r := Varint(v);
            && r[|r| - 1] < 128
            && (|r| > 1 ==> r[|r| - 1] > 0)
            && (forall i :: 0 <= i < |r| - 1 ==> r[i] >= 128)
  {
    if v >= 128 {
      VarintCanonical(v / 128);
      var r, rest := Varint(v), Varint(v / 128);
      assert r[1..] == rest;
      assert forall i :: 0 < i < |r| ==> r[i] == rest[i - 1];
    }
  }

  /** (v << 1) ^ (v >> (w - 1)): the second operand is 0 or all ones, and xor with all ones is the complement. */
  function EncodeZigzag(v: int, bits: nat): nat
    requires SignedFits(v, bits)
  {
    var shifted := 2 * (if v < 0 then v + Pow2(bits) else v) % Pow2(bits);
    if v < 0 then Pow2(bits) - 1 - shifted else shifted
  }

  /** (v >> 1) ^ -(v & 1), read as a signed value. */
  function DecodeZigzag(u: nat, bits: nat): int
    requires bits > 0 && u < Pow2(bits)
  {
    var pattern := if u % 2 == 1 then Pow2(bits) - 1 - u / 2 else u / 2;
    if pattern >= Pow2(bits - 1) then pattern - Pow2(bits) else pattern
  }

  /** The bit formula is the usual one: 0, -1, 1, -2, ... become 0, 1, 2, 3, ... */
  lemma ZigzagValue(v: int, bits: nat)
    requires SignedFits(v, bits)
    ensures EncodeZigzag(v, bits) == if v < 0 then -2 * v - 1 else 2 * v
    ensures EncodeZigzag(v, bits) < Pow2(bits)
  {
    var m := Pow2(bits);
    if v < 0 {
      var x := 2 * (v + m);
      assert x == m + (2 * v + m);
      assert x % m == 2 * v + m by {
        DivisionIsUnique(x, m, 1, 2 * v + m);
      }
    } else {
      DivisionIsUnique(2 * v, m, 0, 2 * v);
    }
  }

  lemma {:induction false} DecodeZigzagValue(v: int, u: nat, bits: nat)
    requires SignedFits(v, bits) && u == if v < 0 then -2 * v - 1 else 2 * v
    ensures u < Pow2(bits) && DecodeZigzag(u, bits) == v
  {
    assert Pow2(bits) == 2 * Pow2(bits - 1);
  }

  lemma ZigzagRoundTrip(v: int, bits: nat)
    requires SignedFits(v, bits)
    ensures EncodeZigzag(v, bits) < Pow2(bits)
    ensures DecodeZigzag(EncodeZigzag(v, bits), bits) == v
  {
    ZigzagValue(v, bits);
    DecodeZigzagValue(v, if v < 0 then -2 * v - 1 else 2 * v, bits);
  }

  lemma ZigzagOnto(u: nat, bits: nat)
    requires bits > 0 && u < Pow2(bits)
    ensures SignedFits(DecodeZigzag(u, bits), bits)
    ensures EncodeZigzag(DecodeZigzag(u, bits), bits) == u
  {
    ZigzagValue(DecodeZigzag(u, bits), bits);
  }

  /** writeInt64 takes at most k bytes exactly for -2^(7k-1) <= v < 2^(7k-1). */
  lemma ZigzagVarintLength(v: int, bits: nat, k: nat)
    requires SignedFits(v, bits) && k > 0
    ensures |Varint(EncodeZigzag(v, bits))| <= k <==> SignedFits(v, 7 * k)
  {
    ZigzagValue(v, bits);
    VarintLength(EncodeZigzag(v, bits), k);
    assert Pow2(7 * k) == 2 * Pow2(7 * k - 1);
  }
}
