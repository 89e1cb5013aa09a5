/**
 Programs of typed writes, and reading them back.  A program is a list of items
 (values and byte-order switches); writing it and reading it with the same list
 of kinds from the same position gives the values back.
 */
module BytePrograms {
  import opened Bytes
  import opened FlatBuffer
  import opened ByteCodec

  datatype Prefix = F16 | F32 | F64 | Vint

  /** One call: a value to write, or setIsLittleEndian. */
  datatype Item =
    | Fixed(w: nat, signed: bool, v: int)     // w bytes; floats and doubles are their bit patterns
    | VarUint(bits: nat, u: nat)
    | VarInt(bits: nat, i: int)
    | Text(prefix: Prefix, s: seq<Byte>)
    | Order(little: bool)
  {
    /** The value is one of the C type. */
    predicate WellTyped() {
      match this
      case Fixed(w, signed, v) =>
        w in {1, 2, 4, 8} && (if signed then 0 <= v + Pow256(w) / 2 && v < Pow256(w) / 2 else 0 <= v < Pow256(w))
      case VarUint(bits, u) => bits in {32, 64} && u < Pow2(bits)
      case VarInt(bits, i) => bits in {32, 64} && SignedFits(i, bits)
      case Text(_, _) => true
      case Order(_) => true
    }

    /** The length of a string is in the range of its prefix, and the string can be made. */
    predicate Fits(room: nat) {
      Text? ==> |s| < PrefixLimit(prefix) && |s| <= room
    }

    function Kind(): Kind {
      match this
      case Fixed(w, signed, _) => KFixed(w, signed)
      case VarUint(bits, _) => KVarUint(bits)
      case VarInt(bits, _) => KVarInt(bits)
      case Text(prefix, _) => KText(prefix)
      case Order(little) => KOrder(little)
    }
  }

  /** One read call. */
  datatype Kind =
    | KFixed(w: nat, signed: bool)
    | KVarUint(bits: nat)
    | KVarInt(bits: nat)
    | KText(prefix: Prefix)
    | KOrder(little: bool)
  {
    predicate Readable() {
      match this
      case KFixed(w, _) => w in {1, 2, 4, 8}
      case KVarUint(bits) => bits in {32, 64}
      case KVarInt(bits) => bits in {32, 64}
      case KText(_) => true
      case KOrder(_) => true
    }
  }

  datatype Got<+T> = Ok(value: T) | Failed(how: ReadOutcome)

  function PrefixLimit(p: Prefix): nat {
    match p
    case F16 => Pow256(2)
    case F32 => Pow256(4)
    case F64 => Pow256(8)
    case Vint => Pow2(64)
  }

  /** The length prefix: std::string::size() converted to the prefix's type. */
  function PrefixBytes(p: Prefix, n: nat, little: bool): (r: seq<Byte>)
    ensures |r| > 0
  {
    match p
    case F16 => FixedBytes(n % Pow256(2), 2, little)
    case F32 => FixedBytes(n % Pow256(4), 4, little)
    case F64 => FixedBytes(n % Pow256(8), 8, little)
    case Vint => Varint(n % Pow2(64))
  }

  function Encode(item: Item, little: bool): seq<Byte>
    requires item.WellTyped()
  {
    match item
    case Fixed(w, _, v) => FixedBytes(Unsigned(v, w), w, little)
    case VarUint(_, u) => Varint(u)
    case VarInt(bits, i) => Varint(EncodeZigzag(i, bits))
    case Text(prefix, s) => PrefixBytes(prefix, |s|, little) + s
    case Order(_) => []
  }

  /** A string is written behind its length, in two, four or eight bytes or as a varint; a longer one is cut off. */
  lemma TextBytes(s: seq<Byte>, little: bool)
    ensures Encode(Text(F16, s), little) == FixedBytes(|s| % 0x1_0000, 2, little) + s
    ensures Encode(Text(F32, s), little) == FixedBytes(|s| % 0x1_0000_0000, 4, little) + s
    ensures Encode(Text(F64, s), little) == FixedBytes(|s| % 0x1_0000_0000_0000_0000, 8, little) + s
    ensures Encode(Text(Vint, s), little) == Varint(|s| % 0x1_0000_0000_0000_0000) + s
    ensures PrefixLimit(F16) == 0x1_0000 && PrefixLimit(F32) == 0x1_0000_0000
    ensures PrefixLimit(F64) == 0x1_0000_0000_0000_0000 && PrefixLimit(Vint) == 0x1_0000_0000_0000_0000
  {
    hide FixedBytes, Varint, Pow256, Pow2;
    WidthsAre();
    PowersAre();
  }

  ghost function WriteItem(f: Flat, base: nat, item: Item): (g: Flat)
    requires base > 0 && f.WellFormed() && item.WellTyped()
    ensures g.WellFormed() && f.pos <= g.pos
  {
    WrittenWellFormed(f, base, Encode(item, f.little));
    if item.Order? then f.(little := item.little) else Written(f, base, Encode(item, f.little))
  }

  ghost function WriteProgram(f: Flat, base: nat, items: seq<Item>): (g: Flat)
    requires base > 0 && f.WellFormed() && forall i :: i in items ==> i.WellTyped()
    ensures g.WellFormed() && f.pos <= g.pos
    decreases |items|
  {
    if items == [] then f else WriteProgram(WriteItem(f, base, items[0]), base, items[1..])
  }

  // -------------------------------------------------------------------- reading

  function ReadFixed(f: Flat, w: nat): (r: (Got<nat>, Flat))
    requires f.WellFormed()
    ensures r.1.WellFormed()
  {
    var (o, g) := ReadFrom(f, w);
    match o
    case Data(bytes) => (Ok(FromFixedBytes(bytes, f.little)), g)
    case _ => (Failed(o), g)
  }

  /** The loop of readUint32 and readUint64, from shift `i` on with the bits `acc` already read. */
  function ReadVarint(f: Flat, bits: nat, i: nat, acc: nat): (r: (Got<nat>, Flat))
    requires f.WellFormed()
    ensures r.1.WellFormed()
    decreases if i < bits then bits - i else 0
  {
    if i >= bits then (Ok(acc), f)
    else
      var (o, g) := ReadFrom(f, 1);
      match o
      case Data(bytes) =>
        var sum := acc + ShiftLeft(bytes[0] % 128, i, bits);
        if bytes[0] < 128 then (Ok(sum), g) else ReadVarint(g, bits, i + 7, sum)
      case _ => (Failed(o), g)
  }

  function ReadPrefix(f: Flat, p: Prefix): (r: (Got<nat>, Flat))
    requires f.WellFormed()
    ensures r.1.WellFormed()
  {
    match p
    case F16 => ReadFixed(f, 2)
    case F32 => ReadFixed(f, 4)
    case F64 => ReadFixed(f, 8)
    case Vint => ReadVarint(f, 64, 0, 0)
  }

  function ReadText(f: Flat, p: Prefix): (r: (Got<seq<Byte>>, Flat))
    requires f.WellFormed()
    ensures r.1.WellFormed()
  {
    var (n, g) := ReadPrefix(f, p);
    match n
    case Failed(how) => (Failed(how), g)
    case Ok(len) =>
      if len > f.room then (Failed(TooLong), g)
      else
        var (o, h) := ReadFrom(g, len);
        if o.Data? then (Ok(o.bytes), h) else (Failed(o), h)
  }

  function ReadItem(f: Flat, kind: Kind): (r: (Got<Item>, Flat))
    requires f.WellFormed() && kind.Readable()
    ensures r.1.WellFormed()
  {
    match kind
    case KFixed(w, signed) =>
      var (n, g) := ReadFixed(f, w);
      (if n.Ok? then Ok(Fixed(w, signed, if signed then Signed(n.value, w) else n.value)) else Failed(n.how), g)
    case KVarUint(bits) =>
      var (n, g) := ReadVarint(f, bits, 0, 0);
      (if n.Ok? then Ok(VarUint(bits, n.value)) else Failed(n.how), g)
    case KVarInt(bits) =>
      var (n, g) := ReadVarint(f, bits, 0, 0);
      (if n.Ok? then
         ReadVarintFits(f, bits, 0, 0);
         Ok(VarInt(bits, DecodeZigzag(n.value, bits)))
       else Failed(n.how), g)
    case KText(prefix) =>
      var (s, g) := ReadText(f, prefix);
      (if s.Ok? then Ok(Text(prefix, s.value)) else Failed(s.how), g)
    case KOrder(little) => (Ok(Order(little)), f.(little := little))
  }

  /** Reads in order until one fails. */
  function ReadProgram(f: Flat, kinds: seq<Kind>): (r: (Got<seq<Item>>, Flat))
    requires f.WellFormed() && forall k :: k in kinds ==> k.Readable()
    ensures r.1.WellFormed()
    decreases |kinds|
  {
    if kinds == [] then (Ok([]), f)
    else
      var (first, g) := ReadItem(f, kinds[0]);
      if first.Failed? then (Failed(first.how), g)
      else
        var (rest, h) := ReadProgram(g, kinds[1..]);
        (if rest.Ok? then Ok([first.value] + rest.value) else rest, h)
  }

  /** What the loop reads fits the type, whatever the bytes are. */
  lemma {:induction false} ReadVarintFits(f: Flat, bits: nat, i: nat, acc: nat)
    requires f.WellFormed() && acc < Pow2(if i < bits then i else bits)
    ensures var (n, _) := ReadVarint(f, bits, i, acc); n.Ok? ==> n.value < Pow2(bits)
    decreases if i < bits then bits - i else 0
  {
    if i < bits {
      var (o, g) := ReadFrom(f, 1);
      if o.Data? {
        ShiftLeftFits(acc, o.bytes[0] % 128, i, bits);
        var sum := acc + ShiftLeft(o.bytes[0] % 128, i, bits);
        if o.bytes[0] < 128 {
          Pow2Monotone(if i + 7 < bits then i + 7 else bits, bits);
        } else {
          ReadVarintFits(g, bits, i + 7, sum);
        }
      }
    }
  }

  // ----------------------------------------------------------------- round trip

  /** `bytes` lie at the position. */
  ghost predicate Has(f: Flat, bytes: seq<Byte>) {
    f.WellFormed() && f.pos + |bytes| <= |f.data| && f.data[f.pos..f.pos + |bytes|] == bytes
  }

  function Skip(f: Flat, n: nat): Flat {
    f.(pos := f.pos + n)
  }

  lemma HasSplit(f: Flat, a: seq<Byte>, b: seq<Byte>)
    requires Has(f, a + b)
    ensures Has(f, a) && Has(Skip(f, |a|), b)
  {
    var n := |a| + |b|;
    assert f.data[f.pos..f.pos + |a|] == f.data[f.pos..f.pos + n][..|a|];
    assert f.data[f.pos + |a|..f.pos + n] == f.data[f.pos..f.pos + n][|a|..];
  }

  lemma ReadFixedBack(f: Flat, v: nat, w: nat)
    requires w > 0 && v < Pow256(w) && Has(f, FixedBytes(v, w, f.little))
    ensures ReadFixed(f, w) == (Ok(v), Skip(f, w))
  {
    var bytes := FixedBytes(v, w, f.little);
    assert ReadFrom(f, w) == (Data(bytes), Skip(f, w));
    FixedRoundTrip(v, w, f.little);
  }

  lemma {:induction false} ReadVarintBack(f: Flat, v: nat, bits: nat, i: nat, acc: nat)
    requires i < bits && v < Pow2(bits - i) && Has(f, Varint(v))
    ensures ReadVarint(f, bits, i, acc) == (Ok(acc + v * Pow2(i)), Skip(f, |Varint(v)|))
    decreases v
  {
    hide Pow2, ShiftLeft, ReadVarint;
    var b, x := Varint(v)[0], v % 128;
    assert f.data[f.pos..f.pos + |Varint(v)|][0] == b;
    VarintStep(f, bits, i, acc);
    ShiftStays(x, i, bits);
    if v >= 128 {
      NextShift(v, bits - i);
      HasSplit(f, [b], Varint(v / 128));
      ReadVarintBack(Skip(f, 1), v / 128, bits, i + 7, acc + x * Pow2(i));
      Pow2Plus7(i);
      Regroup(v, Pow2(i));
    }
  }

  /** A shift that drops no bit. */
  lemma ShiftStays(x: nat, i: nat, bits: nat)
    requires i <= bits && x < Pow2(bits - i)
    ensures ShiftLeft(x, i, bits) == x * Pow2(i)
  {
    hide Pow2;
    SmallMod(x, Pow2(bits - i));
  }

  lemma ReadWholeVarint(f: Flat, v: nat, bits: nat)
    requires bits > 0 && v < Pow2(bits) && Has(f, Varint(v))
    ensures ReadVarint(f, bits, 0, 0) == (Ok(v), Skip(f, |Varint(v)|))
  {
    ReadVarintBack(f, v, bits, 0, 0);
    assert Pow2(0) == 1;
  }

  lemma SmallMod(x: nat, m: nat)
    requires x < m
    ensures x % m == x
  {
  }

  lemma Regroup(v: nat, p: nat)
    ensures v % 128 * p + v / 128 * (128 * p) == v * p
  {
    assert v == v % 128 + v / 128 * 128;
    assert v * p == v % 128 * p + v / 128 * 128 * p;
  }

  lemma NextShift(v: nat, n: nat)
    requires 128 <= v < Pow2(n)
    ensures n > 7 && v / 128 < Pow2(n - 7)
  {
    Pow2Plus7(0);
    if n <= 7 {
      Pow2Monotone(n, 7);
      assert false;
    }
    Pow2Plus7(n - 7);
  }

  lemma ReadLengthBack(f: Flat, n: nat, w: nat)
    requires w > 0 && Has(f, FixedBytes(n % Pow256(w), w, f.little))
    ensures ReadFixed(f, w) == (Ok(n % Pow256(w)), Skip(f, w))
  {
    ReadFixedBack(f, n % Pow256(w), w);
  }

  lemma ReadPrefixBack(f: Flat, p: Prefix, n: nat)
    requires Has(f, PrefixBytes(p, n, f.little))
    ensures ReadPrefix(f, p) == (Ok(n % PrefixLimit(p)), Skip(f, |PrefixBytes(p, n, f.little)|))
  {
    match p {
      case F16 => ReadLengthBack(f, n, 2);
      case F32 => ReadLengthBack(f, n, 4);
      case F64 => ReadLengthBack(f, n, 8);
      case Vint =>
        ReadWholeVarint(f, n % Pow2(64), 64);
    }
  }

  /** The one item whose reading touches a null node: an empty string that ends the capacity. */
  ghost predicate HitsEnd(f: Flat, item: Item)
    requires item.WellTyped()
  {
    item.Text? && item.s == [] && f.pos + |Encode(item, f.little)| == f.cap
  }

  function After(f: Flat, item: Item): Flat
    requires item.WellTyped()
  {
    Skip(f, |Encode(item, f.little)|).(little := if item.Order? then item.little else f.little)
  }

  lemma Truncated(n: nat, p: Prefix)
    requires n >= PrefixLimit(p)
    ensures PrefixLimit(p) > 0 && n % PrefixLimit(p) < n
  {
  }

  lemma ReadTextBack(f: Flat, item: Item)
    requires item.Text? && Has(f, Encode(item, f.little))
    ensures var (r, g) := ReadItem(f, item.Kind());
            && (item.Fits(f.room) && !HitsEnd(f, item) ==> r == Ok(item) && g == After(f, item))
            && (!item.Fits(f.room) || HitsEnd(f, item) ==> r != Ok(item))
  {
    hide PrefixBytes, ReadPrefix, ReadFixed, ReadVarint, FixedBytes, Varint, EncodeZigzag, PrefixLimit;
    var prefix := PrefixBytes(item.prefix, |item.s|, f.little);
    HasSplit(f, prefix, item.s);
    ReadPrefixBack(f, item.prefix, |item.s|);
    if item.Fits(f.room) {
      SmallMod(|item.s|, PrefixLimit(item.prefix));
    } else if |item.s| < PrefixLimit(item.prefix) {
      SmallMod(|item.s|, PrefixLimit(item.prefix));
    } else {
      Truncated(|item.s|, item.prefix);
    }
  }

  lemma ReadFixedItemBack(f: Flat, item: Item)
    requires item.Fixed? && item.WellTyped() && Has(f, Encode(item, f.little))
    ensures ReadItem(f, item.Kind()) == (Ok(item), After(f, item))
  {
    hide Has, FixedBytes, ReadFixed, Varint, EncodeZigzag, ReadVarint, ReadText, PrefixBytes;
    var w := item.w;
    assert Pow256(w) == 256 * Pow256(w - 1);
    ReadFixedBack(f, Unsigned(item.v, w), w);
  }

  lemma ReadVarUintItemBack(f: Flat, item: Item)
    requires item.VarUint? && item.WellTyped() && Has(f, Encode(item, f.little))
    ensures ReadItem(f, item.Kind()) == (Ok(item), After(f, item))
  {
    ReadWholeVarint(f, item.u, item.bits);
  }

  lemma ReadVarIntItemBack(f: Flat, item: Item)
    requires item.VarInt? && item.WellTyped() && Has(f, Encode(item, f.little))
    ensures ReadItem(f, item.Kind()) == (Ok(item), After(f, item))
  {
    ZigzagRoundTrip(item.i, item.bits);
    ReadWholeVarint(f, EncodeZigzag(item.i, item.bits), item.bits);
  }

  lemma ReadItemBack(f: Flat, item: Item)
    requires item.WellTyped() && Has(f, Encode(item, f.little))
    ensures var (r, g) := ReadItem(f, item.Kind());
            && (item.Fits(f.room) && !HitsEnd(f, item) ==> r == Ok(item) && g == After(f, item))
            && (!item.Fits(f.room) || HitsEnd(f, item) ==> r != Ok(item))
  {
    match item {
      case Fixed(_, _, _) => ReadFixedItemBack(f, item);
      case VarUint(_, _) => ReadVarUintItemBack(f, item);
      case VarInt(_, _) => ReadVarIntItemBack(f, item);
      case Text(_, _) => ReadTextBack(f, item);
      case Order(_) =>
    }
  }

  // ------------------------------------------------------- any bytes, and failures

  /** The number whose groups of seven bits these bytes hold, the lowest first. */
  function Groups(s: seq<Byte>): nat {
    if s == [] then 0 else s[0] % 128 + 128 * Groups(s[1..])
  }

  lemma LastGroup(acc: nat, x: nat, i: nat, bits: nat)
    requires i < bits && acc < Pow2(i) && x < 128
    ensures acc + ShiftLeft(x, i, bits) == (acc + x * Pow2(i)) % Pow2(bits)
  {
    hide Pow2;
    ShiftLeftFits(acc, x, i, bits);
    Pow2Monotone(if i + 7 < bits then i + 7 else bits, bits);
    Pow2Add(bits - i, i);
    DropsMultiples(acc, x, Pow2(bits - i), Pow2(i));
  }

  lemma DropsMultiples(acc: nat, x: nat, p: nat, q: nat)
    requires p > 0 && acc + x % p * q < p * q
    ensures (acc + x * q) % (p * q) == acc + x % p * q
  {
    Unfold(x, p, q);
    DivisionIsUnique(acc + x * q, p * q, x / p, acc + x % p * q);
  }

  lemma Unfold(x: nat, p: nat, q: nat)
    requires p > 0
    ensures x * q == x / p * (p * q) + x % p * q
  {
    var d, r := x / p, x % p;
    assert x == d * p + r;
    assert x * q == d * p * q + r * q;
  }

  lemma InnerGroup(acc: nat, x: nat, i: nat, bits: nat)
    requires i + 7 <= bits && acc < Pow2(i) && x < 128
    ensures ShiftLeft(x, i, bits) == x * Pow2(i) && acc + x * Pow2(i) < Pow2(i + 7)
  {
    hide Pow2;
    Pow2Plus7(0);
    assert Pow2(0) == 1 by { One(); }
    Pow2Monotone(7, bits - i);
    SmallMod(x, Pow2(bits - i));
    ShiftLeftFits(acc, x, i, bits);
  }

  lemma One()
    ensures Pow2(0) == 1
  {
  }

  lemma MoreGroups(acc: nat, x: nat, more: nat, i: nat)
    ensures acc + (x + 128 * more) * Pow2(i) == acc + x * Pow2(i) + more * Pow2(i + 7)
  {
    hide Pow2;
    Pow2Plus7(i);
    var q := Pow2(i);
    assert (x + 128 * more) * q == x * q + more * (128 * q);
  }

  /** The groups of the next `n` bytes above the `i` bits already read, modulo 2^bits. */
  function Value(f: Flat, bits: nat, i: nat, acc: nat, n: nat): nat
    requires f.pos + n <= |f.data|
  {
    (acc + Groups(f.data[f.pos..f.pos + n]) * Pow2(i)) % Pow2(bits)
  }

  /** One byte more. */
  lemma ValueStep(f: Flat, bits: nat, i: nat, acc: nat, n: nat)
    requires n > 0 && f.pos + n <= |f.data| && i < bits && acc < Pow2(i) && (n == 1 || i + 7 < bits)
    ensures var sum := acc + ShiftLeft(f.data[f.pos] % 128, i, bits);
            && sum < Pow2(if i + 7 < bits then i + 7 else bits)
            && Value(f, bits, i, acc, n) == if n == 1 then sum else Value(Skip(f, 1), bits, i + 7, sum, n - 1)
  {
    hide Pow2, ShiftLeft, Value;
    ShiftLeftFits(acc, f.data[f.pos] % 128, i, bits);
    if n == 1 {
      ValueOfLast(f, bits, i, acc);
    } else {
      ValueOfMore(f, bits, i, acc, n);
    }
  }

  lemma ValueOfLast(f: Flat, bits: nat, i: nat, acc: nat)
    requires f.pos < |f.data| && i < bits && acc < Pow2(i)
    ensures Value(f, bits, i, acc, 1) == acc + ShiftLeft(f.data[f.pos] % 128, i, bits)
  {
    hide Pow2, ShiftLeft;
    GroupsFrom(f, 1);
    assert f.data[f.pos + 1..f.pos + 1] == [];
    LastGroup(acc, f.data[f.pos] % 128, i, bits);
  }

  lemma ValueOfMore(f: Flat, bits: nat, i: nat, acc: nat, n: nat)
    requires n > 1 && f.pos + n <= |f.data| && i + 7 < bits && acc < Pow2(i)
    ensures Value(f, bits, i, acc, n)
         == Value(Skip(f, 1), bits, i + 7, acc + ShiftLeft(f.data[f.pos] % 128, i, bits), n - 1)
  {
    hide Pow2, ShiftLeft, Groups;
    var x, more := f.data[f.pos] % 128, Groups(f.data[f.pos + 1..f.pos + n]);
    GroupsFrom(f, n);
    InnerGroup(acc, x, i, bits);
    MoreGroups(acc, x, more, i);
  }

  lemma VarintStep(f: Flat, bits: nat, i: nat, acc: nat)
    requires f.WellFormed() && i < bits && f.pos < |f.data|
    ensures var sum := acc + ShiftLeft(f.data[f.pos] % 128, i, bits);
            ReadVarint(f, bits, i, acc)
              == if f.data[f.pos] < 128 then (Ok(sum), Skip(f, 1)) else ReadVarint(Skip(f, 1), bits, i + 7, sum)
  {
    hide Pow2, ShiftLeft;
    ReadFromIs(f, 1);
    assert ReadFrom(f, 1).0.bytes[0] == f.data[f.pos];
  }

  /**
   The loop of readUint32 and readUint64 on any bytes: it takes bytes until one is
   below 128 or the type is full, and answers with their groups modulo 2^bits; if
   the bytes run out first it fails, and has taken what there was.  `j` counts the
   bytes from 128 on that it takes.
   */
  lemma {:induction false} ReadVarintIs(f: Flat, bits: nat, i: nat, acc: nat, j: nat)
    requires f.WellFormed() && f.pos + j <= |f.data| && i < bits && acc < Pow2(i)
    requires forall t :: f.pos <= t < f.pos + j ==> f.data[t] >= 128
    requires i + 7 * j >= bits || f.pos + j == |f.data| || f.data[f.pos + j] < 128
    requires j > 0 ==> i + 7 * (j - 1) < bits
    ensures var r := ReadVarint(f, bits, i, acc);
            if i + 7 * j < bits && f.pos + j == |f.data| then r == (Failed(OutOfRange), Skip(f, j))
            else
              var n := if i + 7 * j >= bits then j else j + 1;
              r == (Ok(Value(f, bits, i, acc, n)), Skip(f, n))
    decreases j
  {
    hide Pow2, ShiftLeft, Value, ReadVarint;
    if f.pos == |f.data| {
      VarintEnds(f, bits, i, acc);
    } else {
      var n := if i + 7 * j >= bits then j else j + 1;
      var sum := acc + ShiftLeft(f.data[f.pos] % 128, i, bits);
      VarintStep(f, bits, i, acc);
      ShiftLeftFits(acc, f.data[f.pos] % 128, i, bits);
      if f.pos + n <= |f.data| { ValueStep(f, bits, i, acc, n); }
      if j > 0 {
        if i + 7 < bits {
          ReadVarintIs(Skip(f, 1), bits, i + 7, sum, j - 1);
        } else {
          VarintEnds(Skip(f, 1), bits, i + 7, sum);
        }
      }
    }
  }

  lemma VarintEnds(f: Flat, bits: nat, i: nat, acc: nat)
    requires f.WellFormed() && (i >= bits || f.pos == |f.data|)
    ensures ReadVarint(f, bits, i, acc) == (if i >= bits then Ok(acc) else Failed(OutOfRange), f)
  {
  }

  lemma GroupsFrom(f: Flat, n: nat)
    requires f.pos + n <= |f.data| && n > 0
    ensures Groups(f.data[f.pos..f.pos + n]) == f.data[f.pos] % 128 + 128 * Groups(f.data[f.pos + 1..f.pos + n])
  {
    assert f.data[f.pos..f.pos + n][1..] == f.data[f.pos + 1..f.pos + n];
  }

  /** A fixed-width read fails exactly if too few bytes are left, and then takes none. */
  lemma ReadFixedIs(f: Flat, w: nat)
    requires f.WellFormed() && w > 0
    ensures ReadFixed(f, w) == if f.pos + w > |f.data| then (Failed(OutOfRange), f)
                               else (Ok(FromFixedBytes(f.data[f.pos..f.pos + w], f.little)), Skip(f, w))
  {
    ReadFromIs(f, w);
  }

  /** A varint fails exactly if the bytes run out before the last one and before the type is full; it takes them all. */
  lemma {:induction false} FailedVarintLeaves(f: Flat, bits: nat, i: nat, acc: nat)
    requires f.WellFormed()
    ensures var (r, g) := ReadVarint(f, bits, i, acc);
            && (r.Failed? <==>
                  i + 7 * (|f.data| - f.pos) < bits && forall t :: f.pos <= t < |f.data| ==> f.data[t] >= 128)
            && (r.Failed? ==> r.how == OutOfRange && g == f.(pos := |f.data|))
            && (r.Ok? ==> g == f.(pos := g.pos) && f.pos <= g.pos)
    decreases if i < bits then bits - i else 0
  {
    hide ShiftLeft;
    if i >= bits || f.pos == |f.data| {
      VarintEnds(f, bits, i, acc);
    } else {
      VarintStep(f, bits, i, acc);
      var g := Skip(f, 1);
      if f.data[f.pos] >= 128 {
        FailedVarintLeaves(g, bits, i + 7, acc + ShiftLeft(f.data[f.pos] % 128, i, bits));
        assert (forall t :: f.pos <= t < |f.data| ==> f.data[t] >= 128)
          <==> forall t :: g.pos <= t < |g.data| ==> g.data[t] >= 128;
      }
    }
  }

  /** The length prefix: two, four or eight bytes, or a varint. */
  lemma ReadPrefixIs(f: Flat, p: Prefix)
    requires f.WellFormed()
    ensures var (n, g) := ReadPrefix(f, p);
            match p
            case Vint => n == ReadVarint(f, 64, 0, 0).0 && g == ReadVarint(f, 64, 0, 0).1
            case _ =>
              var w := if p.F16? then 2 else if p.F32? then 4 else 8;
              if f.pos + w > |f.data| then n == Failed(OutOfRange) && g == f
              else n == Ok(FromFixedBytes(f.data[f.pos..f.pos + w], f.little)) && g == Skip(f, w)
  {
    if !p.Vint? { ReadFixedIs(f, if p.F16? then 2 else if p.F32? then 4 else 8); }
  }

  /** A string behind its prefix: too long to be made, not there, an empty one at the end of the capacity, or read. */
  lemma ReadTextIs(f: Flat, p: Prefix)
    requires f.WellFormed()
    ensures var (n, g) := ReadPrefix(f, p);
            var (r, h) := ReadText(f, p);
            match n
            case Failed(how) => r == Failed(how) && h == g
            case Ok(len) =>
              if len > f.room then r == Failed(TooLong) && h == g
              else if g.pos + len > |g.data| then r == Failed(OutOfRange) && h == g
              else if len == 0 && g.pos == g.cap then r == Failed(NullCursor) && h == g
              else r == Ok(g.data[g.pos..g.pos + len]) && h == Skip(g, len)
  {
    hide ReadPrefix;
    var (n, g) := ReadPrefix(f, p);
    if n.Ok? { ReadFromIs(g, n.value); }
  }

  /**
   What a read that fails leaves behind: the contents always, the position of a
   fixed-width value too; a varint has taken all that was left; a string has taken
   its prefix, unless that is what failed.
   */
  lemma FailedItemLeaves(f: Flat, kind: Kind)
    requires f.WellFormed() && kind.Readable()
    ensures var (r, g) := ReadItem(f, kind);
            r.Failed? ==>
              match kind
              case KFixed(w, _) => r.how == OutOfRange && f.pos + w > |f.data| && g == f
              case KVarUint(bits) => r.how == OutOfRange && g == f.(pos := |f.data|)
              case KVarInt(bits) => r.how == OutOfRange && g == f.(pos := |f.data|)
              case KText(p) =>
                var (n, behind) := ReadPrefix(f, p);
                && behind == f.(pos := behind.pos) && g == behind
                && (n.Failed? ==> r.how == OutOfRange && g.pos == if p.Vint? then |f.data| else f.pos)
                && (n.Ok? && !p.Vint? ==> g.pos == f.pos + if p.F16? then 2 else if p.F32? then 4 else 8)
              case KOrder(_) => false
  {
    hide ReadVarint, ReadFixed, ReadText, ReadPrefix, FromFixedBytes;
    match kind {
      case KFixed(w, _) => ReadFixedIs(f, w);
      case KVarUint(bits) => FailedVarintLeaves(f, bits, 0, 0);
      case KVarInt(bits) => FailedVarintLeaves(f, bits, 0, 0);
      case KText(p) =>
        ReadTextIs(f, p);
        ReadPrefixIs(f, p);
        FailedVarintLeaves(f, 64, 0, 0);
      case KOrder(_) =>
    }
  }

  /** From `at[0]` on each item is read with success and leaves the next state. */
  ghost predicate Passes(kinds: seq<Kind>, at: seq<Flat>) {
    && 0 < |at| <= |kinds| + 1 && (forall i :: 0 <= i < |at| ==> at[i].WellFormed())
    && forall i :: 0 <= i < |at| - 1 ==>
         kinds[i].Readable() && ReadItem(at[i], kinds[i]).0.Ok? && ReadItem(at[i], kinds[i]).1 == at[i + 1]
  }

  lemma PassesFirst(f: Flat, kind: Kind, kinds: seq<Kind>, at: seq<Flat>)
    requires f.WellFormed() && kind.Readable() && Passes(kinds, at)
    requires ReadItem(f, kind).0.Ok? && ReadItem(f, kind).1 == at[0]
    ensures Passes([kind] + kinds, [f] + at)
  {
    hide ReadItem;
  }

  /** What the items are that were read on the way. */
  ghost predicate Yields(kinds: seq<Kind>, at: seq<Flat>, items: seq<Item>) {
    && |items| == |kinds| == |at| - 1
    && forall i :: 0 <= i < |kinds| ==>
         kinds[i].Readable() && at[i].WellFormed() && ReadItem(at[i], kinds[i]).0 == Ok(items[i])
  }

  lemma YieldsFirst(f: Flat, kind: Kind, item: Item, kinds: seq<Kind>, at: seq<Flat>, items: seq<Item>)
    requires f.WellFormed() && kind.Readable() && ReadItem(f, kind).0 == Ok(item) && Yields(kinds, at, items)
    ensures Yields([kind] + kinds, [f] + at, [item] + items)
  {
    hide ReadItem;
  }

  /**
   A program is read item by item, `at` being the states on the way: it yields
   what the items yield, and if one fails it stops there, fails in the same way
   and leaves what that item leaves.
   */
  lemma {:induction false} ReadProgramIs(f: Flat, kinds: seq<Kind>) returns (at: seq<Flat>)
    requires f.WellFormed() && forall k :: k in kinds ==> k.Readable()
    ensures Passes(kinds, at) && at[0] == f
    ensures var (r, g) := ReadProgram(f, kinds);
            match r
            case Ok(items) => Yields(kinds, at, items) && g == at[|kinds|]
            case Failed(how) =>
              var k := |at| - 1;
              k < |kinds| && kinds[k].Readable() && ReadItem(at[k], kinds[k]) == (Failed(how), g)
    decreases |kinds|
  {
    hide ReadItem, Passes, Yields;
    if kinds == [] {
      at := [f];
      OneState(f);
    } else {
      var kind, rest := kinds[0], kinds[1..];
      assert kind in kinds && kinds == [kind] + rest;
      var (first, g) := ReadItem(f, kind);
      if first.Failed? {
        at := [f];
        StopsHere(f, kinds);
      } else {
        var later := ReadProgramIs(g, rest);
        PassesFirst(f, kind, rest, later);
        at := [f] + later;
        LastState(f, rest, later);
        var (r, _) := ReadProgram(g, rest);
        if r.Ok? {
          YieldsFirst(f, kind, first.value, rest, later, r.value);
        } else {
          var k := |later| - 1;
          assert k >= 0 && at[k + 1] == later[k] && kinds[k + 1] == rest[k];
        }
      }
    }
  }

  lemma OneState(f: Flat)
    requires f.WellFormed()
    ensures Passes([], [f]) && Yields([], [f], [])
  {
  }

  lemma StopsHere(f: Flat, kinds: seq<Kind>)
    requires f.WellFormed() && kinds != []
    ensures Passes(kinds, [f])
  {
  }

  lemma LastState(f: Flat, kinds: seq<Kind>, at: seq<Flat>)
    requires Passes(kinds, at)
    ensures |at| > 0 && ([f] + at)[|at|] == at[|at| - 1]
    ensures |at| <= |kinds| ==> |at| - 1 < |kinds|
    ensures |at| == |kinds| + 1 ==> ([f] + at)[|kinds| + 1] == at[|kinds|]
  {
  }

  // ------------------------------------------------------------- whole programs

  ghost predicate AllTyped(items: seq<Item>) {
    forall i :: 0 <= i < |items| ==> items[i].WellTyped()
  }

  function EndOrder(items: seq<Item>, little: bool): bool {
    if items == [] then little
    else EndOrder(items[1..], if items[0].Order? then items[0].little else little)
  }

  /** The bytes a program writes. */
  ghost function EncodeAll(items: seq<Item>, little: bool): seq<Byte>
    requires AllTyped(items)
  {
    if items == [] then []
    else Encode(items[0], little) + EncodeAll(items[1..], if items[0].Order? then items[0].little else little)
  }

  /** The last bytes written are those of an empty string. */
  predicate EndsOnEmptyText(items: seq<Item>) {
    items != [] &&
    (EndsOnEmptyText(items[1..])
     || (items[0].Text? && items[0].s == [] && OnlyOrders(items[1..])))
  }

  predicate OnlyOrders(items: seq<Item>) {
    items == [] || (items[0].Order? && OnlyOrders(items[1..]))
  }

  predicate AllFit(items: seq<Item>, room: nat) {
    forall i :: 0 <= i < |items| ==> items[i].Fits(room)
  }

  function Kinds(items: seq<Item>): seq<Kind> {
    seq(|items|, i requires 0 <= i < |items| => items[i].Kind())
  }

  lemma OnlyOrdersWriteNothing(items: seq<Item>, little: bool)
    requires AllTyped(items)
    ensures EncodeAll(items, little) == [] <==> OnlyOrders(items)
    ensures OnlyOrders(items) ==> !EndsOnEmptyText(items)
  {
    if items != [] {
      OnlyOrdersWriteNothing(items[1..], if items[0].Order? then items[0].little else little);
      if items[0].Fixed? {
        assert |Encode(items[0], little)| > 0;
      }
    }
  }

  /** A program is one write of its bytes, followed by its last byte order. */
  lemma {:induction false} ProgramIsOneWrite(f: Flat, base: nat, items: seq<Item>)
    requires base > 0 && f.WellFormed() && AllTyped(items)
    ensures WriteProgram(f, base, items)
         == Written(f, base, EncodeAll(items, f.little)).(little := EndOrder(items, f.little))
    decreases |items|
  {
    if items == [] {
      assert Splice(f.data, f.pos, []) == f.data;
    } else {
      var g := WriteItem(f, base, items[0]);
      ProgramIsOneWrite(g, base, items[1..]);
      if items[0].Order? {
        assert Encode(items[0], f.little) + EncodeAll(items[1..], g.little) == EncodeAll(items[1..], g.little);
      } else {
        WrittenTwice(f, base, Encode(items[0], f.little), EncodeAll(items[1..], g.little));
      }
    }
  }

  /** Reading a program back from its bytes: it succeeds with the same items exactly under the stated condition. */
  lemma {:induction false} ReadProgramBack(f: Flat, items: seq<Item>)
    requires AllTyped(items) && Has(f, EncodeAll(items, f.little))
    ensures var end := f.pos + |EncodeAll(items, f.little)|;
            var (r, g) := ReadProgram(f, Kinds(items));
            && (r == Ok(items) <==> AllFit(items, f.room) && !(EndsOnEmptyText(items) && end == f.cap))
            && (r == Ok(items) ==> g == f.(pos := end, little := EndOrder(items, f.little)))
    decreases |items|
  {
    if items == [] {
      assert Kinds(items) == [];
    } else {
      var first, rest := items[0], items[1..];
      var g := After(f, first);
      HasSplit(f, Encode(first, f.little), EncodeAll(rest, g.little));
      OnlyOrdersWriteNothing(rest, g.little);
      ReadStep(f, items);
      if first.Fits(f.room) && !HitsEnd(f, first) {
        ReadProgramBack(g, rest);
        assert AllFit(items, f.room) <==> AllFit(rest, f.room) by {
          assert forall i :: 0 < i < |items| ==> items[i] == rest[i - 1];
        }
      }
    }
  }

  lemma ReadStep(f: Flat, items: seq<Item>)
    requires AllTyped(items) && items != [] && Has(f, Encode(items[0], f.little))
    ensures var (r, h) := ReadProgram(f, Kinds(items));
            if items[0].Fits(f.room) && !HitsEnd(f, items[0]) then
              var (rest, g) := ReadProgram(After(f, items[0]), Kinds(items[1..]));
              (r == Ok(items) <==> rest == Ok(items[1..])) && h == g
            else r != Ok(items)
  {
    hide ReadItem, Encode;
    var (first, g) := ReadItem(f, items[0].Kind());
    ReadItemBack(f, items[0]);
    assert Kinds(items)[0] == items[0].Kind() && Kinds(items)[1..] == Kinds(items[1..]);
    if first.Ok? {
      var (rest, _) := ReadProgram(g, Kinds(items[1..]));
      if rest.Ok? {
        ConsEquals(first.value, rest.value, items);
      }
    }
  }

  lemma ConsEquals<T>(x: T, xs: seq<T>, ys: seq<T>)
    requires ys != []
    ensures [x] + xs == ys <==> x == ys[0] && xs == ys[1..]
  {
    if [x] + xs == ys {
      assert ([x] + xs)[1..] == xs;
    }
  }

  /**
   Writing a program from the position, going back to where it started with the
   byte order it started with, and reading the same kinds gives the same values
   and ends where the writing ended - unless a string is too long for its
   prefix or cannot be made, or the program's last bytes are those of an empty string that ends
   the capacity, where the null current node is touched.
   */
  lemma ProgramRoundTrip(f: Flat, base: nat, items: seq<Item>)
    requires base > 0 && f.WellFormed() && AllTyped(items)
    ensures var g := WriteProgram(f, base, items);
            var (r, h) := ReadProgram(g.(pos := f.pos, little := f.little), Kinds(items));
            && (r == Ok(items) <==> AllFit(items, f.room) && !(EndsOnEmptyText(items) && g.pos == g.cap))
            && (r == Ok(items) ==> h == g)
  {
    ProgramIsOneWrite(f, base, items);
    var bytes := EncodeAll(items, f.little);
    WrittenWellFormed(f, base, bytes);
    var g := WriteProgram(f, base, items);
    assert g.data[f.pos..f.pos + |bytes|] == bytes;
    ReadProgramBack(g.(pos := f.pos, little := f.little), items);
  }

  /** Reading an empty string behind which the capacity ends touches the null current node. */
  lemma EmptyTextMeetsTheEnd(f: Flat, p: Prefix)
    requires f.WellFormed() && Has(f, PrefixBytes(p, 0, f.little)) && f.pos + |PrefixBytes(p, 0, f.little)| == f.cap
    ensures ReadText(f, p).0 == Failed(NullCursor)
  {
    hide PrefixBytes, ReadPrefix;
    PrefixIsPositive(p);
    ReadPrefixBack(f, p, 0);
    SmallMod(0, PrefixLimit(p));
  }

  lemma PrefixIsPositive(p: Prefix)
    ensures PrefixLimit(p) > 0
  {
  }

  /** The exception in ProgramRoundTrip happens: one empty string whose prefix exactly fills a block. */
  lemma EmptyTextAtEnd()
    ensures var items := [Text(F16, [])];
            var f := Flat([], 0, 2, false, 0);
            var g := WriteProgram(f, 2, items);
            && g.pos == g.cap == 2
            && ReadProgram(g.(pos := 0), Kinds(items)).0 == Failed(NullCursor)
  {
    hide ReadText;
    var items := [Text(F16, [])];
    var f := Flat([], 0, 2, false, 0);
    var bytes := PrefixBytes(F16, 0, false);
    assert items[1..] == [] && |bytes| == 2 && bytes + [] == bytes;
    var g := WriteProgram(f, 2, items);
    assert g == Flat(bytes, 2, 2, false, 0);
    assert bytes[0..2] == bytes;
    EmptyTextMeetsTheEnd(g.(pos := 0), F16);
    assert Kinds(items)[0] == KText(F16);
  }
}
