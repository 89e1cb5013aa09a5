/**
 The specification of ByteArray: one flat byte sequence with a position, a
 capacity and a byte order.  The linked list of module ByteArrays is proved to
 behave like this.
 */
module FlatBuffer {
  import opened Bytes

  datatype ReadOutcome =
    | Data(bytes: seq<Byte>)
    | OutOfRange                // the exception "not enough len"
    | NullCursor                // the null current node is dereferenced
    | TooLong                   // the exception of std::string::resize

  /** `room` is the length of the longest string that the host can make. */
  datatype Flat = Flat(data: seq<Byte>, pos: nat, cap: nat, little: bool, room: nat) {
    ghost predicate WellFormed() { pos <= |data| <= cap }
  }

  /** Integer ceiling, for ceil(1.0 * n / base): how many blocks of `base` bytes hold `n` bytes. */
  function CeilDiv(n: nat, base: nat): nat
    requires base > 0
  {
    if n == 0 then 0 else if n <= base then 1 else 1 + CeilDiv(n - base, base)
  }

  lemma CeilDivIsCeiling(n: nat, base: nat)
    requires base > 0
    ensures CeilDiv(n, base) == (n + base - 1) / base
  {
    if n == 0 {
      DivisionIsUnique(base - 1, base, 0, base - 1);
    } else if n <= base {
      DivisionIsUnique(n + base - 1, base, 1, n - 1);
    } else {
      CeilDivIsCeiling(n - base, base);
      var x := n - base + base - 1;
      DivisionIsUnique(x + base, base, x / base + 1, x % base);
    }
  }

  /** The capacity once there is room up to `end`: unchanged if it suffices, else the next multiple of `base`. */
  ghost function GrownTo(cap: nat, base: nat, end: nat): nat
    requires base > 0
  {
    if end <= cap then cap else Start(base, CeilDiv(end, base))
  }

  function Overwritten(f: Flat, bytes: seq<Byte>): Flat
    requires f.WellFormed()
  {
    f.(data := Splice(f.data, f.pos, bytes), pos := f.pos + |bytes|)
  }

  ghost function Written(f: Flat, base: nat, bytes: seq<Byte>): Flat
    requires base > 0 && f.WellFormed()
  {
    Overwritten(f, bytes).(cap := GrownTo(f.cap, base, f.pos + |bytes|))
  }

  /** A read of `n` bytes.  Reading nothing at the end of the capacity touches the null current node. */
  function ReadFrom(f: Flat, n: nat): (r: (ReadOutcome, Flat))
    requires f.WellFormed()
    ensures r.1.WellFormed()
  {
    if n > |f.data| - f.pos then (OutOfRange, f)
    else if f.pos == f.cap then (NullCursor, f)
    else (Data(f.data[f.pos..f.pos + n]), f.(pos := f.pos + n))
  }

  /**
   A read fails exactly if there are fewer unread bytes, or if nothing is read at
   the end of the capacity, and then changes nothing; otherwise it takes the next bytes.
   */
  lemma ReadFromIs(f: Flat, n: nat)
    requires f.WellFormed()
    ensures var (r, g) := ReadFrom(f, n);
            if f.pos + n > |f.data| then r == OutOfRange && g == f
            else if n == 0 && f.pos == f.cap then r == NullCursor && g == f
            else
              && r.Data? && |r.bytes| == n && (forall i :: 0 <= i < n ==> r.bytes[i] == f.data[f.pos + i])
              && g == Flat(f.data, f.pos + n, f.cap, f.little, f.room)
  {
  }

  /** A write replaces the bytes from the position on, keeps all others, and grows data and capacity only as needed. */
  lemma WrittenIs(f: Flat, base: nat, bytes: seq<Byte>)
    requires base > 0 && f.WellFormed()
    ensures var g, end := Written(f, base, bytes), f.pos + |bytes|;
            && g.pos == end && |g.data| == (if end > |f.data| then end else |f.data|)
            && (forall i :: 0 <= i < |g.data| ==>
                  g.data[i] == if f.pos <= i < end then bytes[i - f.pos] else f.data[i])
            && (if end <= f.cap then g.cap == f.cap else end <= g.cap < end + base && g.cap % base == 0)
            && g.little == f.little && g.room == f.room
  {
    var end := f.pos + |bytes|;
    GrowthIsMinimal(f.cap, base, end);
    StartIsProduct(base, CeilDiv(end, base));
    DivisionIsUnique(CeilDiv(end, base) * base, base, CeilDiv(end, base), 0);
  }

  lemma WrittenNothing(f: Flat, base: nat)
    requires base > 0 && f.WellFormed()
    ensures Written(f, base, []) == f
  {
    SpliceNothing(f.data, f.pos);
  }

  lemma ReadsOne(f: Flat)
    requires f.WellFormed()
    ensures ReadFrom(f, 1).0.Data? ==> |ReadFrom(f, 1).0.bytes| == 1
  {
  }

  lemma DivisionIsUnique(x: nat, base: nat, q: nat, r: nat)
    requires r < base && x == q * base + r
    ensures x / base == q && x % base == r
  {
    var d := x / base - q;
    assert x == x / base * base + x % base;
    assert d * base == r - x % base;
    assert d >= 1 ==> d * base >= base;
    assert d <= -1 ==> d * base + base <= 0;
  }

  /** Offset `o` in block `k`, recovered by division and remainder. */
  lemma Locate(base: nat, k: nat, o: nat)
    requires o < base
    ensures var pos := Start(base, k) + o; pos / base == k && pos % base == o
  {
    StartIsProduct(base, k);
    DivisionIsUnique(Start(base, k) + o, base, k, o);
  }

  lemma LocateBack(base: nat, pos: nat)
    requires base > 0
    ensures Start(base, pos / base) + pos % base == pos
  {
    StartIsProduct(base, pos / base);
  }

  lemma CeilDivBounds(n: nat, base: nat)
    requires base > 0
    ensures n <= Start(base, CeilDiv(n, base)) < n + base
  {
    if n > base {
      CeilDivBounds(n - base, base);
    } else if n > 0 {
      assert Start(base, 1) == Start(base, 0) + base;
    }
  }

  /** The only block boundary in [n, n + base) is the ceiling. */
  lemma CeilDivUnique(n: nat, base: nat, m: nat)
    requires base > 0 && n <= Start(base, m) < n + base
    ensures CeilDiv(n, base) == m
  {
    if m > 1 {
      CeilDivUnique(n - base, base, m - 1);
    } else if m == 1 {
      assert Start(base, 1) == Start(base, 0) + base;
    }
  }

  /** Growth is minimal: blocks are added only when needed, and then fewer than `base` bytes too many. */
  lemma GrowthIsMinimal(cap: nat, base: nat, end: nat)
    requires base > 0
    ensures var r := GrownTo(cap, base, end);
            end <= r && cap <= r && (r != cap ==> cap < end && r < end + base)
  {
    CeilDivBounds(end, base);
  }

  lemma StartAdd(base: nat, j: nat, k: nat)
    ensures Start(base, j + k) == Start(base, j) + Start(base, k)
  {
    if k > 0 {
      StartAdd(base, j, k - 1);
    }
  }

  /** Adding ceil((end - cap) / base) blocks to a whole number of blocks reaches GrownTo. */
  lemma GrowthInBlocks(blocks: nat, base: nat, cap: nat, end: nat, count: nat)
    requires base > 0 && cap == Start(base, blocks) && cap < end && count == CeilDiv(end - cap, base)
    ensures Start(base, blocks + count) == GrownTo(cap, base, end)
    ensures count > 0 && end <= GrownTo(cap, base, end)
  {
    CeilDivBounds(end - cap, base);
    StartAdd(base, blocks, count);
    CeilDivUnique(end, base, blocks + count);
  }

  lemma GrownTwice(cap: nat, base: nat, end1: nat, end2: nat)
    requires base > 0 && end1 <= end2
    ensures GrownTo(GrownTo(cap, base, end1), base, end2) == GrownTo(cap, base, end2)
  {
    if end1 > cap {
      CeilDivBounds(end1, base);
      CeilDivBounds(end2, base);
      var c1 := CeilDiv(end1, base);
      if end2 <= Start(base, c1) {
        CeilDivUnique(end2, base, c1);
      }
    }
  }

  /** Two consecutive writes are one write of the concatenation: data, position and capacity. */
  lemma WrittenTwice(f: Flat, base: nat, a: seq<Byte>, b: seq<Byte>)
    requires base > 0 && f.WellFormed()
    ensures Written(f, base, a).WellFormed()
    ensures Written(Written(f, base, a), base, b) == Written(f, base, a + b)
  {
    GrowthIsMinimal(f.cap, base, f.pos + |a|);
    SpliceTwice(f.data, f.pos, a, b);
    GrownTwice(f.cap, base, f.pos + |a|, f.pos + |a| + |b|);
  }

  lemma WrittenWellFormed(f: Flat, base: nat, bytes: seq<Byte>)
    requires base > 0 && f.WellFormed()
    ensures Written(f, base, bytes).WellFormed()
  {
    GrowthIsMinimal(f.cap, base, f.pos + |bytes|);
  }

  /** The 64-bit difference of size and position. */
  function Unread(size: nat, position: nat): int {
    if position <= size then size - position else 0x1_0000_0000_0000_0000 + size - position
  }

  /** Byte `position % base` of the node that holds `pos`. */
  function InNodeOf(pos: nat, base: nat, position: nat): nat
    requires base > 0
  {
    pos - pos % base + position % base
  }

  /**
   The positional read starts in the current node whatever position it is
   given: it reads from offset `position % base` of the node that holds `f.pos`.
   */
  function ReadAt(f: Flat, cells: seq<Byte>, base: nat, n: nat, position: nat): ReadOutcome
    requires base > 0 && f.WellFormed() && |cells| == f.cap
  {
    var from := InNodeOf(f.pos, base, position);
    if n > Unread(|f.data|, position) then OutOfRange
    else if f.pos == f.cap || from + n > f.cap then NullCursor
    else Data(cells[from..from + n])
  }

  /** What the positional read answers, by the size and by where its bytes lie. */
  lemma ReadAtIs(f: Flat, cells: seq<Byte>, base: nat, n: nat, position: nat)
    requires base > 0 && f.WellFormed() && |cells| == f.cap
    ensures var r, from := ReadAt(f, cells, base, n, position), f.pos / base * base + position % base;
            if position <= |f.data| && position + n > |f.data| then r == OutOfRange
            else if position > |f.data| && position + n > |f.data| + 0x1_0000_0000_0000_0000 then r == OutOfRange
            else if f.pos == f.cap || from + n > f.cap then r == NullCursor
            else r.Data? && |r.bytes| == n && forall i :: 0 <= i < n ==> r.bytes[i] == cells[from + i]
  {
    assert f.pos == f.pos / base * base + f.pos % base;
  }

  ghost predicate ReadsSlice(f: Flat, cells: seq<Byte>, base: nat, n: nat, position: nat)
    requires base > 0 && f.WellFormed() && |cells| == f.cap && position + n <= |f.data|
  {
    ReadAt(f, cells, base, n, position) == Data(cells[position..position + n])
  }

  /** The positional read is right for every content exactly when `position` lies in the current node. */
  lemma ReadAtIsRightIff(f: Flat, base: nat, n: nat, position: nat)
    requires base > 0 && f.WellFormed() && f.pos < f.cap && n > 0 && position + n <= |f.data|
    ensures position / base == f.pos / base
       <==> forall cells: seq<Byte> | |cells| == f.cap :: ReadsSlice(f, cells, base, n, position)
  {
    SameBlock(base, position, f.pos);
    var from := f.pos - f.pos % base + position % base;
    if from != position {
      var cells: seq<Byte> := seq(f.cap, i => if i == from then 1 else 0);
      if from + n <= f.cap {
        assert cells[from..from + n][0] != cells[position..position + n][0];
      }
      assert !ReadsSlice(f, cells, base, n, position);
    }
  }

  lemma SameBlock(base: nat, p: nat, q: nat)
    requires base > 0
    ensures q - q % base + p % base == p <==> p / base == q / base
  {
    var from := q - q % base + p % base;
    assert q == q / base * base + q % base;
    assert p == p / base * base + p % base;
    DivisionIsUnique(from, base, q / base, p % base);
  }
}
