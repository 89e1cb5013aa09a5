/**
 Streams that hand over their data in pieces of any size, and the receiving of
 a request from one.
 */
module HttpStreams {
  import opened Wrappers
  import opened UrlCodec
  import opened Forms
  import opened HttpMachine
  import opened HttpRequests
  import opened HttpParsers
  import opened HttpRoundTrip
  import opened HttpCuts
  import opened HttpLegality

  function Min(a: int, b: int): int { if a < b then a else b }

  const INT_MAX := 0x7FFF_FFFF

  /** The conversion of a length to int: the value modulo 2^32, as a signed number. */
  function Int32(n: nat): int {
    var low := n % 0x1_0000_0000;
    if low <= INT_MAX then low else low - 0x1_0000_0000
  }

  /**
   What one read or write returns when `max` bytes are asked for and `available`
   are there; not positive if it fails.
   */
  function Piece(cuts: seq<int>, available: nat, max: nat): int {
    if cuts == [] then 0 else Min(Min(cuts[0], INT_MAX), Min(max, available))
  }

  /** Reads repeated until `left` bytes have arrived do get there. */
  predicate Delivers(cuts: seq<int>, available: nat, left: nat)
    decreases |cuts|
  {
    left == 0 || (var n := Piece(cuts, available, left); n > 0 && Delivers(cuts[1..], available - n, left - n))
  }

  /** A length as an int: congruent modulo 2^32, and in range. */
  lemma Int32Is(n: nat)
    ensures -0x8000_0000 <= Int32(n) <= 0x7FFF_FFFF && (n - Int32(n)) % 0x1_0000_0000 == 0
  {
  }

  /** How many bytes the reads carry at most until the first that fails. */
  function Flow(cuts: seq<int>): nat {
    if cuts == [] || cuts[0] <= 0 then 0
    else (if cuts[0] <= 0x7FFF_FFFF then cuts[0] else 0x7FFF_FFFF) + Flow(cuts[1..])
  }

  /** Repeated reads get all bytes exactly if these are there and the reads carry as many before one fails. */
  lemma {:induction false} DeliversIff(cuts: seq<int>, available: nat, left: nat)
    ensures Delivers(cuts, available, left) <==> left <= available && left <= Flow(cuts)
    decreases |cuts|
  {
    if left > 0 {
      var n := Piece(cuts, available, left);
      if n > 0 { DeliversIff(cuts[1..], available - n, left - n); }
    }
  }

  /** `was` with `bytes` written over it from `at` on. */
  function Filled(was: Text, at: nat, bytes: Text): Text
    requires at + |bytes| <= |was|
  {
    was[..at] + bytes + was[at + |bytes|..]
  }

  /** memcpy. */
  method CopyInto(buf: array<Octet>, at: nat, bytes: Text)
    requires at + |bytes| <= buf.Length
    modifies buf
    ensures buf[..] == Filled(old(buf[..]), at, bytes)
  {
    var i := 0;
    while i < |bytes|
      invariant 0 <= i <= |bytes|
      invariant forall j :: 0 <= j < buf.Length ==> buf[j] == if at <= j < at + i then bytes[j - at] else old(buf[j])
    {
      buf[at + i] := bytes[i];
      i := i + 1;
    }
  }

  /**
   A stream: `data` is what can still be read, and each entry of `cuts` is how
   much the next read or write moves at most; one that is not positive, or a
   missing one, is a failure or the end of the connection.
   */
  class Stream {
    var data: Text
    var sent: Text
    var cuts: seq<int>

    constructor (data: Text, cuts: seq<int>)
      ensures this.data == data && sent == [] && this.cuts == cuts
    {
      this.data, this.sent, this.cuts := data, [], cuts;
    }

    /** read: at most `max` bytes to `buf` from `at` on. */
    method Read(buf: array<Octet>, at: nat, max: nat) returns (len: int)
      requires at + max <= buf.Length
      modifies `data, `cuts, buf
      ensures len == Piece(old(cuts), |old(data)|, max)
      ensures len <= 0 ==> data == old(data) && buf[..] == old(buf[..])
      ensures len > 0 ==> len <= |old(data)| && len <= max && data == old(data)[len..] && cuts == old(cuts)[1..]
                          && buf[..] == Filled(old(buf[..]), at, old(data)[..len])
    {
      len := Piece(cuts, |data|, max);
      if len <= 0 {
        return;
      }
      CopyInto(buf, at, data[..len]);
      data, cuts := data[len..], cuts[1..];
    }

    /** write: at most `max` bytes of `buf` from `at` on. */
    method Write(buf: array<Octet>, at: nat, max: nat) returns (len: int)
      requires at + max <= buf.Length
      modifies `sent, `cuts
      ensures len == Piece(old(cuts), max, max) && (len > 0 ==> cuts == old(cuts)[1..])
      ensures sent == if len <= 0 then old(sent) else old(sent) + buf[at..at + len]
    {
      len := Piece(cuts, max, max);
      if len <= 0 {
        return;
      }
      sent, cuts := sent + buf[at..at + len], cuts[1..];
    }

    /** One round of readFixSize: `offset` bytes of `d` have arrived, `left` are still missing. */
    method ReadMore(buf: array<Octet>, at: nat, offset: nat, left: nat, ghost was: Text, ghost d: Text)
      returns (len: int)
      requires left > 0 && at + offset + left <= buf.Length == |was| && offset <= |d|
      requires data == d[offset..] && buf[..] == Filled(was, at, d[..offset])
      modifies `data, `cuts, buf
      ensures len <= 0 ==> !Delivers(old(cuts), |old(data)|, left)
      ensures len > 0 ==>
                && len <= left && offset + len <= |d| && data == d[offset + len..]
                   && buf[..] == Filled(was, at, d[..offset + len])
                && Delivers(cuts, |data|, left - len) == Delivers(old(cuts), |old(data)|, left)
    {
      hide Filled, Piece;
      len := Read(buf, at + offset, left);
      if len > 0 {
        Extend(was, d, at, offset, len);
      }
    }

    /** Every byte asked for, in order, or a failure; the length comes back as an int. */
    method ReadFixSize(buf: array<Octet>, at: nat, length: nat) returns (r: int)
      requires at + length <= buf.Length
      modifies `data, `cuts, buf
      ensures var ok := Delivers(old(cuts), |old(data)|, length);
              && (if ok then r == Int32(length) else r <= 0)
              && (ok ==> length <= |old(data)| && data == old(data)[length..]
                         && buf[..] == Filled(old(buf[..]), at, old(data)[..length]))
    {
      hide Filled, Int32, Piece;
      NothingFilled(buf[..], at);
      ghost var d, was := data, buf[..];
      assert d[..0] == [];
      var offset := 0;
      var left := length;
      while left > 0
        invariant 0 <= left && 0 <= offset && offset + left == length && offset <= |d|
        invariant data == d[offset..] && buf[..] == Filled(was, at, d[..offset])
        invariant Delivers(cuts, |data|, left) == Delivers(old(cuts), |old(data)|, length)
        decreases left
      {
        var len := ReadMore(buf, at, offset, left, was, d);
        if len <= 0 {
          return len;
        }
        offset := offset + len;
        left := left - len;
      }
      r := Int32(length);
    }

    method WriteFixSize(buf: array<Octet>, length: nat) returns (r: int)
      requires length <= buf.Length
      modifies `sent, `cuts
      ensures var ok := Delivers(old(cuts), length, length);
              && (if ok then r == Int32(length) else r <= 0)
              && (ok ==> sent == old(sent) + buf[..length])
    {
      var offset := 0;
      var left := length;
      while left > 0
        invariant 0 <= left && 0 <= offset && offset + left == length
        invariant sent == old(sent) + buf[..offset]
        invariant Delivers(cuts, left, left) == Delivers(old(cuts), length, length)
        decreases left
      {
        var len := Write(buf, offset, left);
        if len <= 0 {
          return len;
        }
        assert buf[..offset] + buf[offset..offset + len] == buf[..offset + len];
        offset := offset + len;
        left := left - len;
      }
      r := Int32(length);
    }
  }

  lemma NothingFilled(was: Text, at: nat)
    requires at <= |was|
    ensures Filled(was, at, []) == was
  {
  }

  /** Reading `n` more bytes behind the first `k` fills the buffer as reading `k + n` at once. */
  lemma Extend(was: Text, d: Text, at: nat, k: nat, n: nat)
    requires at + k + n <= |was| && k + n <= |d|
    ensures Filled(Filled(was, at, d[..k]), at + k, d[k..][..n]) == Filled(was, at, d[..k + n])
    ensures d[k..][n..] == d[k + n..]
  {
    assert d[..k] + d[k..][..n] == d[..k + n];
  }

  /** The content length as recvRequest uses it: a signed 64-bit number. */
  function BodyLength(r: Request): nat {
    if ContentLength(r) < 0x8000_0000_0000_0000 then ContentLength(r) else 0
  }

  // -------------------------------------------------------------- what is received

  /** How the header loop stands after a read. */
  datatype Progress = Going | Finished | GivenUp | Thrown

  function Judged(o: Outcome): Progress {
    match o
    case Threw(_) => Thrown
    case Stopped(after, _) =>
      if after.error != 0 || after.cs == ERROR then GivenUp else if after.cs >= FINAL then Finished else Going
  }

  /**
   How the header loop ends: with the parser finished behind `head` bytes and
   `offset` more in the buffer, or without.
   */
  datatype HeadRead =
    | HeadDone(parser: Parser, head: nat, offset: nat, cuts: seq<int>)
    | HeadRefused
    | HeadThrew

  /** The header loop from byte `n` of the data on. */
  function HeadOf(m: Parser, d: Text, n: nat, cuts: seq<int>, size: nat, env: Env): (r: HeadRead)
    requires n <= |d|
    ensures r.HeadDone? ==> r.head + r.offset <= |d|
    decreases |cuts|
  {
    var len := Piece(cuts, |d| - n, size);
    if len <= 0 then HeadRefused
    else
      var o := Consumed(m, d[n..n + len], env);
      match Judged(o)
      case GivenUp => HeadRefused
      case Thrown => HeadThrew
      case Finished => HeadDone(o.parser, n + o.used, len - o.used, cuts[1..])
      case Going => HeadOf(o.parser, d, n + len, cuts[1..], size, env)
  }

  /** What recvRequest answers: a request, the null pointer, or the exception of the query callback. */
  datatype Receipt = Accepted(h: Request) | Refused | Exception

  function ReceiptOf(d: Text, cuts: seq<int>, size: nat, env: Env): Receipt {
    match HeadOf(FRESH, d, 0, cuts, size, env)
    case HeadRefused => Refused
    case HeadThrew => Exception
    case HeadDone(m, head, offset, rest) => BodyOf(m.req, d, head, offset, rest)
  }

  /**
   The bytes behind the head, as many as the content length says: `offset` of them
   are there, the others must arrive.
   */
  function BodyOf(r: Request, d: Text, head: nat, offset: nat, cuts: seq<int>): Receipt
    requires head + offset <= |d|
  {
    var length := BodyLength(r);
    if length > offset && !Arrives(cuts, |d| - head - offset, length - offset) then Refused
    else Accepted(Initialised(r).(body := if head + length <= |d| then d[head..head + length] else []))
  }

  /** The missing bytes are delivered, and their number is positive as an int. */
  predicate Arrives(cuts: seq<int>, available: nat, missing: nat) {
    Delivers(cuts, available, missing) && Int32(missing) > 0
  }

  /** The missing bytes are there, the reads carry them, and their number is neither 0 nor 2^31 or more modulo 2^32. */
  lemma ArrivesIff(cuts: seq<int>, available: nat, missing: nat)
    ensures Arrives(cuts, available, missing) <==>
              missing <= available && missing <= Flow(cuts) && 0 < missing % 0x1_0000_0000 < 0x8000_0000
  {
    DeliversIff(cuts, available, missing);
  }

  lemma {:induction false} DeliversAtMost(cuts: seq<int>, available: nat, left: nat)
    requires Delivers(cuts, available, left)
    ensures left <= available
    decreases |cuts|
  {
    if left > 0 {
      var n := Piece(cuts, available, left);
      DeliversAtMost(cuts[1..], available - n, left - n);
    }
  }

  // ------------------------------------------------------------------ the head

  /** The part of the data that has been parsed, in pieces, and has not finished the parser. */
  ghost predicate Underway(m: Parser, d: Text, n: nat, env: Env) {
    n <= |d| && Open(m.cs) && m.error == 0 && Scan(START, d[..n], env) == Scanned(m.cs, n)
  }

  /**
   One more piece: unless the call throws, the parser goes on as on the whole, or
   stops where it would have stopped there, and nothing is carried over before.
   */
  lemma NextPiece(m: Parser, d: Text, n: nat, len: nat, env: Env)
    requires Underway(m, d, n, env) && 0 < len && n + len <= |d|
    ensures var o := Consumed(m, d[n..n + len], env);
            match Judged(o)
            case Going => o.used == len && Underway(o.parser, d, n + len, env)
            case Finished => 0 < o.used <= len && Scan(START, d, env) == Scanned(o.parser.cs, n + o.used)
            case _ => true
  {
    hide Scan, Consumed;
    var piece := d[n..n + len];
    var o := Consumed(m, piece, env);
    if o.Stopped? {
      ConsumedIsExecuted(m, piece, env);
      assert d[..n] + piece == d[..n + len];
      ScanJoin(START, d[..n], piece, env);
      if o.parser.cs >= FINAL {
        assert d[..n + len] + d[n + len..] == d;
        ScanJoin(START, d[..n + len], d[n + len..], env);
        FinishingUsesOne(m.cs, piece, env);
      }
    }
  }

  lemma FinishingUsesOne(cs: nat, s: Text, env: Env)
    requires Open(cs) && Scan(cs, s, env).cs >= FINAL
    ensures Scan(cs, s, env).used > 0
  {
  }

  lemma {:induction false} HeadIsScanned(m: Parser, d: Text, n: nat, cuts: seq<int>, size: nat, env: Env)
    requires Underway(m, d, n, env) && HeadOf(m, d, n, cuts, size, env).HeadDone?
    ensures var h := HeadOf(m, d, n, cuts, size, env);
            && Scan(START, d, env) == Scanned(h.parser.cs, h.head) && h.parser.cs >= FINAL && h.parser.error == 0
    decreases |cuts|
  {
    hide Scan, Consumed, Underway;
    var len := Piece(cuts, |d| - n, size);
    if len > 0 {
      NextPiece(m, d, n, len, env);
      var o := Consumed(m, d[n..n + len], env);
      if Judged(o).Going? {
        HeadIsScanned(o.parser, d, n + len, cuts[1..], size, env);
      }
    }
  }

  /**
   However the reads cut the data: an accepted request has as body exactly the
   content-length bytes behind the place where the parser finishes on the data as
   one text.
   */
  lemma BodyIsFramed(d: Text, cuts: seq<int>, size: nat, env: Env)
    requires ReceiptOf(d, cuts, size, env).Accepted?
    ensures var h, e := ReceiptOf(d, cuts, size, env).h, Scan(START, d, env);
            && e.cs >= FINAL && e.used + BodyLength(h) <= |d| && h.body == d[e.used..e.used + BodyLength(h)]
  {
    hide Scan, Consumed, Initialised, ContentLength, HeadOf, Delivers;
    var head := HeadOf(FRESH, d, 0, cuts, size, env);
    assert Underway(FRESH, d, 0, env) by { NothingScanned(START, env); }
    HeadIsScanned(FRESH, d, 0, cuts, size, env);
    InitKeepsLength(head.parser.req, ReceiptOf(d, cuts, size, env).h.body);
    if BodyLength(head.parser.req) > head.offset {
      DeliversAtMost(head.cuts, |d| - head.head - head.offset, BodyLength(head.parser.req) - head.offset);
    }
  }

  lemma InitKeepsLength(r: Request, body: Text)
    ensures BodyLength(Initialised(r).(body := body)) == BodyLength(r)
  {
  }

  /** The pieces that the reads of the header loop bring, from byte `n` on. */
  function Pieces(d: Text, n: nat, cuts: seq<int>, size: nat): seq<Text>
    requires n <= |d|
    decreases |cuts|
  {
    var len := Piece(cuts, |d| - n, size);
    if len <= 0 then [] else [d[n..n + len]] + Pieces(d, n + len, cuts[1..], size)
  }

  /** The exception needs a read that ends inside a query. */
  lemma {:induction false} NoExceptionOutsideQueries(m: Parser, d: Text, n: nat, cuts: seq<int>, size: nat, env: Env)
    requires n <= |d| && QueriesOpenAt29(env) && Open(m.cs) && CutOutsideQueries(m.cs, Pieces(d, n, cuts, size), env)
    ensures !HeadOf(m, d, n, cuts, size, env).HeadThrew?
    decreases |cuts|
  {
    hide Consumed, Executed, QueriesOpenAt29;
    var len := Piece(cuts, |d| - n, size);
    if len > 0 {
      var piece := d[n..n + len];
      assert Pieces(d, n, cuts, size)[1..] == Pieces(d, n + len, cuts[1..], size);
      ThrowsIff(m, piece, env);
      ConsumedIsExecuted(m, piece, env);
      var o := Consumed(m, piece, env);
      if Judged(o).Going? {
        NoExceptionOutsideQueries(o.parser, d, n + len, cuts[1..], size, env);
      }
    }
  }

  /**
   Call `k` ends a query nearer to its beginning than the query began in an earlier
   one, and there was no error before.
   */
  ghost predicate EndsEarlyAt(m: Parser, pieces: seq<Text>, k: nat, env: Env) {
    && k < |pieces|
    && var f := Feed(m, pieces[..k], env);
       f.Stopped? && Open(f.parser.cs) && f.parser.error == 0 && EndsEarly(f.parser, pieces[k], env)
  }

  ghost predicate SomeEndsEarly(m: Parser, pieces: seq<Text>, env: Env) { exists k :: EndsEarlyAt(m, pieces, k, env) }

  lemma FirstOfPieces(m: Parser, pieces: seq<Text>, k: nat, env: Env)
    requires Open(m.cs) && 0 < k <= |pieces|
    ensures var o := Consumed(m, pieces[0], env);
            Feed(m, pieces[..k], env) == match o
                                         case Threw(at) => Threw(at)
                                         case Stopped(after, used) =>
                                           match Feed(after, pieces[1..][..k - 1], env)
                                           case Threw(at) => Threw(at)
                                           case Stopped(end, more) => Stopped(end, used + more)
  {
    hide Consumed;
    assert pieces[..k][1..] == pieces[1..][..k - 1];
  }

  /** The exception comes exactly if some read ends a query like that, before any error. */
  lemma {:induction false} ExceptionIff(m: Parser, d: Text, n: nat, cuts: seq<int>, size: nat, env: Env)
    requires n <= |d| && QueriesOpenAt29(env) && Open(m.cs) && m.error == 0
    ensures var pieces := Pieces(d, n, cuts, size);
            HeadOf(m, d, n, cuts, size, env).HeadThrew? <==> SomeEndsEarly(m, pieces, env)
    decreases |cuts|
  {
    hide Consumed, Executed, QueriesOpenAt29, EndsEarly, EndsEarlyAt, SomeEndsEarly;
    var pieces := Pieces(d, n, cuts, size);
    var len := Piece(cuts, |d| - n, size);
    if len <= 0 {
      NothingEndsEarly(m, env);
    } else {
      var piece, rest := d[n..n + len], Pieces(d, n + len, cuts[1..], size);
      assert pieces[1..] == rest;
      ThrowsIff(m, piece, env);
      var o := Consumed(m, piece, env);
      EarlyHere(m, pieces, env);
      if o.Stopped? {
        ConsumedIsExecuted(m, piece, env);
        if Judged(o).Going? { ExceptionIff(o.parser, d, n + len, cuts[1..], size, env); }
        EarlyLater(m, pieces, env);
        EarlyNever(o.parser, rest, env);
        EarlyIff(m, o.parser, pieces, env);
      }
    }
  }

  lemma NothingEndsEarly(m: Parser, env: Env)
    ensures !SomeEndsEarly(m, [], env)
  {
  }

  lemma EarlyHere(m: Parser, pieces: seq<Text>, env: Env)
    requires Open(m.cs) && m.error == 0 && pieces != []
    ensures EndsEarlyAt(m, pieces, 0, env) <==> EndsEarly(m, pieces[0], env)
    ensures EndsEarlyAt(m, pieces, 0, env) ==> SomeEndsEarly(m, pieces, env)
  {
    hide EndsEarly;
    assert pieces[..0] == [];
  }

  lemma EarlyLater(m: Parser, pieces: seq<Text>, env: Env)
    requires Open(m.cs) && pieces != [] && Consumed(m, pieces[0], env).Stopped?
    ensures var after := Consumed(m, pieces[0], env).parser;
            forall k: nat :: k > 0 ==> (EndsEarlyAt(m, pieces, k, env) <==> EndsEarlyAt(after, pieces[1..], k - 1, env))
  {
    hide Consumed, EndsEarly;
    var after := Consumed(m, pieces[0], env).parser;
    forall k: nat | k > 0
      ensures EndsEarlyAt(m, pieces, k, env) <==> EndsEarlyAt(after, pieces[1..], k - 1, env)
    {
      if k < |pieces| { FirstOfPieces(m, pieces, k, env); }
    }
  }

  lemma EarlyIff(m: Parser, after: Parser, pieces: seq<Text>, env: Env)
    requires pieces != [] && !EndsEarlyAt(m, pieces, 0, env)
    requires forall k: nat :: k > 0 ==>
             (EndsEarlyAt(m, pieces, k, env) <==> EndsEarlyAt(after, pieces[1..], k - 1, env))
    ensures SomeEndsEarly(m, pieces, env) <==> SomeEndsEarly(after, pieces[1..], env)
  {
    hide EndsEarlyAt;
    if k: nat :| EndsEarlyAt(m, pieces, k, env) {
      assert EndsEarlyAt(after, pieces[1..], k - 1, env);
    }
    if k: nat :| EndsEarlyAt(after, pieces[1..], k, env) {
      assert EndsEarlyAt(m, pieces, k + 1, env);
    }
  }

  /** Not after the parser has finished, failed or met an error. */
  lemma EarlyNever(m: Parser, pieces: seq<Text>, env: Env)
    ensures !Open(m.cs) || m.error != 0 ==> !SomeEndsEarly(m, pieces, env)
  {
    hide Consumed, EndsEarly;
    forall k: nat | k < |pieces| && (!Open(m.cs) || m.error != 0)
      ensures !EndsEarlyAt(m, pieces, k, env)
    {
      if m.error != 0 && Feed(m, pieces[..k], env).Stopped? { FeedErrorStays(m, pieces[..k], env); }
    }
  }

  /** The data holds a complete head, and the first read (of `first` bytes) brings all of it. */
  ghost predicate HeadInFirst(d: Text, first: int, env: Env) {
    0 < first <= |d| && Scan(START, d, env).cs >= FINAL && Scan(START, d, env).used <= first
  }

  /** Then that read alone decides about the head, and it does not throw. */
  lemma FirstReadDecides(d: Text, cuts: seq<int>, size: nat, env: Env)
    requires QueriesOpenAt29(env) && HeadInFirst(d, Piece(cuts, |d|, size), env)
    ensures var first := Piece(cuts, |d|, size);
            var o := Consumed(FRESH, d[..first], env);
            && o.Stopped? && o.parser.cs >= FINAL && o.used == Scan(START, d, env).used
            && HeadOf(FRESH, d, 0, cuts, size, env)
               == if o.parser.error != 0 then HeadRefused else HeadDone(o.parser, o.used, first - o.used, cuts[1..])
  {
    hide Scan, Consumed, QueriesOpenAt29;
    var first := Piece(cuts, |d|, size);
    ThrowsIff(FRESH, d[..first], env);
    ConsumedIsExecuted(FRESH, d[..first], env);
    assert d == d[..first] + d[first..];
    assert d[0..0 + first] == d[..first];
    ScanJoin(START, d[..first], d[first..], env);
    var part := Scan(START, d[..first], env);
    ScanUsesAll(START, d[..first], env);
    if Open(part.cs) {
      FinishingUsesOne(part.cs, d[first..], env);
    }
  }

  /** When the reads have brought the first `head` bytes: how many bytes they have brought, and the reads to come. */
  datatype Arrival = Arrival(total: nat, cuts: seq<int>) | NoArrival

  function ArrivalOf(available: nat, n: nat, cuts: seq<int>, size: nat, head: nat): Arrival
    requires n <= available
    decreases |cuts|
  {
    if n >= head then Arrival(n, cuts)
    else
      var len := Piece(cuts, available - n, size);
      if len <= 0 then NoArrival else ArrivalOf(available, n + len, cuts[1..], size, head)
  }

  /** A head that is read has arrived. */
  lemma {:induction false} DoneHasArrived(m: Parser, d: Text, n: nat, cuts: seq<int>, size: nat, env: Env)
    requires Underway(m, d, n, env) && HeadOf(m, d, n, cuts, size, env).HeadDone?
    ensures var h := HeadOf(m, d, n, cuts, size, env);
            h.head > n && ArrivalOf(|d|, n, cuts, size, h.head) == Arrival(h.head + h.offset, h.cuts)
    decreases |cuts|
  {
    hide Scan, Consumed, Underway;
    UnderwayMeans(m, d, n, env);
    var len := Piece(cuts, |d| - n, size);
    if len > 0 {
      NextPiece(m, d, n, len, env);
      var o := Consumed(m, d[n..n + len], env);
      if Judged(o).Going? {
        DoneHasArrived(o.parser, d, n + len, cuts[1..], size, env);
      } else {
        assert ArrivalOf(|d|, n + len, cuts[1..], size, n + o.used) == Arrival(n + len, cuts[1..]);
      }
    }
  }

  lemma UnderwayMeans(m: Parser, d: Text, n: nat, env: Env)
    requires Underway(m, d, n, env)
    ensures n <= |d| && Open(m.cs)
  {
  }

  /** The header loop feeds the parser its pieces, until it has finished or met an error. */
  lemma {:induction false} HeadIsFed(m: Parser, d: Text, n: nat, cuts: seq<int>, size: nat, env: Env)
    requires n <= |d| && Open(m.cs) && m.error == 0
    ensures var f, h := Feed(m, Pieces(d, n, cuts, size), env), HeadOf(m, d, n, cuts, size, env);
            && (h.HeadThrew? ==> f.Threw?)
            && (f.Stopped? && f.parser.cs >= FINAL && f.parser.error == 0 ==> h.HeadDone? && h.parser == f.parser)
    decreases |cuts|
  {
    hide Consumed;
    var len := Piece(cuts, |d| - n, size);
    if len > 0 {
      var piece, rest := d[n..n + len], Pieces(d, n + len, cuts[1..], size);
      assert Pieces(d, n, cuts, size)[1..] == rest;
      var o := Consumed(m, piece, env);
      if Judged(o).Going? {
        HeadIsFed(o.parser, d, n + len, cuts[1..], size, env);
      } else if o.Stopped? && Feed(o.parser, rest, env).Stopped? {
        if o.parser.error != 0 { FeedErrorStays(o.parser, rest, env); }
      }
    }
  }

  lemma Adjacent(d: Text, a: nat, b: nat, c: nat)
    requires a <= b <= c <= |d|
    ensures d[a..b] + d[b..c] == d[a..c]
  {
  }

  /** What the reads bring is a beginning of the data; it holds what has arrived. */
  lemma {:induction false} PiecesAreData(d: Text, n: nat, cuts: seq<int>, size: nat, head: nat)
    requires n <= |d|
    ensures var c := Concatenated(Pieces(d, n, cuts, size));
            && n + |c| <= |d| && c == d[n..n + |c|] && (forall s :: s in Pieces(d, n, cuts, size) ==> s != [])
            && (ArrivalOf(|d|, n, cuts, size, head).Arrival? ==> n + |c| >= head)
    decreases |cuts|
  {
    var len := Piece(cuts, |d| - n, size);
    if len > 0 {
      PiecesAreData(d, n + len, cuts[1..], size, head);
      var c := Concatenated(Pieces(d, n + len, cuts[1..], size));
      Adjacent(d, n, n + len, n + len + |c|);
      var rest := Pieces(d, n + len, cuts[1..], size);
      assert ([d[n..n + len]] + rest)[1..] == rest;
    }
  }

  class HttpStream {
    const stream: Stream
    const bufferSize: nat    // http.request.buffer_size
    const relaxed: bool
    const other: (nat, Octet) -> nat

    constructor (stream: Stream, bufferSize: nat, relaxed: bool, other: (nat, Octet) -> nat)
      ensures this.stream == stream && this.bufferSize == bufferSize && this.relaxed == relaxed && this.other == other
    {
      this.stream, this.bufferSize, this.relaxed, this.other := stream, bufferSize, relaxed, other;
    }

    function Machine(): Env { Env(relaxed, other) }

    /** One read, and the parsing of what it brought. */
    method ReadPiece(parser: HttpRequestParser, buffer: array<Octet>, ghost d: Text, ghost n: nat)
      returns (progress: Progress, offset: nat, len: int)
      requires parser.Machine() == Machine() && buffer.Length == bufferSize
      requires Open(parser.parser.cs) && parser.parser.error == 0 && n <= |d| && stream.data == d[n..]
      modifies stream`data, stream`cuts, parser`parser, buffer
      ensures len == Piece(old(stream.cuts), |d| - n, bufferSize)
      ensures len <= 0 ==> progress == GivenUp
      ensures len > 0 ==>
                && len <= |d| - n && stream.data == d[n + len..] && stream.cuts == old(stream.cuts)[1..]
                && var o := Consumed(old(parser.parser), d[n..n + len], Machine());
                && progress == Judged(o) && parser.parser == o.parser
                && (progress == Finished || progress == Going ==>
                      offset == len - o.used && buffer[..offset] == d[n + len - offset..n + len])
    {
      hide Consumed, Judged;
      progress, offset := GivenUp, 0;
      len := stream.Read(buffer, 0, bufferSize);
      if len <= 0 {
        return;
      }
      ghost var m := parser.parser;
      assert buffer[..len] == d[n..n + len];
      var nparse := parser.Execute(buffer, len);
      ghost var o := Consumed(m, d[n..n + len], Machine());
      JudgedIs(m, d[n..n + len], Machine());
      if nparse.None? {
        progress := Thrown;
        return;
      }
      if parser.HasError() {
        return;
      }
      offset := len - nparse.value;
      if offset == bufferSize {
        return;
      }
      var finished := parser.IsFinished();
      progress := if finished != 0 then Finished else Going;
      assert d[n..n + len][nparse.value..] == d[n + nparse.value..n + len];
    }

    /** A call that neither fails nor throws uses something, and all it is given unless it finishes. */
    lemma JudgedIs(m: Parser, piece: Text, env: Env)
      requires Open(m.cs) && piece != []
      ensures var o := Consumed(m, piece, env);
              match Judged(o)
              case Thrown => o.Threw?
              case GivenUp => o.Stopped? && (o.parser.error != 0 || o.parser.cs == ERROR)
              case Finished => o.Stopped? && o.parser.error == 0 && o.parser.cs >= FINAL && o.used > 0
              case Going => o.Stopped? && o.parser.error == 0 && Open(o.parser.cs) && o.used == |piece|
    {
      hide Consumed, Scan;
      var o := Consumed(m, piece, env);
      if o.Stopped? {
        ConsumedIsExecuted(m, piece, env);
        if o.parser.cs >= FINAL {
          FinishingUsesOne(m.cs, piece, env);
        }
      }
    }

    /** The header loop. */
    method ReadHead(parser: HttpRequestParser, buffer: array<Octet>)
      returns (progress: Progress, offset: nat, ghost head: nat)
      requires parser.parser == FRESH && parser.Machine() == Machine() && buffer.Length == bufferSize
      modifies stream`data, stream`cuts, parser`parser, buffer
      ensures var h := HeadOf(FRESH, old(stream.data), 0, old(stream.cuts), bufferSize, Machine());
              match progress
              case Going => false
              case GivenUp => h == HeadRefused
              case Thrown => h == HeadThrew
              case Finished =>
                && h == HeadDone(parser.parser, head, offset, stream.cuts)
                && stream.data == old(stream.data)[head + offset..]
                && offset <= bufferSize && buffer[..offset] == old(stream.data)[head..head + offset]
    {
      hide Consumed, Judged;
      ghost var d := stream.data;
      ghost var n: nat := 0;
      offset, head := 0, 0;
      assert Open(START);
      while true
        invariant n <= |d| && stream.data == d[n..] && Open(parser.parser.cs) && parser.parser.error == 0
        invariant HeadOf(parser.parser, d, n, stream.cuts, bufferSize, Machine())
               == HeadOf(FRESH, d, 0, old(stream.cuts), bufferSize, Machine())
        decreases |stream.cuts|
      {
        ghost var m := parser.parser;
        var r, left, len := ReadPiece(parser, buffer, d, n);
        if r == GivenUp || r == Thrown {
          return r, 0, 0;
        }
        JudgedIs(m, d[n..n + len], Machine());
        if r == Finished {
          head := n + len - left;
          return r, left, head;
        }
        n := n + len;
      }
    }

    /** The bytes behind the head: first those in the buffer, then as many more as are missing. */
    method ReadBody(buffer: array<Octet>, offset: nat, length: nat, ghost d: Text, ghost head: nat)
      returns (ok: bool, body: Text)
      requires offset <= buffer.Length && length > 0 && head + offset <= |d|
      requires buffer[..offset] == d[head..head + offset] && stream.data == d[head + offset..]
      modifies stream`data, stream`cuts
      ensures ok <==> length <= offset || Arrives(old(stream.cuts), |d| - head - offset, length - offset)
      ensures ok ==> head + length <= |d| && body == d[head..head + length]
    {
      hide Delivers, Int32;
      var bytes := new Octet[length];
      var len := if length >= offset then offset else length;
      CopyInto(bytes, 0, buffer[..len]);
      assert bytes[..len] == d[head..head + len] by { assert buffer[..len] == buffer[..offset][..len]; }
      if length > offset {
        var r := stream.ReadFixSize(bytes, len, length - offset);
        if r <= 0 {
          return false, [];
        }
        assert d[head + offset..][..length - offset] == d[head + offset..head + length];
        assert d[head..head + offset] + d[head + offset..head + length] == d[head..head + length];
      }
      return true, bytes[..];
    }

    /** The request, or null, or the exception `thrown`: exactly what ReceiptOf says. */
    method RecvRequest() returns (req: HttpRequest?, thrown: bool)
      modifies stream`data, stream`cuts
      ensures match ReceiptOf(old(stream.data), old(stream.cuts), bufferSize, Machine())
              case Accepted(h) => req != null && fresh(req) && req.head == h && !thrown
              case Refused => req == null && !thrown
              case Exception => req == null && thrown
    {
      hide HeadOf, Initialised, ContentLength, Arrives;
      ghost var d := stream.data;
      var parser := new HttpRequestParser(relaxed, other);
      var buffer := new Octet[bufferSize];
      var progress, offset, head := ReadHead(parser, buffer);
      if progress != Finished {
        return null, progress == Thrown;
      }
      ghost var rest := stream.cuts;
      var length := BodyLength(parser.parser.req);
      var body: Text := [];
      if length > 0 {
        var ok;
        ok, body := ReadBody(buffer, offset, length, d, head);
        if !ok {
          return null, false;
        }
      }
      req := new HttpRequest();
      req.head := parser.parser.req.(body := body);
      InitKeepsBody(parser.parser.req, body);
      req.Init();
      thrown := false;
    }

    lemma InitKeepsBody(r: Request, body: Text)
      ensures Initialised(r.(body := body)) == Initialised(r).(body := body)
    {
    }
  }

  // ---------------------------------------------------------------- end to end

  /** The length that the request's own content-length header claims. */
  function Claimed(r: Request): nat {
    if CONTENT_LENGTH !in r.headers then 0
    else match Number(Stripped(r.headers[CONTENT_LENGTH].value))
      case None => 0
      case Some(n) => if n < 0x8000_0000_0000_0000 then n else 0
  }

  /** How many bytes of the body are missing when `total` bytes have arrived. */
  function Missing(r: Request, head: nat, total: nat): int {
    (if r.body == [] then Claimed(r) else |r.body|) - (total - head)
  }

  /** The reads that bring the head of a printed request end between its parts. */
  predicate ReadBetweenParts(d: Text, cuts: seq<int>, size: nat, env: Env) {
    CutBetweenParts(START, Pieces(d, 0, cuts, size), env)
  }

  /**
   A request printed by dump and sent with anything behind it, if no read of its
   head ends inside a part: it is accepted exactly if its head and the missing
   bytes of its body arrive and the number of these is positive as an int; it
   comes out as it was, exactly if it has a body or does not claim one; and no
   call throws.
   */
  lemma PrintedIsReceived(r: Request, keys: seq<Text>, extra: Text, cuts: seq<int>, size: nat, env: Env)
    requires Printable(r, keys) && |r.body| < 0x8000_0000_0000_0000
    requires ReadBetweenParts(Dump(r, keys) + extra, cuts, size, env)
    ensures var d := Dump(r, keys) + extra;
            var a := ArrivalOf(|d|, 0, cuts, size, |Head(r, keys)|);
            match ReceiptOf(d, cuts, size, env)
            case Exception => false
            case Refused =>
              a.NoArrival? || (var missing := Missing(r, |Head(r, keys)|, a.total);
                               a.total <= |d| && missing > 0 && !Arrives(a.cuts, |d| - a.total, missing))
            case Accepted(h) =>
              && a.Arrival? && a.total <= |d|
              && (var missing := Missing(r, |Head(r, keys)|, a.total);
                  missing > 0 ==> Arrives(a.cuts, |d| - a.total, missing))
              && (h.(headers := r.headers) == r <==> (r.body != [] || Claimed(r) == 0))
              && forall k :: (if k in h.headers then Some(h.headers[k]) else None) == Expected(r, k)
  {
    hide Consumed, Scan, Initialised, ContentLength, Head, Dump;
    hide Printable, HeadersRead, Fold, Expected, Claimed, Arrives;
    hide HeadOf, ReadBetweenParts;
    var d := Dump(r, keys) + extra;
    var head := Head(r, keys);
    HeadIsDone(r, keys, extra, cuts, size, env);
    var h := HeadOf(FRESH, d, 0, cuts, size, env);
    if h.HeadDone? {
      CloseAndLengthAreReadBack(r, keys);
      IsPlain(r, keys);
      LengthIsRead(r, keys);
      assert d[|head|..|head| + |r.body|] == r.body by { DumpIs(r, keys); }
      if |r.body| == 0 { assert r.body == []; }
      var missing := Missing(r, |head|, h.head + h.offset);
      if missing > 0 && Arrives(h.cuts, |d| - h.head - h.offset, missing) {
        ArrivesAtMost(h.cuts, |d| - h.head - h.offset, missing);
      }
      forall k ensures (if k in HeadersRead(r, keys) then Some(HeadersRead(r, keys)[k]) else None) == Expected(r, k) {
        HeadersAreReadBack(r, keys, k);
      }
    }
  }

  /** The header loop on a printed request: done exactly if the head arrives, and with its request. */
  lemma HeadIsDone(r: Request, keys: seq<Text>, extra: Text, cuts: seq<int>, size: nat, env: Env)
    requires Printable(r, keys) && ReadBetweenParts(Dump(r, keys) + extra, cuts, size, env)
    ensures var d := Dump(r, keys) + extra;
            var a, h := ArrivalOf(|d|, 0, cuts, size, |Head(r, keys)|), HeadOf(FRESH, d, 0, cuts, size, env);
            && !h.HeadThrew? && (h.HeadDone? <==> a.Arrival?)
            && (h.HeadDone? ==> h.head == |Head(r, keys)| && a == Arrival(h.head + h.offset, h.cuts)
                                && h.parser.req == RequestRead(r, keys))
  {
    hide Consumed, Scan, Dump, Head, Printable, HeadersRead;
    hide HeadOf, CutBetweenParts, Feed, OriginForm, Pieces, ArrivalOf;
    var d, head := Dump(r, keys) + extra, Head(r, keys);
    var h, pieces := HeadOf(FRESH, d, 0, cuts, size, env), Pieces(d, 0, cuts, size);
    WholeIsRead(r, keys, extra, env);
    assert Underway(FRESH, d, 0, env) by { NothingScanned(START, env); }
    if h.HeadDone? {
      HeadIsScanned(FRESH, d, 0, cuts, size, env);
      DoneHasArrived(FRESH, d, 0, cuts, size, env);
    }
    PiecesAreData(d, 0, cuts, size, |head|);
    var c := Concatenated(pieces);
    assert c == d[..|c|];
    assert OriginForm(START, c, env) by { BeginIsOrigin(r, keys, extra, |c|, env); }
    CutBetweenPartsDoesNotMatter(pieces, env);
    HeadIsFed(FRESH, d, 0, cuts, size, env);
    if ArrivalOf(|d|, 0, cuts, size, |head|).Arrival? {
      BeginIsRead(r, keys, extra, |c|, env);
    }
  }

  lemma PrefixIsOrigin(cs: nat, a: Text, b: Text, env: Env)
    requires OriginForm(cs, a + b, env)
    ensures OriginForm(cs, a, env)
    decreases |a|
  {
    hide Next, SpelledOut;
    if a != [] && Open(cs) {
      assert (a + b)[1..] == a[1..] + b && (a + b)[0] == a[0];
      PrefixIsOrigin(Next(cs, a[0], env), a[1..], b, env);
    }
  }

  lemma BeginIsOrigin(r: Request, keys: seq<Text>, extra: Text, n: nat, env: Env)
    requires Printable(r, keys) && n <= |Dump(r, keys) + extra|
    ensures OriginForm(START, (Dump(r, keys) + extra)[..n], env)
  {
    hide Printable, Dump, Head, OriginForm;
    var d := Dump(r, keys) + extra;
    IsPlain(r, keys);
    DumpIs(r, keys);
    assert d == Head(r, keys) + (r.body + extra);
    HeadIsOrigin(r, keys, r.body + extra, env);
    assert d == d[..n] + d[n..];
    PrefixIsOrigin(START, d[..n], d[n..], env);
  }

  /** One call on as much of the data as holds the head. */
  lemma BeginIsRead(r: Request, keys: seq<Text>, extra: Text, n: nat, env: Env)
    requires Printable(r, keys) && |Head(r, keys)| <= n <= |Dump(r, keys) + extra|
    ensures var o := Consumed(FRESH, (Dump(r, keys) + extra)[..n], env);
            && o.Stopped? && o.parser.cs == FINAL && o.parser.error == 0 && o.used == |Head(r, keys)|
            && o.parser.req == RequestRead(r, keys)
  {
    hide Consumed, Printable, Dump, Head, HeadersRead;
    var d, head := Dump(r, keys) + extra, Head(r, keys);
    IsPlain(r, keys);
    DumpIs(r, keys);
    assert d == head + (r.body + extra);
    assert d[..n] == head + d[|head|..n];
    HeadIsReadBack(r, keys, d[|head|..n], env);
  }

  lemma WholeIsRead(r: Request, keys: seq<Text>, extra: Text, env: Env)
    requires Printable(r, keys)
    ensures |Head(r, keys)| > 0 && Scan(START, Dump(r, keys) + extra, env) == Scanned(FINAL, |Head(r, keys)|)
  {
    hide Consumed, Scan, Dump, Head, Printable, HeadersRead;
    var d := Dump(r, keys) + extra;
    IsPlain(r, keys);
    DumpIs(r, keys);
    HeadIsNotEmpty(r, keys);
    assert d[..|d|] == d && |Head(r, keys)| <= |d|;
    BeginIsRead(r, keys, extra, |d|, env);
    ConsumedIsExecuted(FRESH, d, env);
  }

  /** A first read that brings the whole head is such a case. */
  lemma FirstReadIsEnough(r: Request, keys: seq<Text>, extra: Text, cuts: seq<int>, size: nat, env: Env)
    requires Printable(r, keys) && |Head(r, keys)| <= Piece(cuts, |Dump(r, keys) + extra|, size)
    ensures var d := Dump(r, keys) + extra;
            && ReadBetweenParts(d, cuts, size, env)
            && ArrivalOf(|d|, 0, cuts, size, |Head(r, keys)|) == Arrival(Piece(cuts, |d|, size), cuts[1..])
  {
    hide Consumed, Scan, Dump, Head, Printable, HeadersRead;
    var d := Dump(r, keys) + extra;
    var first := Piece(cuts, |d|, size);
    HeadIsNotEmpty(r, keys);
    BeginIsRead(r, keys, extra, first, env);
    ConsumedIsExecuted(FRESH, d[..first], env);
    assert d[0..0 + first] == d[..first];
    assert ArrivalOf(|d|, first, cuts[1..], size, |Head(r, keys)|) == Arrival(first, cuts[1..]);
    var rest := Pieces(d, first, cuts[1..], size);
    assert ([d[0..first]] + rest)[1..] == rest && CutBetweenParts(FINAL, rest, env);
  }

  /** A missing part of exactly 2 GiB is refused even if all of it arrives. */
  lemma TwoGiBAreRefused(r: Request, keys: seq<Text>, extra: Text, cuts: seq<int>, size: nat, env: Env)
    requires Printable(r, keys) && |r.body| < 0x8000_0000_0000_0000
    requires ReadBetweenParts(Dump(r, keys) + extra, cuts, size, env)
    requires var a := ArrivalOf(|Dump(r, keys) + extra|, 0, cuts, size, |Head(r, keys)|);
             a.Arrival? && Missing(r, |Head(r, keys)|, a.total) == 0x8000_0000
    ensures ReceiptOf(Dump(r, keys) + extra, cuts, size, env) == Refused
  {
    hide Printable, Head, Dump, ReceiptOf, Missing, Expected, Delivers, ReadBetweenParts, ArrivalOf;
    PrintedIsReceived(r, keys, extra, cuts, size, env);
    assert Int32(0x8000_0000) < 0;
  }

  /** A name that spells content-length in any case is that key. */
  lemma AnySpelling(name: Text)
    requires Lowers(name, "content-length")
    ensures Fold(name) == CONTENT_LENGTH
  {
    hide Fold;
    assert '\0' !in name by {
      forall i | 0 <= i < |name| ensures name[i] != '\0' { assert CONTENT_LENGTH[i] != '\0'; }
    }
    assert name[..|name|] == name;
    BeginsFolded(name, |name|, CONTENT_LENGTH);
    FoldIs(name, |name|);
    assert name[0..|name|] == name && Fold(name)[..|name|] == Fold(name);
  }

  lemma ClaimIsRead(r: Request, n: nat)
    requires CONTENT_LENGTH in r.headers && r.headers[CONTENT_LENGTH].value == Decimal(n) && n < 0x8000_0000_0000_0000
    ensures Claimed(r) == n
  {
    hide Decimal, Number;
    FixedLinesAreLegal(true, n);
    NumberRoundTrip(n);
  }

  lemma LengthOf(h: Request, n: nat)
    requires CONTENT_LENGTH in h.headers && h.headers[CONTENT_LENGTH].value == Decimal(n) && n < 0x8000_0000_0000_0000
    ensures BodyLength(h) == n
  {
    hide Decimal, Number, Fold;
    FixedNames();
    NumberRoundTrip(n);
  }

  /**
   A request whose head says `n` under any spelling of content-length is received
   with the `n` bytes behind the head as its body; it is refused only if its head
   or a part of these bytes does not arrive.
   */
  lemma AnySpellingFrames(r: Request, keys: seq<Text>, name: Text, n: nat, extra: Text, cuts: seq<int>, size: nat,
          env: Env)
    requires Printable(r, keys) && r.body == [] && n < 0x8000_0000_0000_0000 && Lowers(name, "content-length")
    requires Fold(name) in r.headers && r.headers[Fold(name)] == Binding(name, Decimal(n))
    requires ReadBetweenParts(Dump(r, keys) + extra, cuts, size, env)
    ensures var d := Dump(r, keys) + extra;
            var a := ArrivalOf(|d|, 0, cuts, size, |Head(r, keys)|);
            match ReceiptOf(d, cuts, size, env)
            case Exception => false
            case Accepted(h) => n <= |extra| && h.body == extra[..n]
            case Refused =>
              a.NoArrival? || (var missing := n - (a.total - |Head(r, keys)|);
                               a.total <= |d| && missing > 0 && !Arrives(a.cuts, |d| - a.total, missing))
  {
    hide Printable, Head, Dump, ReceiptOf, Expected, Arrives, ReadBetweenParts, ArrivalOf, Scan, Fold, Decimal, Lowers;
    hide Claimed, Stripped, BodyLength;
    AnySpelling(name);
    ClaimIsRead(r, n);
    PrintedIsReceived(r, keys, extra, cuts, size, env);
    var d := Dump(r, keys) + extra;
    var receipt := ReceiptOf(d, cuts, size, env);
    if receipt.Accepted? {
      BodyIsFramed(d, cuts, size, env);
      WholeIsRead(r, keys, extra, env);
      LengthIsExpected(r, n);
      LengthOf(receipt.h, n);
      PlainDump(r, keys);
      assert d[|Head(r, keys)|..|Head(r, keys)| + n] == extra[..n];
    }
  }

  lemma LengthIsExpected(r: Request, n: nat)
    requires r.body == [] && CONTENT_LENGTH in r.headers && r.headers[CONTENT_LENGTH].value == Decimal(n)
    ensures Expected(r, CONTENT_LENGTH) == Some(Binding(r.headers[CONTENT_LENGTH].key, Decimal(n)))
  {
    hide Decimal;
    FixedLinesAreLegal(true, n);
  }

  lemma PlainDump(r: Request, keys: seq<Text>)
    requires Printable(r, keys) && r.body == []
    ensures Dump(r, keys) == Head(r, keys)
  {
    hide Dump, Head;
    IsPlain(r, keys);
    DumpIs(r, keys);
  }

  lemma ArrivesAtMost(cuts: seq<int>, available: nat, missing: nat)
    requires Arrives(cuts, available, missing)
    ensures missing <= available
  {
    DeliversAtMost(cuts, available, missing);
  }

  lemma HeadIsNotEmpty(r: Request, keys: seq<Text>)
    ensures Head(r, keys) != []
  {
  }

  lemma IsPlain(r: Request, keys: seq<Text>)
    requires Printable(r, keys)
    ensures !r.websocket
  {
  }

  lemma LengthIsRead(r: Request, keys: seq<Text>)
    requires Printable(r, keys) && |r.body| < 0x8000_0000_0000_0000
    ensures BodyLength(RequestRead(r, keys)) == if r.body == [] then Claimed(r) else |r.body|
  {
    hide HeadersRead, Fold, LegalName, LegalValue, LegalText, LegalPath, Stripped, Number;
    CloseAndLengthAreReadBack(r, keys);
    FixedNames();
    HeadersAreReadBack(r, keys, CONTENT_LENGTH);
  }
}
