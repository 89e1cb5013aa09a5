/**
 The request parser: its marks and callbacks on top of the control states, and
 HttpRequestParser, which feeds it from a buffer.
 */
module HttpParsers {
  import opened Wrappers
  import opened UrlCodec
  import opened Forms
  import opened HttpMachine
  import opened HttpRequests

  /** The fields of http_parser, the error code and the request of HttpRequestParser. */
  datatype Parser = Parser(cs: nat, mark: nat, queryStart: nat, fieldStart: nat, fieldLen: int, bodyStart: nat,
                           error: nat, req: Request)

  const FRESH := Parser(START, 0, 0, 0, 0, 0, 0, BLANK)

  const INVALID_METHOD := 1000
  const INVALID_VERSION := 1001
  const EMPTY_FIELD := 1002

  /** The `len` characters from `from` on; nothing if they do not lie in the buffer. */
  function Cut(buf: Text, from: nat, len: int): Text {
    if 0 <= len && from + len <= |buf| then buf[from..from + len] else []
  }

  function OnMethod(m: Parser, text: Text): Parser {
    match CharsToMethod(text)
    case None => m.(error := INVALID_METHOD)
    case Some(verb) => m.(req := m.req.(verb := verb))
  }

  function OnPath(m: Parser, text: Text): Parser { m.(req := m.req.(path := text)) }

  function OnQuery(m: Parser, text: Text): Parser { m.(req := m.req.(query := text)) }

  function OnFragment(m: Parser, text: Text): Parser { m.(req := m.req.(fragment := text)) }

  function OnVersion(m: Parser, text: Text): Parser {
    if text <= "HTTP/1.1" then m.(req := m.req.(version := 0x11))
    else if text <= "HTTP/1.0" then m.(req := m.req.(version := 0x10))
    else m.(error := INVALID_VERSION)
  }

  /** setHeader: a later line with the same name overwrites the value. */
  function OnField(m: Parser, name: Text, value: Text): Parser {
    if name == [] then m.(error := EMPTY_FIELD)
    else m.(req := m.req.(headers := Assign(m.req.headers, name, value)))
  }

  /** The actions of the transition of character p to state `next`. */
  function Act(m: Parser, buf: Text, p: nat, next: nat): Parser {
    if m.cs == 1 || m.cs == 4 then m.(mark := p)
    else if (m.cs == 2 || 175 <= m.cs <= 193) && next == 3 then OnMethod(m, Cut(buf, m.mark, |buf| - m.mark))
    else if m.cs == 3 then (if next == 4 || next == 20 || next == 29 then OnPath(m.(mark := p), []) else m.(mark := p))
    else if (m.cs == 26 || m.cs == 33) && (next == 4 || next == 20 || next == 29) then
      OnPath(m, Cut(buf, m.mark, p - m.mark))
    else if m.cs == 29 then (if next == 4 || next == 20 then OnQuery(m.(queryStart := p), []) else m.(queryStart := p))
    else if m.cs == 30 && (next == 4 || next == 20) then OnQuery(m, Cut(buf, m.queryStart, p - m.queryStart))
    else if m.cs == 20 then (if next == 4 then OnFragment(m.(mark := p), []) else m.(mark := p))
    else if m.cs == 21 && next == 4 then OnFragment(m, Cut(buf, m.mark, p - m.mark))
    else if m.cs == 12 then OnVersion(m, Cut(buf, m.mark, p - m.mark))
    else if m.cs == 13 then (if next == FINAL then m.(fieldStart := p, bodyStart := p + 1) else m.(fieldStart := p))
    else if m.cs == 18 && next == FINAL then m.(bodyStart := p + 1)
    else if (m.cs == 14 || m.cs == 18 || m.cs == FINAL) && next == 15 then m.(fieldLen := p - m.fieldStart)
    else if m.cs == 15 && (next == 13 || next == 17) then OnField(m.(mark := p), Cut(buf, m.fieldStart, m.fieldLen), [])
    else if m.cs == 15 then m.(mark := p)
    else if m.cs == 16 && (next == 13 || next == 17) then
      OnField(m, Cut(buf, m.fieldStart, m.fieldLen), Cut(buf, m.mark, p - m.mark))
    else m
  }

  /**
   How a call ends: after `used` characters, or with the exception that
   std::string throws when the query callback is given a length below zero.
   */
  datatype Outcome = Stopped(parser: Parser, used: nat) | Threw(parser: Parser)

  /** The query that ends here began, by its recorded mark, behind this character. */
  predicate Underflows(m: Parser, p: nat, next: nat) {
    m.cs == 30 && (next == 4 || next == 20) && p < m.queryStart
  }

  /** The characters from p on, and where the parser stops. */
  function Run(m: Parser, buf: Text, p: nat, env: Env): (r: Outcome)
    requires p <= |buf|
    ensures r.Stopped? ==> p <= r.used <= |buf|
    decreases |buf| - p
  {
    if p == |buf| then Stopped(m, p)
    else
      var next := Next(m.cs, buf[p], env);
      if next == ERROR then Stopped(m.(cs := ERROR), p)
      else if Underflows(m, p, next) then Threw(m)
      else
        var after := Act(m, buf, p, next).(cs := next);
        if next >= FINAL then Stopped(after, p + 1) else Run(after, buf, p + 1, env)
  }

  /** All marks but query_start begin afresh. */
  function Restarted(m: Parser): Parser { m.(mark := 0, fieldStart := 0, fieldLen := 0) }

  /**
   http_parser_execute: all marks but query_start begin afresh in every call, and
   the control state is stored only when the call returns.
   */
  function Consumed(m: Parser, buf: Text, env: Env): (r: Outcome)
    ensures r.Stopped? ==> r.used <= |buf|
  {
    if buf == [] then Stopped(m, 0)
    else
      var start := Restarted(m);
      if m.cs == ERROR then Stopped(start, 0)
      else
        match Run(start, buf, 0, env)
        case Threw(at) => Threw(at.(cs := m.cs))
        case Stopped(after, used) => Stopped(after, used)
  }

  /** The control state does not depend on the marks and callbacks. */
  lemma {:induction false} RunIsScan(m: Parser, buf: Text, p: nat, env: Env)
    requires p <= |buf| && Run(m, buf, p, env).Stopped?
    ensures var r := Run(m, buf, p, env);
            Scan(m.cs, buf[p..], env) == Scanned(r.parser.cs, r.used - p)
    decreases |buf| - p
  {
    hide Next, Act, Underflows;
    if p < |buf| {
      var next := Next(m.cs, buf[p], env);
      assert buf[p..][1..] == buf[p + 1..];
      if Open(next) {
        RunIsScan(Act(m, buf, p, next).(cs := next), buf, p + 1, env);
      }
    }
  }

  /**
   A call that returns goes through the same control states, and uses its whole
   buffer unless it finishes or fails.
   */
  lemma ConsumedIsExecuted(m: Parser, buf: Text, env: Env)
    requires Consumed(m, buf, env).Stopped?
    ensures var r := Consumed(m, buf, env);
            && Executed(m.cs, buf, env) == Scanned(r.parser.cs, r.used)
            && (Open(m.cs) && Open(r.parser.cs) ==> r.used == |buf|)
  {
    hide Scan, Run;
    if buf != [] && m.cs != ERROR {
      RunIsScan(Restarted(m), buf, 0, env);
      assert buf[0..] == buf;
      if Open(m.cs) {
        ScanUsesAll(m.cs, buf, env);
      }
    }
  }

  lemma {:induction false} ErrorStays(m: Parser, buf: Text, p: nat, env: Env)
    requires p <= |buf| && m.error != 0 && Run(m, buf, p, env).Stopped?
    ensures Run(m, buf, p, env).parser.error != 0
    decreases |buf| - p
  {
    hide Next, Underflows, CharsToMethod, Cut, Assign;
    if p < |buf| {
      var next := Next(m.cs, buf[p], env);
      if Open(next) { ErrorStays(Act(m, buf, p, next).(cs := next), buf, p + 1, env); }
    }
  }

  // ---------------------------------------------------------------- exceptions

  /** The states of a query are entered only from its first one, 29, and from each other. */
  ghost predicate QueriesOpenAt29(env: Env) { forall cs: nat, c: Octet :: !InQuery(env.other(cs, c)) }

  /** Where the query that the parser is in ends in `s`, if it does. */
  function QueryEnd(cs: nat, s: Text, env: Env): Option<nat>
    decreases |s|
  {
    if s == [] || !InQuery(cs) then None
    else
      var next := Next(cs, s[0], env);
      if cs == 30 && (next == 4 || next == 20) then Some(0)
      else match QueryEnd(next, s[1..], env) case None => None case Some(e) => Some(e + 1)
  }

  /** This call ends a query nearer to its own beginning than the query began in its call. */
  predicate EndsEarly(m: Parser, s: Text, env: Env) {
    match QueryEnd(m.cs, s, env) case None => false case Some(e) => e < m.queryStart
  }

  /** A query whose mark lies in this call ends behind it. */
  lemma {:induction false} MarkedHere(m: Parser, buf: Text, p: nat, env: Env)
    requires p <= |buf| && QueriesOpenAt29(env) && (InQuery(m.cs) ==> m.queryStart <= p)
    ensures Run(m, buf, p, env).Stopped?
    decreases |buf| - p
  {
    if p < |buf| {
      var next := Next(m.cs, buf[p], env);
      if Open(next) {
        MarkedHere(Act(m, buf, p, next).(cs := next), buf, p + 1, env);
      }
    }
  }

  lemma {:induction false} RunThrowsIff(m: Parser, buf: Text, p: nat, env: Env)
    requires p <= |buf| && QueriesOpenAt29(env) && InQuery(m.cs)
    ensures Run(m, buf, p, env).Threw? <==>
              match QueryEnd(m.cs, buf[p..], env) case None => false case Some(e) => p + e < m.queryStart
    decreases |buf| - p
  {
    if p < |buf| {
      var next := Next(m.cs, buf[p], env);
      assert buf[p] == buf[p..][0] && buf[p..][1..] == buf[p + 1..];
      if InQuery(next) {
        RunThrowsIff(m.(cs := next), buf, p + 1, env);
      } else if next != ERROR && !Underflows(m, p, next) {
        MarkedHere(Act(m, buf, p, next).(cs := next), buf, p + 1, env);
      }
    }
  }

  /**
   A call throws exactly if it begins inside a query and ends that query at an
   index below the one recorded for its beginning in an earlier call.
   */
  lemma ThrowsIff(m: Parser, buf: Text, env: Env)
    requires QueriesOpenAt29(env)
    ensures Consumed(m, buf, env).Threw? <==> EndsEarly(m, buf, env)
  {
    hide Run, Next, QueriesOpenAt29;
    if buf != [] && m.cs != ERROR {
      assert buf[0..] == buf;
      var start := Restarted(m);
      if InQuery(m.cs) {
        RunThrowsIff(start, buf, 0, env);
      } else {
        MarkedHere(start, buf, 0, env);
      }
    }
  }

  /** Piece after piece until the parser has finished or failed, or a call throws. */
  function Feed(m: Parser, pieces: seq<Text>, env: Env): Outcome
    decreases |pieces|
  {
    if pieces == [] || !Open(m.cs) then Stopped(m, 0)
    else
      match Consumed(m, pieces[0], env)
      case Threw(at) => Threw(at)
      case Stopped(after, used) =>
        match Feed(after, pieces[1..], env)
        case Threw(at) => Threw(at)
        case Stopped(end, more) => Stopped(end, used + more)
  }

  /** An error stays. */
  lemma {:induction false} FeedErrorStays(m: Parser, pieces: seq<Text>, env: Env)
    requires m.error != 0 && Feed(m, pieces, env).Stopped?
    ensures Feed(m, pieces, env).parser.error != 0
    decreases |pieces|
  {
    hide Run;
    if pieces != [] && Open(m.cs) {
      var o := Consumed(m, pieces[0], env);
      if pieces[0] != [] { ErrorStays(Restarted(m), pieces[0], 0, env); }
      FeedErrorStays(o.parser, pieces[1..], env);
    }
  }

  /** The control state at every cut, as the scan of the text up to there gives it, is outside a query. */
  predicate CutOutsideQueries(cs: nat, pieces: seq<Text>, env: Env)
    decreases |pieces|
  {
    pieces == [] || !Open(cs) || (!InQuery(cs) && CutOutsideQueries(Executed(cs, pieces[0], env).cs, pieces[1..], env))
  }

  /** Unless a call throws, feeding pieces is feeding their concatenation. */
  lemma {:induction false} FeedIsOneCall(m: Parser, pieces: seq<Text>, env: Env)
    requires Open(m.cs) && (forall s :: s in pieces ==> s != []) && Feed(m, pieces, env).Stopped?
    ensures var r := Feed(m, pieces, env); Scanned(r.parser.cs, r.used) == Executed(m.cs, Concatenated(pieces), env)
  {
    FeedIsFed(m, pieces, env);
    CuttingDoesNotMatter(m.cs, pieces, env);
  }

  lemma {:induction false} FeedIsFed(m: Parser, pieces: seq<Text>, env: Env)
    requires Feed(m, pieces, env).Stopped?
    ensures var r := Feed(m, pieces, env); Scanned(r.parser.cs, r.used) == Fed(m.cs, pieces, env)
    decreases |pieces|
  {
    hide Consumed, Executed;
    if pieces != [] && Open(m.cs) {
      ConsumedIsExecuted(m, pieces[0], env);
      FeedIsFed(Consumed(m, pieces[0], env).parser, pieces[1..], env);
    }
  }

  /** Pieces cut outside a query never make a call throw; one piece from the start is such a case. */
  lemma {:induction false} CutOutsideQueriesNeverThrows(m: Parser, pieces: seq<Text>, env: Env)
    requires QueriesOpenAt29(env) && CutOutsideQueries(m.cs, pieces, env)
    ensures Feed(m, pieces, env).Stopped?
    decreases |pieces|
  {
    hide Consumed, Executed, QueriesOpenAt29;
    if pieces != [] && Open(m.cs) {
      ThrowsIff(m, pieces[0], env);
      ConsumedIsExecuted(m, pieces[0], env);
      CutOutsideQueriesNeverThrows(Consumed(m, pieces[0], env).parser, pieces[1..], env);
    }
  }

  class HttpRequestParser {
    const relaxed: bool
    const other: (nat, Octet) -> nat
    var parser: Parser

    constructor (relaxed: bool, other: (nat, Octet) -> nat)
      ensures parser == FRESH && Machine() == Env(relaxed, other)
    {
      this.relaxed, this.other := relaxed, other;
      parser := FRESH;
    }

    function Machine(): Env { Env(relaxed, other) }

    /** The loop of http_parser_execute over the first `len` characters; None for the exception. */
    method HttpParserExecute(data: array<Octet>, len: nat) returns (nread: Option<nat>)
      requires len <= data.Length
      modifies `parser
      ensures Consumed(old(parser), data[..len], Machine())
           == match nread case None => Threw(parser) case Some(n) => Stopped(parser, n)
    {
      if len == 0 {
        return Some(0);
      }
      ghost var buf := data[..len];
      hide Act, Next, Underflows;
      parser := Restarted(parser);
      var cs := parser.cs;
      if cs == ERROR {
        return Some(0);
      }
      var p := 0;
      while p < len
        invariant 0 <= p <= len && data[..len] == buf && cs == old(parser.cs)
        invariant Run(parser, buf, p, Machine()) == Run(Restarted(old(parser)), buf, 0, Machine())
        decreases len - p
      {
        var next := Next(parser.cs, data[p], Machine());
        if next == ERROR {
          parser := parser.(cs := ERROR);
          return Some(p);
        }
        if Underflows(parser, p, next) {
          parser := parser.(cs := cs);
          return None;
        }
        parser := Act(parser, data[..len], p, next).(cs := next);
        p := p + 1;
        if next >= FINAL {
          return Some(p);
        }
      }
      nread := Some(p);
    }

    /** What was not used moves to the front of the buffer; after an exception nothing moves. */
    method Execute(data: array<Octet>, len: nat) returns (offset: Option<nat>)
      requires len <= data.Length
      modifies `parser, data
      ensures Consumed(old(parser), old(data[..len]), Machine())
           == match offset case None => Threw(parser) case Some(n) => Stopped(parser, n)
      ensures offset.None? ==> data[..] == old(data[..])
      ensures offset.Some? ==> offset.value <= len
                               && data[..len - offset.value] == old(data[offset.value..len])
                               && data[len - offset.value..] == old(data[len - offset.value..])
    {
      offset := HttpParserExecute(data, len);
      if offset.None? {
        return;
      }
      MoveToFront(data, offset.value, len);
    }

    /** memmove. */
    static method MoveToFront(data: array<Octet>, offset: nat, len: nat)
      requires offset <= len <= data.Length
      modifies data
      ensures data[..len - offset] == old(data[offset..len])
      ensures data[len - offset..] == old(data[len - offset..])
    {
      var i := 0;
      while i < len - offset
        invariant 0 <= i <= len - offset
        invariant forall j :: 0 <= j < i ==> data[j] == old(data[offset + j])
        invariant forall j :: i <= j < data.Length ==> data[j] == old(data[j])
      {
        data[i] := data[offset + i];
        i := i + 1;
      }
    }

    /** 1 finished, 0 not yet, -1 failed. */
    method IsFinished() returns (r: int)
      ensures r == if parser.cs == ERROR then -1 else if parser.cs >= FINAL then 1 else 0
    {
      r := if parser.cs == ERROR then -1 else if parser.cs >= FINAL then 1 else 0;
    }

    predicate HasError()
      reads this
    {
      parser.error != 0 || parser.cs == ERROR
    }
  }
}
