/**
 What the parser reports is legal text.  With HttpRoundTrip this says exactly
 which requests survive being printed and parsed.
 */
module HttpLegality {
  import opened UrlCodec
  import opened Forms
  import opened HttpMachine
  import opened HttpRequests
  import opened HttpParsers
  import opened HttpRoundTrip
  import opened HttpCuts

  // --------------------------------------------------------------- text so far

  /** Legal text, and then the first k characters of an escape. */
  predicate Partial(s: Text, k: nat, query: bool) {
    && k <= 2 && k <= |s| && LegalText(s[..|s| - k], query)
    && (k >= 1 ==> s[|s| - k] == '%') && (k == 2 ==> IsHexDigit(s[|s| - 1]))
  }

  predicate PartialPath(s: Text, k: nat) {
    s != [] && s[0] == '/' && Partial(s[1..], k, false) && (|s| > 1 ==> s[1] != '/')
  }

  lemma {:induction false} LegalJoin(a: Text, b: Text, query: bool)
    requires LegalText(a, query) && LegalText(b, query)
    ensures LegalText(a + b, query)
    decreases |a|
  {
    if a == [] {
      assert a + b == b;
    } else if a[0] == '%' {
      assert (a + b)[3..] == a[3..] + b;
      LegalJoin(a[3..], b, query);
    } else {
      assert (a + b)[1..] == a[1..] + b;
      LegalJoin(a[1..], b, query);
    }
  }

  /** How many characters of an escape have been read after c. */
  function Escaped(k: nat, c: Octet): nat {
    if k == 0 then (if c == '%' then 1 else 0) else if k == 1 then 2 else 0
  }

  lemma PartialStep(s: Text, k: nat, query: bool, c: Octet)
    requires Partial(s, k, query)
    requires if k > 0 then IsHexDigit(c) else c == '%' || PlainChar(c) || (query && c == '?')
    ensures Partial(s + [c], Escaped(k, c), query)
  {
    hide LegalText;
    var t := s + [c];
    if k == 0 && c != '%' {
      assert s[..|s| - 0] == s && t[..|t| - 0] == t;
      OneChar(c, query);
      LegalJoin(s, [c], query);
    } else if k == 2 {
      var e := [s[|s| - 2], s[|s| - 1], c];
      assert s[..|s| - 2] + e == t && t[..|t| - 0] == t;
      OneEscape(e, query);
      LegalJoin(s[..|s| - 2], e, query);
    } else {
      assert t[..|s| - k] == s[..|s| - k];
    }
  }

  lemma OneChar(c: Octet, query: bool)
    requires PlainChar(c) || (query && c == '?')
    ensures LegalText([c], query)
  {
    assert [c][1..] == [];
  }

  lemma OneEscape(e: Text, query: bool)
    requires |e| == 3 && e[0] == '%' && IsHexDigit(e[1]) && IsHexDigit(e[2])
    ensures LegalText(e, query)
  {
    assert e[3..] == [];
  }

  /** A value as the parser reports it. */
  predicate BareValue(v: Text) { LegalValue(v) && (v == [] || !Blank(v[0])) }

  ghost predicate LegalTable(headers: Table) {
    forall k :: k in headers ==> LegalName(headers[k].key) && BareValue(headers[k].value)
  }

  ghost predicate LegalRequest(r: Request) {
    && (r.version == 0x10 || r.version == 0x11)
    && LegalPath(r.path) && LegalText(r.query, true) && LegalText(r.fragment, true) && LegalTable(r.headers)
  }

  // ------------------------------------------------------------- the invariant

  predicate BehindTargetStart(cs: nat) { 4 <= cs <= 18 || 20 <= cs <= 23 || 26 <= cs <= 33 || cs == FINAL }

  predicate ReadingPath(m: Parser, buf: Text, p: nat)
    requires p <= |buf| && InPath(m.cs)
  {
    && m.mark < p && PartialPath(buf[m.mark..p], if m.cs == 33 then 0 else m.cs - 26)
    && (m.cs == 33 <==> p == m.mark + 1)
  }

  /** In state 18 one character is read, a CR; in state 14 that is not all. */
  predicate ReadingName(m: Parser, buf: Text, p: nat)
    requires p <= |buf|
  {
    && m.fieldStart < p && LegalName(buf[m.fieldStart..p])
    && (m.cs == 18 ==> p == m.fieldStart + 1) && (m.cs == 14 ==> p > m.fieldStart + 1 || buf[m.fieldStart] != '\r')
  }

  predicate NameRead(m: Parser, buf: Text, p: nat)
    requires p <= |buf|
  {
    0 <= m.fieldLen && m.fieldStart + m.fieldLen <= p && LegalName(buf[m.fieldStart..m.fieldStart + m.fieldLen])
  }

  /** The part that is being read is legal so far. */
  ghost predicate Reading(m: Parser, buf: Text, p: nat)
    requires p <= |buf|
  {
    && BehindTargetStart(m.cs)
    && (InPath(m.cs) ==> ReadingPath(m, buf, p))
    && (InQuery(m.cs) ==> m.queryStart <= p && Partial(buf[m.queryStart..p], m.cs - 30, true))
    && (InFragment(m.cs) ==> m.mark <= p && Partial(buf[m.mark..p], m.cs - 21, true))
    && (m.cs == 14 || m.cs == 18 ==> ReadingName(m, buf, p))
    && (m.cs == 15 || m.cs == 16 ==> NameRead(m, buf, p))
    && (m.cs == 16 ==> m.mark < p && BareValue(buf[m.mark..p]))
  }

  lemma Longer(buf: Text, from: nat, p: nat)
    requires from <= p < |buf|
    ensures buf[from..p + 1] == buf[from..p] + [buf[p]]
  {
  }

  lemma PathStep(m: Parser, buf: Text, p: nat, next: nat, env: Env)
    requires p < |buf| && !env.relaxed && InPath(m.cs) && ReadingPath(m, buf, p) && (m.cs == 33 ==> buf[p] != '/')
    requires next == Next(m.cs, buf[p], env) && next != ERROR
    ensures InPath(next) && next != 33 ==> ReadingPath(m.(cs := next), buf, p + 1)
    ensures !InPath(next) ==> LegalPath(Cut(buf, m.mark, p - m.mark)) && (next == 4 || next == 20 || next == 29)
    ensures next != 33
  {
    hide LegalText;
    var s, k := buf[m.mark..p], if m.cs == 33 then 0 else m.cs - 26;
    Longer(buf, m.mark, p);
    if InPath(next) {
      PartialStep(s[1..], k, false, buf[p]);
      assert (s + [buf[p]])[1..] == s[1..] + [buf[p]];
      assert |s| > 1 ==> (s + [buf[p]])[1] == s[1];
      assert |s| == 1 ==> (s + [buf[p]])[1] == buf[p];
    } else {
      assert s[1..][..|s[1..]| - 0] == s[1..];
    }
  }

  lemma QueryStep(m: Parser, buf: Text, p: nat, next: nat, env: Env)
    requires p < |buf| && !env.relaxed && InQuery(m.cs) && m.queryStart <= p
    requires Partial(buf[m.queryStart..p], m.cs - 30, true)
    requires next == Next(m.cs, buf[p], env) && next != ERROR
    ensures InQuery(next) ==> Partial(buf[m.queryStart..p + 1], next - 30, true)
    ensures !InQuery(next) ==>
              m.cs == 30 && LegalText(Cut(buf, m.queryStart, p - m.queryStart), true) && (next == 4 || next == 20)
  {
    hide LegalText;
    var s := buf[m.queryStart..p];
    Longer(buf, m.queryStart, p);
    if InQuery(next) {
      PartialStep(s, m.cs - 30, true, buf[p]);
    } else {
      assert s[..|s| - 0] == s;
    }
  }

  lemma FragmentStep(m: Parser, buf: Text, p: nat, next: nat, env: Env)
    requires p < |buf| && !env.relaxed && InFragment(m.cs) && m.mark <= p && Partial(buf[m.mark..p], m.cs - 21, true)
    requires next == Next(m.cs, buf[p], env) && next != ERROR
    ensures InFragment(next) ==> Partial(buf[m.mark..p + 1], next - 21, true)
    ensures !InFragment(next) ==> m.cs == 21 && LegalText(Cut(buf, m.mark, p - m.mark), true) && next == 4
  {
    hide LegalText;
    var s := buf[m.mark..p];
    Longer(buf, m.mark, p);
    if InFragment(next) {
      PartialStep(s, m.cs - 21, true, buf[p]);
    } else {
      assert s[..|s| - 0] == s;
    }
  }

  /** The first character of a query or fragment. */
  lemma PartBegun(buf: Text, p: nat)
    requires p < |buf| && (buf[p] == '%' || PlainChar(buf[p]) || buf[p] == '?')
    ensures Partial(buf[p..p + 1], Escaped(0, buf[p]), true)
  {
    hide LegalText;
    assert buf[p..p + 1] == [] + [buf[p]];
    assert Partial([], 0, true) by { NothingIsLegal(); }
    PartialStep([], 0, true, buf[p]);
  }

  lemma NothingIsLegal()
    ensures LegalText([], true)
  {
  }

  lemma NameStep(m: Parser, buf: Text, p: nat, next: nat, env: Env)
    requires p < |buf| && (m.cs == 14 || m.cs == 18) && ReadingName(m, buf, p)
    requires next == Next(m.cs, buf[p], env) && next != ERROR && next != FINAL
    ensures next == 14 ==> ReadingName(m.(cs := next), buf, p + 1)
    ensures next != 14 ==> next == 15 && NameRead(m.(fieldLen := p - m.fieldStart), buf, p + 1)
  {
    var s := buf[m.fieldStart..p];
    Longer(buf, m.fieldStart, p);
    if next == 14 {
      var t := s + [buf[p]];
      assert t[0] == s[0] == buf[m.fieldStart];
      assert |s| > 1 ==> t[1] == s[1];
    }
  }

  lemma NameBegun(m: Parser, buf: Text, p: nat, next: nat, env: Env)
    requires p < |buf| && m.cs == 13 && next == Next(13, buf[p], env) && next != ERROR && next != FINAL
    ensures (next == 14 || next == 18) && ReadingName(m.(cs := next, fieldStart := p), buf, p + 1)
  {
    assert buf[p..p + 1] == [buf[p]];
  }

  lemma ValueStep(m: Parser, buf: Text, p: nat, next: nat, env: Env)
    requires p < |buf| && m.cs == 16 && m.mark < p && BareValue(buf[m.mark..p])
    requires next == Next(16, buf[p], env) && next != ERROR
    ensures next == 16 || next == 13 || next == 17
    ensures next == 16 ==> BareValue(buf[m.mark..p + 1])
  {
    var s := buf[m.mark..p];
    Longer(buf, m.mark, p);
    assert (s + [buf[p]])[0] == s[0];
  }

  lemma ValueBegun(buf: Text, p: nat, next: nat, env: Env)
    requires p < |buf| && next == Next(15, buf[p], env) && next != ERROR
    ensures next == 15 || next == 16 || next == 13 || next == 17
    ensures next == 16 ==> BareValue(buf[p..p + 1])
  {
    assert buf[p..p + 1] == [buf[p]];
  }

  lemma Named(m: Parser, buf: Text, p: nat, value: Text)
    requires p <= |buf| && NameRead(m, buf, p) && BareValue(value) && LegalTable(m.req.headers)
    ensures var name := Cut(buf, m.fieldStart, m.fieldLen); LegalTable(OnField(m, name, value).req.headers)
    ensures OnField(m, Cut(buf, m.fieldStart, m.fieldLen), value).req
            == m.req.(headers := OnField(m, Cut(buf, m.fieldStart, m.fieldLen), value).req.headers)
  {
    hide Fold, LegalName, BareValue;
  }

  // ---------------------------------------------------------------- every step

  /** The state behind the next character, where the parser goes on. */
  ghost predicate StillReading(m: Parser, buf: Text, p: nat, next: nat)
    requires p < |buf|
  {
    var after := Act(m, buf, p, next).(cs := next);
    LegalRequest(after.req) && (next != FINAL ==> Reading(after, buf, p + 1))
  }

  lemma TargetStep(m: Parser, buf: Text, p: nat, next: nat, env: Env)
    requires p < |buf| && !env.relaxed && LegalRequest(m.req) && Reading(m, buf, p)
    requires InPath(m.cs) || InQuery(m.cs) || InFragment(m.cs) || m.cs == 20 || m.cs == 29
    requires next == Next(m.cs, buf[p], env) && next != ERROR && (m.cs == 33 ==> buf[p] != '/')
    ensures StillReading(m, buf, p, next) && !Underflows(m, p, next)
  {
    hide LegalText, Partial, PartialPath, LegalPath, LegalTable, Cut;
    if InPath(m.cs) {
      PathStep(m, buf, p, next, env);
    } else if InQuery(m.cs) {
      QueryStep(m, buf, p, next, env);
    } else if InFragment(m.cs) {
      FragmentStep(m, buf, p, next, env);
    } else {
      NothingIsLegal();
      if next != 4 && next != 20 { PartBegun(buf, p); }
    }
  }

  lemma VersionStep(m: Parser, buf: Text, p: nat, next: nat, env: Env)
    requires p < |buf| && LegalRequest(m.req) && Reading(m, buf, p) && (4 <= m.cs <= 12 || m.cs == 17)
    requires next == Next(m.cs, buf[p], env) && next != ERROR
    ensures StillReading(m, buf, p, next)
  {
    hide LegalText, LegalPath, LegalTable, LegalName, BareValue, OnField, Cut;
  }

  lemma NameLineStep(m: Parser, buf: Text, p: nat, next: nat, env: Env)
    requires p < |buf| && LegalRequest(m.req) && Reading(m, buf, p) && (m.cs == 13 || m.cs == 14 || m.cs == 18)
    requires next == Next(m.cs, buf[p], env) && next != ERROR
    ensures StillReading(m, buf, p, next)
  {
    hide LegalText, LegalPath, LegalTable, LegalName, BareValue, OnField, Cut;
    if m.cs == 13 {
      if next != FINAL { NameBegun(m, buf, p, next, env); }
    } else if next != FINAL {
      NameStep(m, buf, p, next, env);
    }
  }

  lemma BlankStep(m: Parser, buf: Text, p: nat, next: nat, env: Env)
    requires p < |buf| && LegalRequest(m.req) && Reading(m, buf, p) && m.cs == 15
    requires next == Next(m.cs, buf[p], env) && next != ERROR
    ensures StillReading(m, buf, p, next)
  {
    hide LegalText, LegalPath, LegalTable, LegalName, BareValue, OnField, Cut;
    ValueBegun(buf, p, next, env);
    if next == 13 || next == 17 {
      assert BareValue([]) by { NoValue(); }
      Named(m.(mark := p), buf, p, []);
    }
  }

  lemma ValueLineStep(m: Parser, buf: Text, p: nat, next: nat, env: Env)
    requires p < |buf| && LegalRequest(m.req) && Reading(m, buf, p) && m.cs == 16
    requires next == Next(m.cs, buf[p], env) && next != ERROR
    ensures StillReading(m, buf, p, next)
  {
    hide LegalText, LegalPath, LegalTable, LegalName, BareValue, OnField, Cut;
    ValueStep(m, buf, p, next, env);
    if next != 16 {
      assert Cut(buf, m.mark, p - m.mark) == buf[m.mark..p] by { CutHere(buf, m.mark, p); }
      Named(m, buf, p, buf[m.mark..p]);
    }
  }

  lemma HeaderStep(m: Parser, buf: Text, p: nat, next: nat, env: Env)
    requires p < |buf| && LegalRequest(m.req) && Reading(m, buf, p) && 4 <= m.cs <= 18
    requires next == Next(m.cs, buf[p], env) && next != ERROR
    ensures StillReading(m, buf, p, next)
  {
    hide LegalRequest, StillReading, Reading, Next;
    if m.cs == 15 {
      BlankStep(m, buf, p, next, env);
    } else if m.cs == 16 {
      ValueLineStep(m, buf, p, next, env);
    } else if m.cs == 13 || m.cs == 14 || m.cs == 18 {
      NameLineStep(m, buf, p, next, env);
    } else {
      VersionStep(m, buf, p, next, env);
    }
  }

  lemma NoValue()
    ensures BareValue([])
  {
  }

  lemma CutHere(buf: Text, from: nat, p: nat)
    requires from <= p <= |buf|
    ensures Cut(buf, from, p - from) == buf[from..p]
  {
  }

  lemma NotAtFirst(cs: nat, c: Octet, env: Env)
    requires BehindTargetStart(cs) && Open(cs) && (cs == 33 ==> c != '/')
    ensures Next(cs, c, env) != 33 && Next(cs, c, env) <= FINAL
  {
  }

  /** From the target on, every part that is reported is legal. */
  lemma {:induction false} ReportedIsLegal(m: Parser, buf: Text, p: nat, env: Env)
    requires p <= |buf| && !env.relaxed && LegalRequest(m.req) && Reading(m, buf, p) && Open(m.cs)
    requires m.cs == 33 ==> p < |buf| && buf[p] != '/'
    ensures var r := Run(m, buf, p, env); r.Stopped? && LegalRequest(r.parser.req)
    decreases |buf| - p
  {
    hide Act, LegalRequest, Next;
    if p < |buf| {
      var next := Next(m.cs, buf[p], env);
      if next != ERROR {
        if 4 <= m.cs <= 18 { HeaderStep(m, buf, p, next, env); } else { TargetStep(m, buf, p, next, env); }
        assert next != 33 by { NotAtFirst(m.cs, buf[p], env); }
        if next != FINAL { ReportedIsLegal(Act(m, buf, p, next).(cs := next), buf, p + 1, env); }
      }
    }
  }

  // ------------------------------------------------------------ what comes back

  /** The path begins a target in origin form: with one '/', or with nothing before the query. */
  predicate OriginPath(path: Text) { path == [] || (path[0] == '/' && (|path| > 1 ==> path[1] != '/')) }

  lemma TargetBegins(r: Request, rest: Text)
    requires OriginPath(r.path)
    ensures var text := Target(r) + ([' '] + rest);
            text[0] in " ?#/" && (text[0] == '/' ==> |text| > 1 && text[1] != '/')
  {
    hide Target, FromQuery;
    TargetParts(r, rest);
    FromQueryBegins(r, rest);
    assert r.path == [] ==> r.path + FromQuery(r, rest) == FromQuery(r, rest);
  }

  /** The first character of the target, behind the method. */
  lemma FirstOfTarget(m: Parser, buf: Text, p: nat, env: Env) returns (after: Parser)
    requires m.cs == 3 && p < |buf| && buf[p] in " ?#/" && LegalRequest(m.req)
    ensures Run(m, buf, p, env) == Run(after, buf, p + 1, env)
    ensures LegalRequest(after.req) && Reading(after, buf, p + 1) && Open(after.cs)
    ensures after.cs == 33 <==> buf[p] == '/'
  {
    hide Run, LegalTable;
    Step(m, buf, p, env);
    after := Act(m, buf, p, Next(3, buf[p], env)).(cs := Next(3, buf[p], env));
    assert buf[p..p + 1] == [buf[p]];
  }

  /** Whatever follows its target, a request in origin form is read to legal parts only. */
  lemma ReadIsLegal(buf: Text, r: Request, rest: Text, env: Env)
    requires r.verb != MSEARCH && OriginPath(r.path) && !env.relaxed
    requires buf == MethodName(r.verb) + ([' '] + (Target(r) + ([' '] + rest)))
    ensures var o := Consumed(FRESH, buf, env); o.Stopped? && LegalRequest(o.parser.req)
  {
    hide Run, Reading, LegalRequest, MethodName, Target;
    var text := Target(r) + ([' '] + rest);
    TargetBegins(r, rest);
    var m := MethodSegment(FRESH, buf, r.verb, text, env);
    var q := |MethodName(r.verb)| + 1;
    First(buf, q, text);
    assert text[0] == '/' ==> buf[q + 1] == text[1] by { assert text[0] == '/' ==> buf[q..][1] == buf[q + 1]; }
    BlankIsLegal(r.verb);
    var after := FirstOfTarget(m, buf, q, env);
    ReportedIsLegal(after, buf, q + 1, env);
  }

  lemma BlankIsLegal(v: Method)
    ensures LegalRequest(BLANK.(verb := v))
  {
    assert LegalText([], false) && LegalText([], true);
  }

  /**
   The request line and the header lines are the same, up to the two lines that
   dump prints by itself: connection, and with a body content-length.
   */
  ghost predicate SameHead(r: Request, back: Request) {
    && back.verb == r.verb && back.version == r.version
    && back.path == r.path && back.query == r.query && back.fragment == r.fragment
    && forall k :: k in r.headers && k != CONNECTION ==>
                     k in back.headers && back.headers[k].key == r.headers[k].key
                     && ((k == CONTENT_LENGTH && r.body != []) || back.headers[k].value == r.headers[k].value)
  }

  /** What a printed request needs to come back as it was: nothing that is printed may read as something else. */
  ghost predicate Faithful(r: Request) {
    && r.verb != MSEARCH && (r.version == 0x10 || r.version == 0x11)
    && LegalPath(r.path) && LegalText(r.query, true) && LegalText(r.fragment, true)
    && forall k :: k in r.headers && k != CONNECTION ==>
                     LegalName(r.headers[k].key)
                         && ((k == CONTENT_LENGTH && r.body != []) || BareValue(r.headers[k].value))
  }

  /**
   Printed and parsed with a strict parser, a request in origin form comes back
   with the same head exactly if its parts are legal text.
   */
  lemma ReadBackIff(r: Request, keys: seq<Text>, tail: Text, env: Env)
    requires OriginPath(r.path) && !env.relaxed
    requires !r.websocket && Listed(r.headers, keys)
    requires r.body != [] && CONTENT_LENGTH in r.headers ==> LegalValue(r.headers[CONTENT_LENGTH].value)
    ensures var o := Consumed(FRESH, Head(r, keys) + tail, env);
            (o.Stopped? && o.parser.cs == FINAL && SameHead(r, o.parser.req)) <==> Faithful(r)
  {
    hide Run, Consumed, Head, LegalPath, LegalText, LegalName, Listed, HeadersRead, Expected, RequestRead;
    var buf := Head(r, keys) + tail;
    if Faithful(r) {
      FaithfulComesBack(r, keys, tail, env);
    } else if r.verb == MSEARCH {
      SearchStops(r, keys, tail, env);
    } else {
      var x := VersionText(r.version)
          + (Line(CONNECTION, CloseText(r.close)) + (HeaderLines(r.headers, keys, false) + (HeadEnd(r.body) + tail)));
      HeadThen(r, keys, tail);
      ReadIsLegal(buf, r, x, env);
    }
  }

  lemma FaithfulComesBack(r: Request, keys: seq<Text>, tail: Text, env: Env)
    requires Faithful(r) && !r.websocket && Listed(r.headers, keys)
    requires r.body != [] && CONTENT_LENGTH in r.headers ==> LegalValue(r.headers[CONTENT_LENGTH].value)
    ensures var o := Consumed(FRESH, Head(r, keys) + tail, env);
            o.Stopped? && o.parser.cs == FINAL && SameHead(r, o.parser.req)
  {
    hide Run, Consumed, Head, LegalPath, LegalText, LegalName, LegalValue, HeadersRead, Stripped, Listed;
    assert LegalLines(r.headers);
    HeadIsReadBack(r, keys, tail, env);
    forall k | k in r.headers && k != CONNECTION
      ensures k in HeadersRead(r, keys) && HeadersRead(r, keys)[k].key == r.headers[k].key
      ensures (k == CONTENT_LENGTH && r.body != []) || HeadersRead(r, keys)[k].value == r.headers[k].value
    {
      HeadersAreReadBack(r, keys, k);
      ValueIsExactIff(r.headers[k].value);
    }
  }

  lemma SearchStops(r: Request, keys: seq<Text>, tail: Text, env: Env)
    requires r.verb == MSEARCH
    ensures var o := Consumed(FRESH, Head(r, keys) + tail, env); o.Stopped? && o.parser.cs == ERROR
  {
    hide Head, Target, VersionText, Line, CloseText, HeaderLines, HeadEnd;
    HeadThen(r, keys, tail);
    var buf := Head(r, keys) + tail;
    assert buf[0] == MethodName(MSEARCH)[0] && buf[1] == MethodName(MSEARCH)[1];
    Step(FRESH, buf, 0, env);
  }

  // ---------------------------------------------------------------- origin form

  lemma {:induction false} OriginBehindTarget(cs: nat, s: Text, env: Env)
    requires BehindTargetStart(cs) && (cs == 33 && s != [] ==> s[0] != '/')
    ensures OriginForm(cs, s, env)
    decreases |s|
  {
    hide Next;
    if s != [] && Open(cs) {
      NextBehindTarget(cs, s[0], env);
      if Open(Next(cs, s[0], env)) { OriginBehindTarget(Next(cs, s[0], env), s[1..], env); }
    }
  }

  lemma NextBehindTarget(cs: nat, c: Octet, env: Env)
    requires BehindTargetStart(cs) && Open(cs) && (cs == 33 ==> c != '/')
    ensures SpelledOut(cs, c) && Next(cs, c, env) != 33
    ensures Next(cs, c, env) == ERROR || BehindTargetStart(Next(cs, c, env))
  {
  }

  lemma {:induction false} OriginLetters(k: nat, name: Text, rest: Text, env: Env)
    requires k + |name| <= 20 && (forall c :: c in name ==> UpperOrDigit(c)) && name + rest != []
    requires OriginForm(AfterLetters(k + |name|), rest, env)
    ensures OriginForm(AfterLetters(k), name + rest, env)
    decreases |name|
  {
    if name == [] {
      assert name + rest == rest;
    } else {
      assert (name + rest)[1..] == name[1..] + rest && name[0] in name;
      assert k + 1 + |name[1..]| == k + |name|;
      if name[1..] + rest == [] {
        assert OriginForm(AfterLetters(k + 1), [], env);
      } else {
        OriginLetters(k + 1, name[1..], rest, env);
      }
    }
  }

  /** A printed request is in origin form, whatever follows its target. */
  lemma PrintedIsOrigin(r: Request, rest: Text, env: Env)
    requires r.verb != MSEARCH && OriginPath(r.path)
    ensures OriginForm(START, MethodName(r.verb) + ([' '] + (Target(r) + ([' '] + rest))), env)
  {
    hide MethodName, Target;
    var name, text := MethodName(r.verb), Target(r) + ([' '] + rest);
    NameIsPlain(r.verb);
    TargetBegins(r, rest);
    assert OriginForm(3, text, env) by { OriginTarget(text, env); }
    var k := |name|;
    assert ([' '] + text)[1..] == text;
    assert OriginForm(AfterLetters(k), [' '] + text, env);
    OriginLetters(0, name, [' '] + text, env);
  }

  lemma OriginTarget(text: Text, env: Env)
    requires text != [] && text[0] in " ?#/" && (text[0] == '/' ==> |text| > 1 && text[1] != '/')
    ensures OriginForm(3, text, env)
  {
    OriginBehindTarget(Next(3, text[0], env), text[1..], env);
  }

  lemma LegalIsOrigin(path: Text)
    requires LegalPath(path)
    ensures OriginPath(path)
  {
  }

  /** So is the head of a request that is read back, with what follows it. */
  lemma HeadIsOrigin(r: Request, keys: seq<Text>, tail: Text, env: Env)
    requires Printable(r, keys)
    ensures OriginForm(START, Head(r, keys) + tail, env)
  {
    hide MethodName, Target, Head, OriginForm, LegalPath, OriginPath, LegalText;
    LegalIsOrigin(r.path);
    HeadThen(r, keys, tail);
    PrintedIsOrigin(r, VersionText(r.version) + (Line(CONNECTION, CloseText(r.close)) +
                       (HeaderLines(r.headers, keys, false) + (HeadEnd(r.body) + tail))), env);
  }
}
