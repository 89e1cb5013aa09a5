/**
 Parsing what dump prints.  The proof follows the text: each lemma takes the
 parser over one part of the request.
 */
module HttpRoundTrip {
  import opened Wrappers
  import opened UrlCodec
  import opened Forms
  import opened HttpMachine
  import opened HttpRequests
  import opened HttpParsers

  // ---------------------------------------------------------------- legal text

  /** Text of a path, or of a query or fragment, with complete escapes. */
  predicate LegalText(s: Text, query: bool)
    decreases |s|
  {
    s == []
    || (s[0] == '%' && |s| >= 3 && IsHexDigit(s[1]) && IsHexDigit(s[2]) && LegalText(s[3..], query))
    || ((PlainChar(s[0]) || (query && s[0] == '?')) && LegalText(s[1..], query))
  }

  /** Nothing, or one '/' and text that does not begin with another. */
  predicate LegalPath(s: Text) {
    s == [] || (s[0] == '/' && LegalText(s[1..], false) && (|s| > 1 ==> s[1] != '/'))
  }

  /** The same by the parser's own classes, which uri_relaxed extends. */
  predicate TextFor(s: Text, query: bool, env: Env)
    decreases |s|
  {
    s == []
    || (s[0] == '%' && |s| >= 3 && IsHexDigit(s[1]) && IsHexDigit(s[2]) && TextFor(s[3..], query, env))
    || ((PathChar(s[0], env) || (query && s[0] == '?')) && TextFor(s[1..], query, env))
  }

  predicate PathFor(s: Text, env: Env) {
    s == [] || (s[0] == '/' && TextFor(s[1..], false, env) && (|s| > 1 ==> s[1] != '/'))
  }

  lemma {:induction false} LegalIsFor(s: Text, query: bool, env: Env)
    ensures LegalText(s, query) ==> TextFor(s, query, env)
    ensures !env.relaxed ==> (LegalText(s, query) <==> TextFor(s, query, env))
    decreases |s|
  {
    if s != [] {
      if s[0] == '%' && |s| >= 3 { LegalIsFor(s[3..], query, env); }
      LegalIsFor(s[1..], query, env);
    }
  }

  predicate LineEnd(c: Octet) { c == '\r' || c == '\n' }

  /** Characters of names, not empty, and not beginning like the empty line: with LF, or with CR and LF. */
  predicate LegalName(s: Text) {
    s != [] && s[0] != '\n' && (|s| > 1 && s[0] == '\r' ==> s[1] != '\n') && forall c :: c in s ==> NameChar(c)
  }

  predicate LegalValue(s: Text) { forall c :: c in s ==> ValueChar(c) && !LineEnd(c) }

  predicate Blank(c: Octet) { c == ' ' || c == '\t' }

  /** A header value loses the blanks at its start. */
  function Stripped(s: Text): Text {
    if s != [] && Blank(s[0]) then Stripped(s[1..]) else s
  }

  // ------------------------------------------------------------------- one step

  lemma Step(m: Parser, buf: Text, p: nat, env: Env)
    requires p < |buf| && Open(Next(m.cs, buf[p], env)) && !Underflows(m, p, Next(m.cs, buf[p], env))
    ensures Run(m, buf, p, env)
            == Run(Act(m, buf, p, Next(m.cs, buf[p], env)).(cs := Next(m.cs, buf[p], env)), buf, p + 1, env)
  {
  }

  lemma First(buf: Text, p: nat, text: Text)
    requires p <= |buf| && buf[p..] == text && text != []
    ensures p < |buf| && buf[p] == text[0] && buf[p + 1..] == text[1..]
  {
    assert buf[p] == buf[p..][0];
    assert buf[p + 1..] == buf[p..][1..];
  }

  lemma CharsAt(buf: Text, p: nat, text: Text)
    requires p + |text| <= |buf| && buf[p..p + |text|] == text
    ensures forall i :: 0 <= i < |text| ==> buf[p + i] == text[i]
  {
    forall i | 0 <= i < |text| ensures buf[p + i] == text[i] {
      assert text[i] == buf[p..p + |text|][i];
    }
  }

  // --------------------------------------------------------------------- target

  /** A loop over text with escapes, in the states of path (26), query (30) and fragment (21). */
  lemma {:induction false} Through(m: Parser, buf: Text, p: nat, text: Text, rest: Text, env: Env)
    requires m.cs == 26 || m.cs == 30 || m.cs == 21
    requires p <= |buf| && buf[p..] == text + rest && TextFor(text, m.cs != 26, env)
    ensures p + |text| <= |buf| && buf[p + |text|..] == rest
    ensures Run(m, buf, p, env) == Run(m, buf, p + |text|, env)
    decreases |text|
  {
    hide Run;
    if text == [] {
      assert text + rest == rest;
    } else {
      First(buf, p, text + rest);
      Step(m, buf, p, env);
      assert (text + rest)[1..] == text[1..] + rest;
      if text[0] == '%' {
        Escape(m, buf, p, env);
        assert buf[p + 3..] == text[3..] + rest;
        Through(m, buf, p + 3, text[3..], rest, env);
      } else {
        Through(m, buf, p + 1, text[1..], rest, env);
      }
    }
  }

  lemma Escape(m: Parser, buf: Text, p: nat, env: Env)
    requires m.cs == 26 || m.cs == 30 || m.cs == 21
    requires p + 2 < |buf| && buf[p] == '%' && IsHexDigit(buf[p + 1]) && IsHexDigit(buf[p + 2])
    ensures Run(m, buf, p, env) == Run(m, buf, p + 3, env)
  {
    hide Run;
    Step(m, buf, p, env);
    Step(m.(cs := m.cs + 1), buf, p + 1, env);
    Step(m.(cs := m.cs + 2), buf, p + 2, env);
  }

  /** The character that begins legal text, or that ends it. */
  lemma Fits(text: Text, end: Octet, query: bool, env: Env)
    requires TextFor(text, query, env) && (end == ' ' || end == '#' || (!query && end == '?'))
    ensures var c := (text + [end])[0];
            && (!query ==> c != '/' ==> Open(Next(33, c, env)))
            && (query ==> Open(Next(29, c, env)))
            && (query && (text != [] || end == ' ') ==> Open(Next(20, c, env)))
  {
  }

  lemma SameStep(m: Parser, n: Parser, buf: Text, p: nat, env: Env)
    requires p < |buf| && Next(m.cs, buf[p], env) == Next(n.cs, buf[p], env)
    requires var next := Next(m.cs, buf[p], env);
             Open(next) && !Underflows(m, p, next) && !Underflows(n, p, next)
                 && Act(m, buf, p, next).(cs := next) == Act(n, buf, p, next).(cs := next)
    ensures Run(m, buf, p, env) == Run(n, buf, p, env)
  {
    hide Act, Next;
  }

  /** The loop that the first character of a path, query or fragment enters, with the mark that it sets. */
  function Entered(m: Parser, p: nat): Parser {
    if m.cs == 3 then m.(cs := 26, mark := p)
    else if m.cs == 33 then m.(cs := 26)
    else if m.cs == 29 then m.(cs := 30, queryStart := p)
    else m.(cs := 21, mark := p)
  }

  /** The first character of a path, query or fragment is taken as any other, and marks where it begins. */
  lemma Opening(m: Parser, buf: Text, p: nat, env: Env)
    requires p < |buf| && (m.cs == 3 || m.cs == 33 || m.cs == 29 || m.cs == 20)
    requires m.cs == 3 ==> buf[p] in " ?#"
    requires m.cs == 33 ==> buf[p] != '/'
    requires Open(Next(m.cs, buf[p], env))
    ensures Run(m, buf, p, env) == Run(Entered(m, p), buf, p, env)
  {
    hide Run;
    assert buf[p..p] == [];
    SameStep(m, Entered(m, p), buf, p, env);
  }

  /** The state behind the character that ends a path. */
  function Behind(c: Octet): nat { if c == ' ' then 4 else if c == '#' then 20 else 29 }

  lemma PathSegment(m: Parser, buf: Text, p: nat, path: Text, rest: Text, env: Env) returns (after: Parser)
    requires m.cs == 3 && p <= |buf| && buf[p..] == path + rest && PathFor(path, env)
    requires rest != [] && rest[0] in " ?#"
    ensures p + |path| < |buf| && buf[p + |path| + 1..] == rest[1..]
    ensures after.cs == Behind(rest[0])
    ensures after.error == m.error && after.req == m.req.(path := path)
    ensures Run(m, buf, p, env) == Run(after, buf, p + |path| + 1, env)
  {
    hide Run, TextFor;
    var q := p + |path|;
    First(buf, p, path + rest);
    var in26 := m.(cs := 26, mark := p);
    if path == [] {
      assert path + rest == rest;
      Opening(m, buf, p, env);
    } else {
      assert (path + rest)[1..] == path[1..] + rest;
      Step(m, buf, p, env);
      First(buf, p + 1, path[1..] + rest);
      Fits(path[1..], rest[0], false, env);
      Opening(m.(cs := 33, mark := p), buf, p + 1, env);
      Through(in26, buf, p + 1, path[1..], rest, env);
    }
    First(buf, q, rest);
    assert Cut(buf, p, q - p) == path by { CutIs(buf, p, path, rest); }
    Step(in26, buf, q, env);
    after := Act(in26, buf, q, Next(26, buf[q], env)).(cs := Next(26, buf[q], env));
  }

  lemma CutIs(buf: Text, p: nat, text: Text, rest: Text)
    requires p <= |buf| && buf[p..] == text + rest
    ensures Cut(buf, p, |text|) == text
  {
    assert buf[p..p + |text|] == buf[p..][..|text|];
  }

  lemma QuerySegment(m: Parser, buf: Text, p: nat, query: Text, rest: Text, env: Env) returns (after: Parser)
    requires m.cs == 29 && p <= |buf| && buf[p..] == query + rest && TextFor(query, true, env)
    requires rest != [] && rest[0] in " #"
    ensures p + |query| < |buf| && buf[p + |query| + 1..] == rest[1..]
    ensures after.cs == (if rest[0] == ' ' then 4 else 20)
    ensures after.error == m.error && after.req == m.req.(query := query)
    ensures Run(m, buf, p, env) == Run(after, buf, p + |query| + 1, env)
  {
    hide Run, TextFor;
    var q := p + |query|;
    var in30 := m.(cs := 30, queryStart := p);
    First(buf, p, query + rest);
    Fits(query, rest[0], true, env);
    Opening(m, buf, p, env);
    Through(in30, buf, p, query, rest, env);
    First(buf, q, rest);
    assert Cut(buf, p, q - p) == query by { CutIs(buf, p, query, rest); }
    Step(in30, buf, q, env);
    after := Act(in30, buf, q, Next(30, buf[q], env)).(cs := Next(30, buf[q], env));
  }

  lemma FragmentSegment(m: Parser, buf: Text, p: nat, fragment: Text, rest: Text, env: Env) returns (after: Parser)
    requires m.cs == 20 && p <= |buf| && buf[p..] == fragment + rest && TextFor(fragment, true, env)
    requires rest != [] && rest[0] == ' '
    ensures p + |fragment| < |buf| && buf[p + |fragment| + 1..] == rest[1..]
    ensures after.cs == 4 && after.error == m.error && after.req == m.req.(fragment := fragment)
    ensures Run(m, buf, p, env) == Run(after, buf, p + |fragment| + 1, env)
  {
    hide Run, TextFor;
    var q := p + |fragment|;
    var in21 := m.(cs := 21, mark := p);
    First(buf, p, fragment + rest);
    Fits(fragment, rest[0], true, env);
    Opening(m, buf, p, env);
    Through(in21, buf, p, fragment, rest, env);
    First(buf, q, rest);
    assert Cut(buf, p, q - p) == fragment by { CutIs(buf, p, fragment, rest); }
    Step(in21, buf, q, env);
    after := Act(in21, buf, q, 4).(cs := 4);
  }

  /** The text from a query on, and from a fragment on. */
  function FromFragment(r: Request, rest: Text): Text { Part('#', r.fragment) + ([' '] + rest) }

  function FromQuery(r: Request, rest: Text): Text { Part('?', r.query) + FromFragment(r, rest) }

  function PartLength(s: Text): nat { if s == [] then 0 else |s| + 1 }

  lemma FragmentPart(m: Parser, buf: Text, p: nat, r: Request, rest: Text, env: Env) returns (after: Parser)
    requires LegalText(r.fragment, true) && m.cs == Behind(FromFragment(r, rest)[0]) && m.req.fragment == []
    requires p <= |buf| && buf[p..] == FromFragment(r, rest)[1..]
    ensures var q := p + PartLength(r.fragment);
            q <= |buf| && buf[q..] == rest && Run(m, buf, p, env) == Run(after, buf, q, env)
    ensures after.cs == 4 && after.error == m.error && after.req == m.req.(fragment := r.fragment)
  {
    hide Run, LegalText, TextFor, Part;
    PartBegins('#', r.fragment, [' '] + rest);
    if r.fragment == [] {
      after := m;
    } else {
      LegalIsFor(r.fragment, true, env);
      after := FragmentSegment(m, buf, p, r.fragment, [' '] + rest, env);
    }
  }

  lemma QueryPart(m: Parser, buf: Text, p: nat, r: Request, rest: Text, env: Env) returns (after: Parser)
    requires LegalText(r.query, true) && m.cs == Behind(FromQuery(r, rest)[0]) && m.req.query == []
    requires p <= |buf| && buf[p..] == FromQuery(r, rest)[1..]
    ensures var q := p + PartLength(r.query);
            q <= |buf| && buf[q..] == FromFragment(r, rest)[1..] && Run(m, buf, p, env) == Run(after, buf, q, env)
    ensures after.cs == Behind(FromFragment(r, rest)[0]) && after.error == m.error
    ensures after.req == m.req.(query := r.query)
  {
    hide Run, LegalText, TextFor, Part;
    PartBegins('#', r.fragment, [' '] + rest);
    PartBegins('?', r.query, FromFragment(r, rest));
    if r.query == [] {
      after := m;
    } else {
      LegalIsFor(r.query, true, env);
      after := QuerySegment(m, buf, p, r.query, FromFragment(r, rest), env);
    }
  }

  /** Path, query and fragment, up to the blank before the version. */
  lemma TargetSegment(m: Parser, buf: Text, p: nat, r: Request, rest: Text, env: Env) returns (after: Parser)
    requires m.cs == 3 && m.req.query == [] && m.req.fragment == []
    requires LegalPath(r.path) && LegalText(r.query, true) && LegalText(r.fragment, true)
    requires p <= |buf| && buf[p..] == Target(r) + ([' '] + rest)
    ensures var q := p + |Target(r)| + 1;
            q <= |buf| && buf[q..] == rest && Run(m, buf, p, env) == Run(after, buf, q, env)
    ensures after.cs == 4 && after.error == m.error
    ensures after.req == m.req.(path := r.path, query := r.query, fragment := r.fragment)
  {
    hide Run, LegalText, LegalPath, PathFor, TextFor, Target, FromQuery, FromFragment, PartLength;
    TargetParts(r, rest);
    FromQueryBegins(r, rest);
    var q := p + |r.path| + 1;
    assert PathFor(r.path, env) by { PathIsFor(r.path, env); }
    after := PathSegment(m, buf, p, r.path, FromQuery(r, rest), env);
    after := QueryPart(after, buf, q, r, rest, env);
    after := FragmentPart(after, buf, q + PartLength(r.query), r, rest, env);
  }

  lemma PathIsFor(path: Text, env: Env)
    requires LegalPath(path)
    ensures PathFor(path, env)
  {
    if path != [] { LegalIsFor(path[1..], false, env); }
  }

  lemma FromQueryBegins(r: Request, rest: Text)
    ensures FromQuery(r, rest) != [] && FromQuery(r, rest)[0] in " ?#"
  {
    hide Part;
    PartBegins('#', r.fragment, [' '] + rest);
    PartBegins('?', r.query, FromFragment(r, rest));
  }

  lemma PartBegins(mark: Octet, s: Text, rest: Text)
    requires rest != []
    ensures var all := Part(mark, s) + rest;
            if s == [] then all == rest else all[0] == mark && all[1..] == s + rest
  {
    if s != [] {
      assert ([mark] + s) + rest == [mark] + (s + rest);
    }
  }

  lemma TargetParts(r: Request, rest: Text)
    ensures Target(r) + ([' '] + rest) == r.path + FromQuery(r, rest)
    ensures |Target(r)| == |r.path| + PartLength(r.query) + PartLength(r.fragment)
  {
    hide Part;
    var q, f, e := Part('?', r.query), Part('#', r.fragment), [' '] + rest;
    assert (r.path + (q + f)) + e == r.path + (q + (f + e));
    LengthOfPart('?', r.query);
    LengthOfPart('#', r.fragment);
  }

  lemma LengthOfPart(mark: Octet, s: Text)
    ensures |Part(mark, s)| == PartLength(s)
  {
  }

  // --------------------------------------------------------------------- method

  /** The state after `k` letters of a method. */
  function AfterLetters(k: nat): nat { if k == 0 then START else if k == 1 then 2 else 173 + k }

  lemma {:induction false} Letters(m: Parser, buf: Text, p: nat, k: nat, name: Text, rest: Text, env: Env)
    requires 1 <= k && k + |name| <= 20 && m.cs == AfterLetters(k)
    requires p <= |buf| && buf[p..] == name + rest && forall c :: c in name ==> UpperOrDigit(c)
    ensures p + |name| <= |buf| && buf[p + |name|..] == rest
    ensures Run(m, buf, p, env) == Run(m.(cs := AfterLetters(k + |name|)), buf, p + |name|, env)
    decreases |name|
  {
    hide Run;
    if name == [] {
      assert name + rest == rest;
    } else {
      First(buf, p, name + rest);
      assert (name + rest)[1..] == name[1..] + rest;
      assert name[0] in name && Next(m.cs, buf[p], env) == AfterLetters(k + 1);
      assert k + 1 + |name[1..]| == k + |name|;
      Step(m, buf, p, env);
      Letters(m.(cs := AfterLetters(k + 1)), buf, p + 1, k + 1, name[1..], rest, env);
    }
  }

  lemma NameLength(v: Method)
    ensures 3 <= |MethodName(v)| <= 20
  {
  }

  lemma NameLetters(v: Method)
    requires v != MSEARCH
    ensures forall c :: c in MethodName(v) ==> UpperOrDigit(c)
  {
  }

  lemma NameIsPlain(v: Method)
    requires v != MSEARCH
    ensures 3 <= |MethodName(v)| <= 20 && forall c :: c in MethodName(v) ==> UpperOrDigit(c)
  {
    hide MethodName, UpperOrDigit;
    NameLength(v);
    NameLetters(v);
  }

  lemma MethodSegment(m: Parser, buf: Text, v: Method, rest: Text, env: Env) returns (after: Parser)
    requires m.cs == START && v != MSEARCH && buf == MethodName(v) + ([' '] + rest)
    ensures var q := |MethodName(v)| + 1;
            q <= |buf| && buf[q..] == rest && Run(m, buf, 0, env) == Run(after, buf, q, env)
    ensures after.cs == 3 && after.error == m.error && after.req == m.req.(verb := v)
  {
    hide Run, CharsToMethod, MethodName;
    var name := MethodName(v);
    NameIsPlain(v);
    assert buf[0..] == buf;
    First(buf, 0, buf);
    assert buf[0] == name[0] && name[0] in name;
    Step(m, buf, 0, env);
    var in2 := m.(cs := 2, mark := 0);
    assert buf[1..] == name[1..] + ([' '] + rest);
    Letters(in2, buf, 1, 1, name[1..], [' '] + rest, env);
    var q := |name|;
    First(buf, q, [' '] + rest);
    assert StartsWith(buf, name);
    MethodRoundTrip(v, buf);
    assert Cut(buf, 0, |buf|) == buf;
    var last := in2.(cs := AfterLetters(q));
    Step(last, buf, q, env);
    after := Act(last, buf, q, 3).(cs := 3);
  }

  // -------------------------------------------------------------------- version

  function VersionDigit(v: nat): Octet { if v == 0x10 then '0' else '1' }

  lemma VersionTextIs(v: nat)
    requires v == 0x10 || v == 0x11
    ensures VersionText(v) == ['H', 'T', 'T', 'P', '/', '1', '.', VersionDigit(v), '\r', '\n']
  {
    assert v / 16 == 1 && v % 16 == v - 16;
    assert Decimal(1) == ['1'] && Decimal(v % 16) == [VersionDigit(v)];
  }

  /** A line ends with LF, or with CR and LF. */
  predicate EndsLine(end: Text) { end == "\n" || end == "\r\n" }

  lemma VersionLine(m: Parser, buf: Text, p: nat, v: nat, end: Text, rest: Text, env: Env) returns (after: Parser)
    requires m.cs == 4 && (v == 0x10 || v == 0x11) && EndsLine(end)
    requires p <= |buf| && buf[p..] == ("HTTP/1." + [VersionDigit(v)]) + (end + rest)
    ensures p + 8 + |end| <= |buf| && buf[p + 8 + |end|..] == rest
    ensures after.cs == 13 && after.error == m.error && after.req == m.req.(version := v)
    ensures Run(m, buf, p, env) == Run(after, buf, p + 8 + |end|, env)
  {
    hide Run, EndsLine;
    var text: Text := "HTTP/1." + [VersionDigit(v)];
    Peel(buf, p, text, end + rest);
    Peel(buf, p + 8, end, rest);
    CharsAt(buf, p, text);
    assert buf[p..p + 7] == text[..7];
    Literal(m, buf, p, env);
    var in12 := m.(cs := 12, mark := p);
    assert buf[p + 7] == VersionDigit(v);
    Step(m.(cs := 11, mark := p), buf, p + 7, env);
    assert Cut(buf, p, 8) == text;
    VersionIsKnown(in12, v);
    after := in12.(cs := 13, req := m.req.(version := v));
    LineEnds(in12, after, buf, p + 8, end, env);
  }

  lemma VersionIsKnown(m: Parser, v: nat)
    requires v == 0x10 || v == 0x11
    ensures OnVersion(m, "HTTP/1." + [VersionDigit(v)]) == m.(req := m.req.(version := v))
  {
    var text: Text := "HTTP/1." + [VersionDigit(v)];
    assert text[7] == VersionDigit(v);
  }

  /** The end of a version or of a value: with or without a CR, its transition does the same. */
  lemma LineEnds(m: Parser, after: Parser, buf: Text, p: nat, end: Text, env: Env)
    requires (m.cs == 12 || m.cs == 16) && EndsLine(end) && p + |end| <= |buf| && buf[p..p + |end|] == end
    requires after.cs == 13 && Act(m, buf, p, 13) == after.(cs := m.cs)
    ensures Run(m, buf, p, env) == Run(after, buf, p + |end|, env)
  {
    hide Run;
    CharsAt(buf, p, end);
    assert buf[p] == end[0] && (|end| > 1 ==> buf[p + 1] == end[1]);
    Step(m, buf, p, env);
    if |end| > 1 { Step(after.(cs := 17), buf, p + 1, env); }
  }

  lemma VersionSegment(m: Parser, buf: Text, p: nat, v: nat, rest: Text, env: Env) returns (after: Parser)
    requires m.cs == 4 && (v == 0x10 || v == 0x11)
    requires p <= |buf| && buf[p..] == VersionText(v) + rest
    ensures p + 10 <= |buf| && |VersionText(v)| == 10 && buf[p + 10..] == rest
    ensures after.cs == 13 && after.error == m.error && after.req == m.req.(version := v)
    ensures Run(m, buf, p, env) == Run(after, buf, p + 10, env)
  {
    hide Run, VersionText;
    VersionTextIs(v);
    var text: Text, end: Text := "HTTP/1." + [VersionDigit(v)], "\r\n";
    assert VersionText(v) + rest == text + (end + rest);
    after := VersionLine(m, buf, p, v, end, rest, env);
  }

  lemma Literal(m: Parser, buf: Text, p: nat, env: Env)
    requires m.cs == 4 && p + 7 <= |buf| && buf[p..p + 7] == "HTTP/1."
    ensures Run(m, buf, p, env) == Run(m.(cs := 11, mark := p), buf, p + 7, env)
  {
    hide Run;
    var text := buf[p..p + 7];
    assert buf[p] == text[0] && buf[p + 1] == text[1] && buf[p + 2] == text[2] && buf[p + 3] == text[3];
    assert buf[p + 4] == text[4] && buf[p + 5] == text[5] && buf[p + 6] == text[6];
    Step(m, buf, p, env);
    LiteralTail(m.(cs := 5, mark := p), buf, p + 1, env);
  }

  lemma LiteralTail(m: Parser, buf: Text, p: nat, env: Env)
    requires 5 <= m.cs <= 10 && p + (11 - m.cs) <= |buf| && buf[p..p + (11 - m.cs)] == "TTP/1."[m.cs - 5..]
    ensures Run(m, buf, p, env) == Run(m.(cs := 11), buf, p + (11 - m.cs), env)
    decreases 11 - m.cs
  {
    hide Run;
    var text := buf[p..p + (11 - m.cs)];
    assert buf[p] == text[0] == "TTP/1."[m.cs - 5];
    assert buf[p + 1..p + (11 - m.cs)] == text[1..];
    Step(m, buf, p, env);
    if m.cs < 10 {
      LiteralTail(m.(cs := m.cs + 1), buf, p + 1, env);
    }
  }

  // --------------------------------------------------------------------- header

  lemma {:induction false} NameTail(m: Parser, buf: Text, p: nat, name: Text, rest: Text, env: Env)
    requires m.cs == 14 && p <= |buf| && buf[p..] == name + rest && forall c :: c in name ==> NameChar(c)
    ensures p + |name| <= |buf| && buf[p + |name|..] == rest
    ensures Run(m, buf, p, env) == Run(m, buf, p + |name|, env)
    decreases |name|
  {
    hide Run;
    if name == [] {
      assert name + rest == rest;
    } else {
      First(buf, p, name + rest);
      assert (name + rest)[1..] == name[1..] + rest;
      assert name[0] in name;
      Step(m, buf, p, env);
      NameTail(m, buf, p + 1, name[1..], rest, env);
    }
  }

  lemma {:induction false} ValueTail(m: Parser, buf: Text, p: nat, value: Text, rest: Text, env: Env)
    requires m.cs == 16 && p <= |buf| && buf[p..] == value + rest && LegalValue(value)
    ensures p + |value| <= |buf| && buf[p + |value|..] == rest
    ensures Run(m, buf, p, env) == Run(m, buf, p + |value|, env)
    decreases |value|
  {
    hide Run;
    if value == [] {
      assert value + rest == rest;
    } else {
      First(buf, p, value + rest);
      assert (value + rest)[1..] == value[1..] + rest;
      assert value[0] in value;
      Step(m, buf, p, env);
      ValueTail(m, buf, p + 1, value[1..], rest, env);
    }
  }

  /** The blanks before a value are skipped, up to where it begins: `at`. */
  lemma {:induction false} Blanks(m: Parser, buf: Text, p: nat, value: Text, rest: Text, env: Env) returns (at: nat)
    requires m.cs == 15 && p <= |buf| && buf[p..] == value + rest && LegalValue(value)
    requires rest != [] && LineEnd(rest[0])
    ensures p <= at < |buf| && buf[at..] == Stripped(value) + rest && at + |Stripped(value)| == p + |value|
    ensures Run(m, buf, p, env) == Run(m.(cs := 16, mark := at), buf, at, env)
    decreases |value|
  {
    hide Run;
    First(buf, p, value + rest);
    if value != [] && Blank(value[0]) {
      assert (value + rest)[1..] == value[1..] + rest;
      Step(m, buf, p, env);
      at := Blanks(m.(mark := p), buf, p + 1, value[1..], rest, env);
    } else {
      at := p;
      assert value != [] ==> value[0] in value;
      assert value == [] ==> value + rest == rest;
      assert buf[p..p] == [];
      Begins(m, buf, p, env);
    }
  }

  lemma Begins(m: Parser, buf: Text, p: nat, env: Env)
    requires m.cs == 15 && p < |buf| && !Blank(buf[p]) && ValueChar(buf[p])
    ensures Run(m, buf, p, env) == Run(m.(cs := 16, mark := p), buf, p, env)
  {
    assert buf[p..p] == [];
  }

  /** The rest of a value and the end of its line. */
  lemma LineTail(m: Parser, buf: Text, at: nat, name: Text, v: Text, end: Text, rest: Text, env: Env)
    returns (after: Parser)
    requires m.cs == 16 && m.mark == at && at <= |buf| && EndsLine(end) && buf[at..] == v + (end + rest)
    requires LegalValue(v) && name != [] && Cut(buf, m.fieldStart, m.fieldLen) == name
    ensures at + |v| + |end| <= |buf| && buf[at + |v| + |end|..] == rest
    ensures after.cs == 13 && after.error == m.error && after.req == m.req.(headers := Assign(m.req.headers, name, v))
    ensures Run(m, buf, at, env) == Run(after, buf, at + |v| + |end|, env)
  {
    hide Run, Assign, LegalValue;
    ValueTail(m, buf, at, v, end + rest, env);
    var q := at + |v|;
    Peel(buf, q, end, rest);
    assert Cut(buf, at, q - at) == v by { CutIs(buf, at, v, end + rest); }
    after := OnField(m, name, v).(cs := 13);
    LineEnds(m, after, buf, q, end, env);
  }

  /** One header field: its name, the colon, its value, the end of the line. */
  lemma FieldSegment(m: Parser, buf: Text, p: nat, name: Text, value: Text, end: Text, rest: Text, env: Env)
    returns (after: Parser)
    requires m.cs == 13 && LegalName(name) && LegalValue(value) && EndsLine(end)
    requires p <= |buf| && buf[p..] == name + ([':'] + (value + (end + rest)))
    ensures var q := p + |name| + 1 + |value| + |end|;
            q <= |buf| && buf[q..] == rest && Run(m, buf, p, env) == Run(after, buf, q, env)
    ensures after.cs == 13 && after.error == m.error
    ensures after.req == m.req.(headers := Assign(m.req.headers, name, Stripped(value)))
  {
    hide Run, Assign, Stripped, LegalValue, Cut;
    NameSegment(m, buf, p, name, value + (end + rest), env);
    var in15 := m.(cs := 15, fieldStart := p, fieldLen := |name|);
    assert LineEnd((end + rest)[0]);
    var at := Blanks(in15, buf, p + |name| + 1, value, end + rest, env);
    StrippedIsLegal(value);
    after := LineTail(in15.(cs := 16, mark := at), buf, at, name, Stripped(value), end, rest, env);
  }

  /** One header line as dump prints it. */
  lemma LineSegment(m: Parser, buf: Text, p: nat, name: Text, value: Text, rest: Text, env: Env) returns (after: Parser)
    requires m.cs == 13 && LegalName(name) && LegalValue(value)
    requires p <= |buf| && buf[p..] == Line(name, value) + rest
    ensures var q := p + |Line(name, value)|;
            q <= |buf| && buf[q..] == rest && Run(m, buf, p, env) == Run(after, buf, q, env)
    ensures after.cs == 13 && after.error == m.error
    ensures after.req == m.req.(headers := Assign(m.req.headers, name, Stripped(value)))
  {
    hide Run, Assign, Line;
    LineParts(name, value, rest);
    var padded := [' '] + value;
    assert padded[1..] == value;
    after := FieldSegment(m, buf, p, name, padded, "\r\n", rest, env);
  }

  lemma {:induction false} StrippedIsLegal(value: Text)
    requires LegalValue(value)
    ensures LegalValue(Stripped(value))
  {
    if value != [] && Blank(value[0]) { StrippedIsLegal(value[1..]); }
  }

  /** Name and colon. */
  lemma NameSegment(m: Parser, buf: Text, p: nat, name: Text, rest: Text, env: Env)
    requires m.cs == 13 && LegalName(name) && p <= |buf| && buf[p..] == name + ([':'] + rest)
    ensures p + |name| + 1 <= |buf| && buf[p + |name| + 1..] == rest && Cut(buf, p, |name|) == name
    ensures Run(m, buf, p, env) == Run(m.(cs := 15, fieldStart := p, fieldLen := |name|), buf, p + |name| + 1, env)
  {
    hide Run, Next, Act;
    var tail := [(':' as Octet)] + rest;
    CutIs(buf, p, name, tail);
    NameHead(m, buf, p, name, tail, env);
    NameTail(m.(cs := 14, fieldStart := p), buf, p + 1, name[1..], tail, env);
    Colon(m.(cs := 14, fieldStart := p), buf, p + |name|, rest, env);
  }

  /** The first character of a name; a CR might have begun the empty line. */
  lemma NameHead(m: Parser, buf: Text, p: nat, name: Text, tail: Text, env: Env)
    requires m.cs == 13 && LegalName(name) && p <= |buf| && buf[p..] == name + tail && tail != [] && tail[0] == ':'
    ensures p < |buf| && buf[p + 1..] == name[1..] + tail
    ensures Run(m, buf, p, env) == Run(m.(cs := 14, fieldStart := p), buf, p + 1, env)
  {
    hide Run;
    First(buf, p, name + tail);
    assert (name + tail)[1..] == name[1..] + tail;
    assert name[0] in name;
    Step(m, buf, p, env);
    if name[0] == '\r' {
      First(buf, p + 1, name[1..] + tail);
      assert |name| > 1 ==> name[1] in name;
      SameStep(m.(cs := 18, fieldStart := p), m.(cs := 14, fieldStart := p), buf, p + 1, env);
    }
  }

  lemma Colon(m: Parser, buf: Text, p: nat, rest: Text, env: Env)
    requires m.cs == 14 && m.fieldStart <= p <= |buf| && buf[p..] == [':'] + rest
    ensures p + 1 <= |buf| && buf[p + 1..] == rest
    ensures Run(m, buf, p, env) == Run(m.(cs := 15, fieldLen := p - m.fieldStart), buf, p + 1, env)
  {
    hide Run;
    First(buf, p, [':'] + rest);
    Step(m, buf, p, env);
  }

  lemma LineParts(name: Text, value: Text, rest: Text)
    ensures Line(name, value) + rest == name + ([':'] + (([' '] + value) + ("\r\n" + rest)))
    ensures |Line(name, value)| == |name| + |value| + 4
  {
    assert CRLF == "\r\n";
    assert Line(name, value) == name + ([':', ' '] + (value + CRLF));
    assert (name + ([':', ' '] + (value + CRLF))) + rest == name + ([':'] + (([' '] + value) + (CRLF + rest)));
  }

  /** The empty line: the parser is finished, just behind it. */
  lemma EndSegment(m: Parser, buf: Text, p: nat, end: Text, body: Text, env: Env)
    requires m.cs == 13 && p <= |buf| && EndsLine(end) && buf[p..] == end + body
    ensures p + |end| <= |buf| && buf[p + |end|..] == body
    ensures Run(m, buf, p, env) == Stopped(m.(cs := FINAL, fieldStart := p, bodyStart := p + |end|), p + |end|)
  {
    Peel(buf, p, end, body);
    CharsAt(buf, p, end);
    assert buf[p] == end[0] && (|end| > 1 ==> buf[p + 1] == end[1]);
    if |end| > 1 { Step(m, buf, p, env); }
  }

  // ------------------------------------------------------------------ round trip

  /** The map is keyed by its folded keys, and `keys` lists them once each. */
  ghost predicate Listed(headers: Table, keys: seq<Text>) {
    && (forall k :: k in headers <==> k in keys)
    && (forall i, j :: 0 <= i < j < |keys| ==> keys[i] != keys[j])
    && (forall k :: k in headers ==> Fold(headers[k].key) == k)
  }

  /** The header lines that are printed are legal; a connection header is not printed. */
  ghost predicate LegalLines(headers: Table) {
    forall k :: k in headers && k != CONNECTION ==> LegalName(headers[k].key) && LegalValue(headers[k].value)
  }

  /** The requests whose text is read back. */
  ghost predicate Printable(r: Request, keys: seq<Text>) {
    && r.verb != MSEARCH && (r.version == 0x10 || r.version == 0x11) && !r.websocket
    && LegalPath(r.path) && LegalText(r.query, true) && LegalText(r.fragment, true)
    && Listed(r.headers, keys)
    && LegalLines(r.headers)
  }

  /** What the header lines store, one after the other. */
  function Stored(m: Table, headers: Table, keys: seq<Text>): Table
    decreases |keys|
  {
    if keys == [] then m
    else if keys[0] !in headers || keys[0] == CONNECTION then Stored(m, headers, keys[1..])
    else Stored(Assign(m, headers[keys[0]].key, Stripped(headers[keys[0]].value)), headers, keys[1..])
  }

  lemma {:induction false} LinesSegment(m: Parser, buf: Text, p: nat, headers: Table, keys: seq<Text>, rest: Text,
          env: Env)
    returns (after: Parser)
    requires m.cs == 13 && LegalLines(headers)
    requires p <= |buf| && buf[p..] == HeaderLines(headers, keys, false) + rest
    ensures var q := p + |HeaderLines(headers, keys, false)|;
            q <= |buf| && buf[q..] == rest && Run(m, buf, p, env) == Run(after, buf, q, env)
    ensures after.cs == 13 && after.error == m.error
    ensures after.req == m.req.(headers := Stored(m.req.headers, headers, keys))
    decreases |keys|
  {
    hide Run, Assign, Stripped, LegalName, LegalValue, Line;
    if keys == [] {
      assert HeaderLines(headers, keys, false) + rest == rest;
      after := m;
    } else {
      var lines := HeaderLines(headers, keys[1..], false);
      if keys[0] !in headers || keys[0] == CONNECTION {
        after := LinesSegment(m, buf, p, headers, keys[1..], rest, env);
      } else {
        var b := headers[keys[0]];
        assert (Line(b.key, b.value) + lines) + rest == Line(b.key, b.value) + (lines + rest);
        after := LineSegment(m, buf, p, b.key, b.value, lines + rest, env);
        after := LinesSegment(after, buf, p + |Line(b.key, b.value)|, headers, keys[1..], rest, env);
      }
    }
  }

  function WithLength(m: Table, body: Text): Table {
    if body == [] then m else Assign(m, CONTENT_LENGTH, Decimal(|body|))
  }

  lemma {:induction false} NoBlanks(s: Text)
    requires s == [] || !Blank(s[0])
    ensures Stripped(s) == s
  {
  }

  lemma FixedLinesAreLegal(close: bool, n: nat)
    ensures LegalName(CONNECTION) && LegalName(CONTENT_LENGTH)
    ensures LegalValue(CloseText(close)) && Stripped(CloseText(close)) == CloseText(close)
    ensures LegalValue(Decimal(n)) && Stripped(Decimal(n)) == Decimal(n)
  {
    assert Decimal(n)[0] in Decimal(n);
    NoBlanks(Decimal(n));
    NoBlanks(CloseText(close));
  }

  /** The content-length line, if there is a body, and the empty line. */
  function HeadEnd(body: Text): Text {
    if body == [] then CRLF else Line(CONTENT_LENGTH, Decimal(|body|)) + CRLF
  }

  /** The text of a request up to its body. */
  function Head(r: Request, keys: seq<Text>): Text {
    MethodName(r.verb) + ([' '] + (Target(r) + ([' '] + (VersionText(r.version)
      + (Line(CONNECTION, CloseText(r.close)) + (HeaderLines(r.headers, keys, false) + HeadEnd(r.body)))))))
  }

  lemma DumpIs(r: Request, keys: seq<Text>)
    requires !r.websocket
    ensures Dump(r, keys) == Head(r, keys) + r.body
  {
    hide MethodName, Target, VersionText, Line, CloseText, HeaderLines;
    var c, h := Line(CONNECTION, CloseText(r.close)), HeaderLines(r.headers, keys, false);
    assert BodyPart(r.body) == HeadEnd(r.body) + r.body;
    HeadThen(r, keys, r.body);
  }

  /** The head and what follows, as the parser meets it. */
  lemma HeadThen(r: Request, keys: seq<Text>, tail: Text)
    ensures Head(r, keys) + tail
         == MethodName(r.verb) + ([' '] + (Target(r) + ([' '] + (VersionText(r.version)
              + (Line(CONNECTION, CloseText(r.close))
                  + (HeaderLines(r.headers, keys, false) + (HeadEnd(r.body) + tail)))))))
  {
    hide MethodName, Target, VersionText, Line, CloseText, HeaderLines, HeadEnd;
    var v, c, h, e := VersionText(r.version), Line(CONNECTION, CloseText(r.close)),
        HeaderLines(r.headers, keys, false), HeadEnd(r.body);
    var x3 := h + e;
    var x2 := c + x3;
    var x1 := v + x2;
    var x0 := Target(r) + ([' '] + x1);
    Regroup(MethodName(r.verb), [' '] + x0, tail);
    Regroup([' '], x0, tail);
    Regroup(Target(r), [' '] + x1, tail);
    Regroup([' '], x1, tail);
    Regroup(v, x2, tail);
    Regroup(c, x3, tail);
    Regroup(h, e, tail);
  }

  lemma EndOfHead(m: Parser, buf: Text, p: nat, body: Text, tail: Text, env: Env) returns (after: Parser)
    requires m.cs == 13 && p <= |buf| && buf[p..] == HeadEnd(body) + tail
    ensures var q := p + |HeadEnd(body)|;
            && q <= |buf| && buf[q..] == tail && Run(m, buf, p, env) == Stopped(after, q) && after.bodyStart == q
    ensures after.cs == FINAL && after.error == m.error
    ensures after.req == m.req.(headers := WithLength(m.req.headers, body))
  {
    hide Run, Assign, Line, Stripped, LegalName, LegalValue, Decimal;
    var q := p;
    after := m;
    if body != [] {
      var line := Line(CONTENT_LENGTH, Decimal(|body|));
      FixedLinesAreLegal(true, |body|);
      assert (line + CRLF) + tail == line + (CRLF + tail);
      after := LineSegment(m, buf, p, CONTENT_LENGTH, Decimal(|body|), CRLF + tail, env);
      q := p + |line|;
    }
    EndSegment(after, buf, q, CRLF, tail, env);
    after := after.(cs := FINAL, fieldStart := q, bodyStart := q + 2);
  }

  /** The header map after parsing. */
  function HeadersRead(r: Request, keys: seq<Text>): Table {
    WithLength(Stored(Assign(map[], CONNECTION, CloseText(r.close)), r.headers, keys), r.body)
  }

  /** The request after parsing, before its body is set. */
  function RequestRead(r: Request, keys: seq<Text>): Request {
    BLANK.(verb := r.verb, version := r.version, path := r.path, query := r.query, fragment := r.fragment,
           headers := HeadersRead(r, keys))
  }

  /** The request line. */
  lemma StartLineSegment(buf: Text, r: Request, rest: Text, env: Env) returns (after: Parser, q: nat)
    requires r.verb != MSEARCH && (r.version == 0x10 || r.version == 0x11)
    requires LegalPath(r.path) && LegalText(r.query, true) && LegalText(r.fragment, true)
    requires buf == MethodName(r.verb) + ([' '] + (Target(r) + ([' '] + (VersionText(r.version) + rest))))
    ensures q <= |buf| && buf[q..] == rest && Run(FRESH, buf, 0, env) == Run(after, buf, q, env)
    ensures after.cs == 13 && after.error == 0
    ensures after.req
            == BLANK.(verb := r.verb, version := r.version, path := r.path, query := r.query, fragment := r.fragment)
  {
    hide Run, Target, VersionText, LegalText, LegalPath, MethodName;
    var x2 := VersionText(r.version) + rest;
    after := MethodSegment(FRESH, buf, r.verb, Target(r) + ([' '] + x2), env);
    q := |MethodName(r.verb)| + 1;
    after := TargetSegment(after, buf, q, r, x2, env);
    q := q + |Target(r)| + 1;
    after := VersionSegment(after, buf, q, r.version, rest, env);
    q := q + 10;
  }

  /** The header lines and the empty line. */
  lemma HeaderSegment(m: Parser, buf: Text, p: nat, r: Request, keys: seq<Text>, tail: Text, env: Env)
    returns (after: Parser)
    requires m.cs == 13 && m.req.headers == map[]
    requires LegalLines(r.headers) && p <= |buf|
    requires buf[p..] == Line(CONNECTION, CloseText(r.close))
             + (HeaderLines(r.headers, keys, false) + (HeadEnd(r.body) + tail))
    ensures |tail| <= |buf| && Run(m, buf, p, env) == Stopped(after, |buf| - |tail|)
    ensures after.cs == FINAL && after.error == m.error && after.bodyStart == |buf| - |tail|
    ensures after.req == m.req.(headers := HeadersRead(r, keys))
  {
    hide Run, Line, HeaderLines, HeadEnd, Stored, WithLength, Assign, Stripped, LegalName, LegalValue, CloseText;
    var x5 := HeadEnd(r.body) + tail;
    FixedLinesAreLegal(r.close, 0);
    after := LineSegment(m, buf, p, CONNECTION, CloseText(r.close), HeaderLines(r.headers, keys, false) + x5, env);
    var q := p + |Line(CONNECTION, CloseText(r.close))|;
    after := LinesSegment(after, buf, q, r.headers, keys, x5, env);
    q := q + |HeaderLines(r.headers, keys, false)|;
    after := EndOfHead(after, buf, q, r.body, tail, env);
    assert |buf[q + |HeadEnd(r.body)|..]| == |tail|;
  }

  /**
   Whatever follows the head of a printed request, the parser finishes exactly
   behind the head and has read back every part of it.
   */
  lemma HeadIsReadBack(r: Request, keys: seq<Text>, tail: Text, env: Env)
    requires Printable(r, keys)
    ensures var buf := Head(r, keys) + tail;
            var o := Consumed(FRESH, buf, env);
            && o.Stopped? && o.used == o.parser.bodyStart == |Head(r, keys)|
            && o.parser.cs == FINAL && o.parser.error == 0 && o.parser.req == RequestRead(r, keys)
  {
    hide Run, Target, VersionText, Line, HeaderLines, HeadEnd, HeadersRead, LegalText, LegalPath, Head;
    hide LegalName, LegalValue, MethodName, CloseText;
    var buf := Head(r, keys) + tail;
    HeadThen(r, keys, tail);
    var lines := Line(CONNECTION, CloseText(r.close))
        + (HeaderLines(r.headers, keys, false) + (HeadEnd(r.body) + tail));
    var m, p := StartLineSegment(buf, r, lines, env);
    m := HeaderSegment(m, buf, p, r, keys, tail, env);
  }

  // ------------------------------------------------------------- the map read back

  lemma {:induction false} FoldPlain(s: Text)
    requires forall i :: 0 <= i < |s| ==> s[i] == '-' || 'a' <= s[i] <= 'z'
    ensures Fold(s) == s
  {
    if s != [] {
      assert s[0] == '-' || 'a' <= s[0] <= 'z';
      FoldPlain(s[1..]);
    }
  }

  lemma FixedNames()
    ensures Fold(CONNECTION) == CONNECTION && Fold(CONTENT_LENGTH) == CONTENT_LENGTH && CONNECTION != CONTENT_LENGTH
    ensures Fold(CloseText(false)) == CloseText(false) && Fold(CloseText(true)) == CloseText(true)
    ensures CloseText(false) == "keep-alive" && CloseText(true) != CloseText(false)
  {
    hide Fold;
    assert |CONNECTION| == 10 && |CONTENT_LENGTH| == 14;
    assert |CloseText(true)| == 5 && |CloseText(false)| == 10;
    FoldPlain(CONNECTION);
    FoldPlain(CONTENT_LENGTH);
    FoldPlain(CloseText(false));
    FoldPlain(CloseText(true));
  }

  /** An entry of the printed map, as it is read: with the spelling that came first, and without leading blanks. */
  lemma {:induction false} StoredIs(m: Table, headers: Table, keys: seq<Text>, k: Text)
    requires forall x :: x in headers ==> Fold(headers[x].key) == x
    requires forall i, j :: 0 <= i < j < |keys| ==> keys[i] != keys[j]
    ensures var s := Stored(m, headers, keys);
            if k in keys && k in headers && k != CONNECTION then
              k in s && s[k] == Binding(if k in m then m[k].key else headers[k].key, Stripped(headers[k].value))
            else (k in s <==> k in m) && (k in m ==> s[k] == m[k])
    decreases |keys|
  {
    hide Fold, Stripped;
    if keys != [] {
      var rest := keys[1..];
      assert forall i, j :: 0 <= i < j < |rest| ==> rest[i] == keys[i + 1] && rest[j] == keys[j + 1];
      assert k in keys <==> k == keys[0] || k in rest;
      assert keys[0] !in rest;
      var next := if keys[0] !in headers || keys[0] == CONNECTION then m
                  else Assign(m, headers[keys[0]].key, Stripped(headers[keys[0]].value));
      StoredIs(next, headers, rest, k);
    }
  }

  /** What each header is after the round trip. */
  function Expected(r: Request, k: Text): Option<Binding> {
    if k == CONNECTION then Some(Binding(CONNECTION, CloseText(r.close)))
    else if k == CONTENT_LENGTH && r.body != [] then
      Some(Binding(if k in r.headers then r.headers[k].key else CONTENT_LENGTH, Decimal(|r.body|)))
    else if k in r.headers then Some(Binding(r.headers[k].key, Stripped(r.headers[k].value)))
    else None
  }

  /**
   The header map is recovered, with connection and, for a non-empty body,
   content-length overridden; values lose the blanks they begin with.
   */
  lemma HeadersAreReadBack(r: Request, keys: seq<Text>, k: Text)
    requires Printable(r, keys)
    ensures var h := HeadersRead(r, keys);
            (if k in h then Some(h[k]) else None) == Expected(r, k)
  {
    hide Fold, Stripped, LegalName, LegalValue, LegalText, LegalPath, Stored, Decimal, CloseText;
    FixedNames();
    StoredIs(Assign(map[], CONNECTION, CloseText(r.close)), r.headers, keys, k);
    StoredIs(Assign(map[], CONNECTION, CloseText(r.close)), r.headers, keys, CONTENT_LENGTH);
  }

  /** A value comes back as it was exactly when it does not begin with a blank. */
  lemma {:induction false} ValueIsExactIff(value: Text)
    ensures Stripped(value) == value <==> (value == [] || !Blank(value[0]))
    ensures |Stripped(value)| <= |value|
  {
    if value != [] && Blank(value[0]) { ValueIsExactIff(value[1..]); }
  }

  /** After init, the close flag is the one that was printed, and the length is the body's. */
  lemma CloseAndLengthAreReadBack(r: Request, keys: seq<Text>)
    requires Printable(r, keys) && |r.body| < 0x1_0000_0000_0000_0000
    ensures Initialised(RequestRead(r, keys)) == RequestRead(r, keys).(close := r.close)
    ensures r.body != [] ==> ContentLength(RequestRead(r, keys)) == |r.body|
  {
    hide Fold, Stripped, LegalName, LegalValue, LegalText, LegalPath, HeadersRead, Decimal, Number;
    FixedNames();
    HeadersAreReadBack(r, keys, CONNECTION);
    HeadersAreReadBack(r, keys, CONTENT_LENGTH);
    NumberRoundTrip(|r.body|);
  }

  /** The whole request, body included, as dump prints it. */
  lemma DumpIsReadBack(r: Request, keys: seq<Text>, env: Env)
    requires Printable(r, keys) && |r.body| < 0x1_0000_0000_0000_0000
    ensures var buf := Dump(r, keys);
            var o := Consumed(FRESH, buf, env);
            && o.Stopped? && o.parser.cs == FINAL && o.parser.error == 0 && buf[o.used..] == r.body
            && (var back := Initialised(o.parser.req).(body := buf[o.used..]);
                && back.(headers := r.headers) == r
                && forall k :: (if k in back.headers then Some(back.headers[k]) else None) == Expected(r, k))
  {
    hide Head, Run, Consumed, Initialised, HeadersRead, Expected, Dump;
    DumpIs(r, keys);
    HeadIsReadBack(r, keys, r.body, env);
    CloseAndLengthAreReadBack(r, keys);
    forall k ensures (if k in HeadersRead(r, keys) then Some(HeadersRead(r, keys)[k]) else None) == Expected(r, k) {
      HeadersAreReadBack(r, keys, k);
    }
  }

  /** M-SEARCH is printed but not read: its hyphen stops the parser. */
  lemma SearchIsNotReadBack(r: Request, keys: seq<Text>, env: Env)
    requires r.verb == MSEARCH
    ensures var o := Consumed(FRESH, Dump(r, keys), env); o.Stopped? && o.parser.cs == ERROR && o.used == 1
  {
    var buf := Dump(r, keys);
    assert buf[0] == MethodName(MSEARCH)[0] && buf[1] == MethodName(MSEARCH)[1];
    Step(FRESH, buf, 0, env);
  }
}
