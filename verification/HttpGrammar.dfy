/**
 The heads that the parser reads, as a grammar: every head of the grammar is read
 to its end with its parts reported, and every origin-form text that is read to
 its end begins with a head of the grammar.
 */
module HttpGrammar {
  import opened Wrappers
  import opened UrlCodec
  import opened Forms
  import opened HttpMachine
  import opened HttpRequests
  import opened HttpParsers
  import opened HttpRoundTrip
  import opened HttpCuts

  /** A header field: name, colon, value with any blanks before it, end of the line. */
  datatype Field = Field(name: Text, value: Text, end: Text)

  /** The parts of a head.  A query or a fragment may be there and empty; each line ends as it likes. */
  datatype HeadParts = HeadParts(word: Text, path: Text, query: Option<Text>, fragment: Option<Text>, version: nat,
                                 end: Text, fields: seq<Field>, last: Text)

  predicate FieldInGrammar(f: Field) { LegalName(f.name) && LegalValue(f.value) && EndsLine(f.end) }

  ghost predicate InGrammar(h: HeadParts, env: Env) {
    && 1 <= |h.word| <= 20 && (forall c :: c in h.word ==> '0' <= c <= '9' || 'A' <= c <= 'Z')
    && PathFor(h.path, env)
    && (h.query.Some? ==> TextFor(h.query.value, true, env))
    && (h.fragment.Some? ==> TextFor(h.fragment.value, true, env))
    && (h.version == 0x10 || h.version == 0x11) && EndsLine(h.end) && EndsLine(h.last)
    && forall i :: 0 <= i < |h.fields| ==> FieldInGrammar(h.fields[i])
  }

  // ------------------------------------------------------------------ their text

  function Marked(mark: Octet, part: Option<Text>, rest: Text): Text {
    if part.None? then rest else [mark] + (part.value + rest)
  }

  function FieldsThen(fields: seq<Field>, rest: Text): Text {
    if fields == [] then rest
    else fields[0].name + ([':'] + (fields[0].value + (fields[0].end + FieldsThen(fields[1..], rest))))
  }

  function VersionThen(h: HeadParts, rest: Text): Text {
    ("HTTP/1." + [VersionDigit(h.version)]) + (h.end + FieldsThen(h.fields, h.last + rest))
  }

  function FragmentThen(h: HeadParts, rest: Text): Text { Marked('#', h.fragment, [' '] + VersionThen(h, rest)) }

  function QueryThen(h: HeadParts, rest: Text): Text { Marked('?', h.query, FragmentThen(h, rest)) }

  /** The head, and what follows it. */
  function TextOf(h: HeadParts, rest: Text): Text { h.word + ([' '] + (h.path + QueryThen(h, rest))) }

  // -------------------------------------------------------------------- reading

  function FieldsStored(m: Table, fields: seq<Field>): Table
    decreases |fields|
  {
    if fields == [] then m else FieldsStored(Assign(m, fields[0].name, Stripped(fields[0].value)), fields[1..])
  }

  /** Of several fields with one name the last gives the value; fields with other names change nothing. */
  lemma {:induction false} LastFieldWins(m: Table, fields: seq<Field>, key: Text, i: nat)
    requires i <= |fields| && (i < |fields| ==> Fold(fields[i].name) == Fold(key))
    requires forall j :: 0 <= j < |fields| && (i == |fields| || i < j) ==> Fold(fields[j].name) != Fold(key)
    ensures var r := FieldsStored(m, fields);
            if i == |fields| then
              (Fold(key) in r <==> Fold(key) in m) && (Fold(key) in m ==> r[Fold(key)] == m[Fold(key)])
            else Fold(key) in r && r[Fold(key)].value == Stripped(fields[i].value)
    decreases |fields|
  {
    hide Fold, Stripped;
    if fields != [] {
      var rest := fields[1..];
      assert forall j :: 0 <= j < |rest| ==> rest[j] == fields[j + 1];
      var next := Assign(m, fields[0].name, Stripped(fields[0].value));
      LastFieldWins(next, rest, key, if i == 0 then |rest| else i - 1);
    }
  }

  function OrEmpty(part: Option<Text>): Text { if part.None? then [] else part.value }

  lemma WordSegment(buf: Text, word: Text, rest: Text, env: Env) returns (after: Parser)
    requires 1 <= |word| <= 20 && (forall c :: c in word ==> UpperOrDigit(c)) && buf == word + ([' '] + rest)
    ensures var q := |word| + 1;
            q <= |buf| && buf[q..] == rest && Run(FRESH, buf, 0, env) == Run(after, buf, q, env)
    ensures after.cs == 3 && match CharsToMethod(word + " ")
                             case None => after.error == INVALID_METHOD && after.req == BLANK
                             case Some(verb) => after.error == 0 && after.req == BLANK.(verb := verb)
  {
    hide Run, CharsToMethod;
    var tail := [(' ' as Octet)] + rest;
    assert buf[0..] == buf;
    First(buf, 0, buf);
    assert buf[0] == word[0] && word[0] in word;
    Step(FRESH, buf, 0, env);
    var in2 := FRESH.(cs := 2, mark := 0);
    assert buf[1..] == word[1..] + tail;
    Letters(in2, buf, 1, 1, word[1..], tail, env);
    var q := |word|;
    First(buf, q, tail);
    assert Cut(buf, 0, |buf|) == buf;
    WordDecides(buf, word);
    var last := in2.(cs := AfterLetters(q));
    Step(last, buf, q, env);
    after := Act(last, buf, q, 3).(cs := 3);
  }

  lemma WordDecides(buf: Text, word: Text)
    requires |word| < |buf| && buf[..|word|] == word && buf[|word|] == ' '
    ensures CharsToMethod(buf) == CharsToMethod(word + " ")
  {
    assert (word + " ")[..|word|] == word;
    SameMethod(METHODS, buf, word + " ", |word|);
  }

  lemma QueryOption(m: Parser, buf: Text, p: nat, h: HeadParts, tail: Text, env: Env) returns (after: Parser, q: nat)
    requires h.query.Some? ==> TextFor(h.query.value, true, env)
    requires m.req.query == [] && m.cs == Behind(QueryThen(h, tail)[0])
    requires p <= |buf| && buf[p..] == QueryThen(h, tail)[1..]
    ensures q <= |buf| && buf[q..] == FragmentThen(h, tail)[1..] && Run(m, buf, p, env) == Run(after, buf, q, env)
    ensures after.cs == Behind(FragmentThen(h, tail)[0]) && after.error == m.error
    ensures after.req == m.req.(query := OrEmpty(h.query))
  {
    hide Run, TextFor, VersionThen;
    after, q := m, p;
    if h.query.Some? {
      var rest := FragmentThen(h, tail);
      assert (['?'] + (h.query.value + rest))[1..] == h.query.value + rest;
      after := QuerySegment(m, buf, p, h.query.value, rest, env);
      q := p + |h.query.value| + 1;
    }
  }

  lemma FragmentOption(m: Parser, buf: Text, p: nat, h: HeadParts, tail: Text, env: Env)
    returns (after: Parser, q: nat)
    requires h.fragment.Some? ==> TextFor(h.fragment.value, true, env)
    requires m.req.fragment == [] && m.cs == Behind(FragmentThen(h, tail)[0])
    requires p <= |buf| && buf[p..] == FragmentThen(h, tail)[1..]
    ensures q <= |buf| && buf[q..] == VersionThen(h, tail) && Run(m, buf, p, env) == Run(after, buf, q, env)
    ensures after.cs == 4 && after.error == m.error && after.req == m.req.(fragment := OrEmpty(h.fragment))
  {
    hide Run, TextFor, VersionThen;
    var rest := [(' ' as Octet)] + VersionThen(h, tail);
    after, q := m, p;
    assert rest[1..] == VersionThen(h, tail);
    if h.fragment.Some? {
      assert (['#'] + (h.fragment.value + rest))[1..] == h.fragment.value + rest;
      after := FragmentSegment(m, buf, p, h.fragment.value, rest, env);
      q := p + |h.fragment.value| + 1;
    }
  }

  lemma {:induction false} FieldsSegment(m: Parser, buf: Text, p: nat, fields: seq<Field>, rest: Text, env: Env)
    returns (after: Parser, q: nat)
    requires m.cs == 13 && (forall i :: 0 <= i < |fields| ==> FieldInGrammar(fields[i]))
    requires p <= |buf| && buf[p..] == FieldsThen(fields, rest)
    ensures q <= |buf| && buf[q..] == rest && Run(m, buf, p, env) == Run(after, buf, q, env)
    ensures after.cs == 13 && after.error == m.error
    ensures after.req == m.req.(headers := FieldsStored(m.req.headers, fields))
    decreases |fields|
  {
    hide Run, Assign, Stripped, LegalName, LegalValue;
    after, q := m, p;
    if fields != [] {
      var f := fields[0];
      assert FieldInGrammar(f);
      after := FieldSegment(m, buf, p, f.name, f.value, f.end, FieldsThen(fields[1..], rest), env);
      after, q := FieldsSegment(after, buf, p + |f.name| + 1 + |f.value| + |f.end|, fields[1..], rest, env);
    }
  }

  /** What the parser reports of a head. */
  function Reported(h: HeadParts): Request {
    BLANK.(verb := if CharsToMethod(h.word + " ").Some? then CharsToMethod(h.word + " ").value else GET,
           path := h.path, query := OrEmpty(h.query), fragment := OrEmpty(h.fragment), version := h.version,
           headers := FieldsStored(map[], h.fields))
  }

  lemma TargetRead(m: Parser, buf: Text, p: nat, h: HeadParts, rest: Text, env: Env) returns (after: Parser, q: nat)
    requires InGrammar(h, env) && m.cs == 3 && m.req.query == [] && m.req.fragment == []
    requires p <= |buf| && buf[p..] == h.path + QueryThen(h, rest)
    ensures q <= |buf| && buf[q..] == VersionThen(h, rest) && Run(m, buf, p, env) == Run(after, buf, q, env)
    ensures after.cs == 4 && after.error == m.error
    ensures after.req == m.req.(path := h.path, query := OrEmpty(h.query), fragment := OrEmpty(h.fragment))
  {
    hide Run, TextFor, PathFor, VersionThen, FragmentThen, QueryThen;
    QueryBegins(h, rest);
    after := PathSegment(m, buf, p, h.path, QueryThen(h, rest), env);
    after, q := QueryOption(after, buf, p + |h.path| + 1, h, rest, env);
    after, q := FragmentOption(after, buf, q, h, rest, env);
  }

  lemma QueryBegins(h: HeadParts, rest: Text)
    ensures QueryThen(h, rest) != [] && QueryThen(h, rest)[0] in " ?#"
  {
    hide VersionThen;
  }

  lemma LinesRead(m: Parser, buf: Text, p: nat, h: HeadParts, rest: Text, env: Env) returns (after: Parser)
    requires InGrammar(h, env) && m.cs == 4 && m.req.headers == map[]
    requires p <= |buf| && buf[p..] == VersionThen(h, rest)
    ensures |rest| <= |buf| && Run(m, buf, p, env) == Stopped(after, |buf| - |rest|)
    ensures after.cs == FINAL && after.error == m.error && after.bodyStart == |buf| - |rest|
    ensures after.req == m.req.(version := h.version, headers := FieldsStored(map[], h.fields))
  {
    hide Run, TextFor, PathFor, FieldsThen, FieldsStored, EndsLine, FieldInGrammar;
    after := VersionLine(m, buf, p, h.version, h.end, FieldsThen(h.fields, h.last + rest), env);
    var q;
    after, q := FieldsSegment(after, buf, p + 8 + |h.end|, h.fields, h.last + rest, env);
    EndSegment(after, buf, q, h.last, rest, env);
    assert |buf[q + |h.last|..]| == |rest|;
    after := after.(cs := FINAL, fieldStart := q, bodyStart := q + |h.last|);
  }

  /**
   Every head of the grammar, whatever follows it: one call stops exactly behind
   it, with all its parts reported; a word that is no method is an error.
   */
  lemma HeadIsRead(h: HeadParts, rest: Text, env: Env)
    requires InGrammar(h, env)
    ensures var o := Consumed(FRESH, TextOf(h, rest), env);
            && o.Stopped? && o.parser.cs == FINAL && o.used == o.parser.bodyStart == |TextOf(h, rest)| - |rest|
            && o.parser.req == Reported(h)
            && o.parser.error == (if CharsToMethod(h.word + " ").Some? then 0 else INVALID_METHOD)
  {
    hide Run, TextFor, PathFor, CharsToMethod, FieldsStored, EndsLine, VersionThen, QueryThen, FieldInGrammar;
    var buf := TextOf(h, rest);
    var m := WordSegment(buf, h.word, h.path + QueryThen(h, rest), env);
    var p: nat;
    m, p := TargetRead(m, buf, |h.word| + 1, h, rest, env);
    m := LinesRead(m, buf, p, h, rest, env);
  }

  // ------------------------------------------------------------ only such heads

  /** From state `cs` an origin-form text is read to the end of a head. */
  ghost predicate Ends(cs: nat, s: Text, env: Env) {
    Open(cs) && OriginForm(cs, s, env) && Scan(cs, s, env).cs >= FINAL
  }

  lemma EndStep(cs: nat, s: Text, env: Env)
    requires Ends(cs, s, env)
    ensures s != [] && SpelledOut(cs, s[0]) && Next(cs, s[0], env) != ERROR
    ensures Next(cs, s[0], env) < FINAL ==> Ends(Next(cs, s[0], env), s[1..], env)
  {
    hide Next, SpelledOut;
  }

  /** States that go on alike read alike. */
  lemma EndsAlike(a: nat, b: nat, s: Text, env: Env)
    requires Ends(a, s, env) && Open(b) && Next(a, s[0], env) == Next(b, s[0], env) && SpelledOut(b, s[0])
    ensures Ends(b, s, env)
  {
    hide Next, SpelledOut;
    EndStep(a, s, env);
  }

  /** The first `n` characters of `s`, a character, and what follows. */
  lemma Split(s: Text, n: nat)
    requires n < |s|
    ensures s == s[..n] + ([s[n]] + s[n + 1..])
  {
  }

  lemma Longer(s: Text, n: nat, k: nat)
    requires k <= |s| && n < |s| - k
    ensures s[..n + k] == s[..k] + s[k..][..n] && s[n + k] == s[k..][n] && s[k..][n + 1..] == s[n + k + 1..]
  {
  }

  lemma {:induction false} WordEnds(k: nat, s: Text, env: Env) returns (n: nat)
    requires 1 <= k <= 20 && Ends(AfterLetters(k), s, env)
    ensures n < |s| && k + n <= 20 && s[n] == ' ' && (forall c :: c in s[..n] ==> UpperOrDigit(c))
    ensures Ends(3, s[n + 1..], env)
    decreases |s|
  {
    hide Ends, SpelledOut;
    EndStep(AfterLetters(k), s, env);
    if s[0] == ' ' {
      n := 0;
    } else {
      assert Next(AfterLetters(k), s[0], env) == AfterLetters(k + 1);
      n := WordEnds(k + 1, s[1..], env);
      Longer(s, n, 1);
      n := n + 1;
    }
  }

  /** Text of a path, query or fragment, up to the character that ends it. */
  lemma {:induction false} TextEnds(cs: nat, s: Text, env: Env) returns (n: nat)
    requires (cs == 26 || cs == 30 || cs == 21) && Ends(cs, s, env)
    ensures n < |s| && TextFor(s[..n], cs != 26, env)
    ensures s[n] == ' ' || (s[n] == '#' && cs != 21) || (s[n] == '?' && cs == 26)
    ensures Ends(Behind(s[n]), s[n + 1..], env)
    decreases |s|
  {
    hide Ends, SpelledOut;
    EndStep(cs, s, env);
    if s[0] == '%' {
      EndStep(cs + 1, s[1..], env);
      EndStep(cs + 2, s[1..][1..], env);
      assert s[1..][1..] == s[2..] && s[2..][1..] == s[3..] && s[1..][0] == s[1] && s[2..][0] == s[2];
      n := TextEnds(cs, s[3..], env);
      Longer(s, n, 3);
      n := n + 3;
      assert s[..n][3..] == s[3..][..n - 3];
    } else if s[0] == ' ' || (s[0] == '#' && cs != 21) || (s[0] == '?' && cs == 26) {
      n := 0;
    } else {
      n := TextEnds(cs, s[1..], env);
      Longer(s, n, 1);
      n := n + 1;
      assert s[..n][1..] == s[1..][..n - 1];
    }
  }

  lemma PathEnds(s: Text, env: Env) returns (n: nat)
    requires Ends(3, s, env)
    ensures n < |s| && PathFor(s[..n], env) && s[n] in " ?#" && Ends(Behind(s[n]), s[n + 1..], env)
  {
    hide Ends, TextFor;
    EndStep(3, s, env);
    n := 0;
    if s[0] == '/' {
      var t := s[1..];
      EndStep(33, t, env);
      EndsAlike(33, 26, t, env);
      n := TextEnds(26, t, env);
      Longer(s, n, 1);
      n := n + 1;
      assert s[..n][1..] == t[..n - 1] && (n > 1 ==> s[..n][1] == t[0]);
    }
  }

  /** From a '?' to the end of the target; `c` is the character before `s`. */
  lemma QueryEnds(c: Octet, s: Text, env: Env) returns (query: Option<Text>, d: Octet, rest: Text)
    requires c in " ?#" && Ends(Behind(c), s, env)
    ensures (query.Some? ==> TextFor(query.value, true, env)) && (d == ' ' || d == '#') && Ends(Behind(d), rest, env)
    ensures [c] + s == Marked('?', query, [d] + rest)
  {
    hide Ends, TextFor;
    if c == '?' {
      EndStep(29, s, env);
      EndsAlike(29, 30, s, env);
      var n := TextEnds(30, s, env);
      Split(s, n);
      query, d, rest := Some(s[..n]), s[n], s[n + 1..];
    } else {
      query, d, rest := None, c, s;
    }
  }

  lemma FragmentEnds(c: Octet, s: Text, env: Env) returns (fragment: Option<Text>, rest: Text)
    requires (c == ' ' || c == '#') && Ends(Behind(c), s, env)
    ensures (fragment.Some? ==> TextFor(fragment.value, true, env)) && Ends(4, rest, env)
    ensures [c] + s == Marked('#', fragment, [' '] + rest)
  {
    hide Ends, TextFor;
    if c == '#' {
      EndStep(20, s, env);
      EndsAlike(20, 21, s, env);
      var n := TextEnds(21, s, env);
      Split(s, n);
      fragment, rest := Some(s[..n]), s[n + 1..];
    } else {
      fragment, rest := None, s;
    }
  }

  /** The end of a line; the state behind it is that of the next one. */
  lemma LineEndEnds(s: Text, env: Env) returns (end: Text, rest: Text)
    requires s != [] && LineEnd(s[0]) && Ends(if s[0] == '\n' then 13 else 17, s[1..], env)
    ensures EndsLine(end) && s == end + rest && Ends(13, rest, env)
  {
    hide Ends;
    if s[0] == '\n' {
      end, rest := "\n", s[1..];
    } else {
      EndStep(17, s[1..], env);
      end, rest := "\r\n", s[1..][1..];
    }
  }

  lemma {:induction false} LiteralEnds(cs: nat, s: Text, env: Env)
    requires 4 <= cs <= 11 && Ends(cs, s, env)
    ensures 11 - cs < |s| && s[..11 - cs] == "HTTP/1."[cs - 4..] && Ends(11, s[11 - cs..], env)
    decreases 11 - cs
  {
    hide Ends, SpelledOut;
    EndStep(cs, s, env);
    if cs < 11 {
      LiteralEnds(cs + 1, s[1..], env);
      var n := 11 - cs;
      assert s[..n] == [s[0]] + s[1..][..n - 1] && s[n..] == s[1..][n - 1..];
      assert s[0] == "HTTP/1."[cs - 4];
      assert "HTTP/1."[cs - 4..] == ["HTTP/1."[cs - 4]] + "HTTP/1."[cs - 3..];
    } else {
      assert s[..0] == "HTTP/1."[7..] && s[0..] == s;
    }
  }

  lemma VersionEnds(s: Text, env: Env) returns (version: nat, end: Text, rest: Text)
    requires Ends(4, s, env)
    ensures (version == 0x10 || version == 0x11) && EndsLine(end) && Ends(13, rest, env)
    ensures s == ("HTTP/1." + [VersionDigit(version)]) + (end + rest)
  {
    hide Ends, EndsLine;
    LiteralEnds(4, s, env);
    var t := s[7..];
    EndStep(11, t, env);
    EndStep(12, t[1..], env);
    version := if t[0] == '0' then 0x10 else 0x11;
    end, rest := LineEndEnds(t[1..], env);
    assert s == s[..7] + t && t == [t[0]] + t[1..];
    assert s == ("HTTP/1." + [t[0]]) + t[1..];
  }

  /** The rest of a name, up to its colon. */
  lemma {:induction false} NameEnds(s: Text, env: Env) returns (n: nat)
    requires Ends(14, s, env)
    ensures n < |s| && s[n] == ':' && (forall c :: c in s[..n] ==> NameChar(c)) && Ends(15, s[n + 1..], env)
    decreases |s|
  {
    hide Ends, NameChar;
    EndStep(14, s, env);
    if s[0] == ':' {
      n := 0;
    } else {
      n := NameEnds(s[1..], env);
      Longer(s, n, 1);
      n := n + 1;
    }
  }

  /** A value, with its blanks, up to the end of its line. */
  lemma {:induction false} ValueEnds(cs: nat, s: Text, env: Env) returns (n: nat)
    requires (cs == 15 || cs == 16) && Ends(cs, s, env)
    ensures n < |s| && LineEnd(s[n]) && LegalValue(s[..n])
    ensures Ends(if s[n] == '\n' then 13 else 17, s[n + 1..], env)
    decreases |s|
  {
    hide Ends;
    EndStep(cs, s, env);
    if LineEnd(s[0]) {
      n := 0;
    } else {
      n := ValueEnds(Next(cs, s[0], env), s[1..], env);
      Longer(s, n, 1);
      n := n + 1;
    }
  }

  /** The first characters of a name, which the empty line shares, and the rest of it. */
  lemma FieldNameEnds(s: Text, env: Env) returns (n: nat)
    requires Ends(13, s, env) && s[0] != '\n' && (s[0] == '\r' ==> |s| > 1 && s[1] != '\n')
    ensures n < |s| && s[n] == ':' && LegalName(s[..n]) && Ends(15, s[n + 1..], env)
  {
    hide Ends;
    EndStep(13, s, env);
    var t := s[1..];
    if s[0] == '\r' {
      EndStep(18, t, env);
      if t[0] == ':' {
        n := 0;
      } else {
        n := NameEnds(t[1..], env);
        Longer(t, n, 1);
        n := n + 1;
      }
    } else {
      n := NameEnds(t, env);
    }
    Longer(s, n, 1);
    n := n + 1;
    assert forall c :: c in s[..n] ==> c == s[0] || c in t[..n - 1];
    assert n > 1 ==> s[..n][1] == s[1];
  }

  lemma {:induction false} FieldsEnd(s: Text, env: Env) returns (fields: seq<Field>, last: Text, rest: Text)
    requires Ends(13, s, env)
    ensures s == FieldsThen(fields, last + rest) && EndsLine(last)
    ensures forall i :: 0 <= i < |fields| ==> FieldInGrammar(fields[i])
    decreases |s|
  {
    hide Ends, LegalName, LegalValue;
    EndStep(13, s, env);
    if s[0] == '\n' {
      fields, last, rest := [], "\n", s[1..];
    } else {
      if s[0] == '\r' { EndStep(18, s[1..], env); }
      if s[0] == '\r' && s[1] == '\n' {
        fields, last, rest := [], "\r\n", s[2..];
      } else {
        var f, behind := FieldEnds(s, env);
        fields, last, rest := FieldsEnd(behind, env);
        var all := [f] + fields;
        assert all[1..] == fields;
        fields := all;
      }
    }
  }

  lemma FieldEnds(s: Text, env: Env) returns (f: Field, rest: Text)
    requires Ends(13, s, env) && s[0] != '\n' && (s[0] == '\r' ==> |s| > 1 && s[1] != '\n')
    ensures FieldInGrammar(f) && Ends(13, rest, env) && |rest| < |s|
    ensures s == f.name + ([':'] + (f.value + (f.end + rest)))
  {
    hide Ends, LegalName, LegalValue, EndsLine;
    var n := FieldNameEnds(s, env);
    Split(s, n);
    var t := s[n + 1..];
    var k := ValueEnds(15, t, env);
    assert t[k..][0] == t[k] && t[k..][1..] == t[k + 1..];
    var end: Text;
    end, rest := LineEndEnds(t[k..], env);
    assert t == t[..k] + t[k..];
    f := Field(s[..n], t[..k], end);
  }

  /** Every origin-form text that is read to the end of a head begins with a head of the grammar. */
  lemma ReadIsHead(s: Text, env: Env) returns (h: HeadParts, rest: Text)
    requires OriginForm(START, s, env) && Scan(START, s, env).cs >= FINAL
    ensures InGrammar(h, env) && s == TextOf(h, rest)
  {
    hide Ends, TextFor, PathFor, EndsLine, FieldsThen, OriginForm, Scan, FieldInGrammar, Marked;
    assert Ends(START, s, env) by { BeginsEnding(s, env); }
    var word, t := FirstWordEnds(s, env);
    var path, query, fragment, v := TargetEnds(t, env);
    var version, end, w := VersionEnds(v, env);
    var fields, last, x := FieldsEnd(w, env);
    h, rest := HeadParts(word, path, query, fragment, version, end, fields, last), x;
    assert VersionThen(h, rest) == v;
  }

  lemma FirstWordEnds(s: Text, env: Env) returns (word: Text, rest: Text)
    requires Ends(START, s, env)
    ensures 1 <= |word| <= 20 && (forall c :: c in word ==> UpperOrDigit(c)) && s == word + ([' '] + rest)
    ensures Ends(3, rest, env)
  {
    hide Ends;
    EndStep(START, s, env);
    var n := WordEnds(1, s[1..], env);
    Longer(s, n, 1);
    Split(s, n + 1);
    word, rest := s[..n + 1], s[n + 2..];
    assert forall c :: c in word ==> c == s[0] || c in s[1..][..n];
  }

  lemma TargetEnds(s: Text, env: Env) returns (path: Text, query: Option<Text>, fragment: Option<Text>, rest: Text)
    requires Ends(3, s, env)
    ensures PathFor(path, env) && (query.Some? ==> TextFor(query.value, true, env))
    ensures (fragment.Some? ==> TextFor(fragment.value, true, env)) && Ends(4, rest, env)
    ensures s == path + Marked('?', query, Marked('#', fragment, [' '] + rest))
  {
    hide Ends, TextFor, PathFor, Marked;
    var n := PathEnds(s, env);
    Split(s, n);
    path := s[..n];
    var d, u;
    query, d, u := QueryEnds(s[n], s[n + 1..], env);
    fragment, rest := FragmentEnds(d, u, env);
  }

  lemma BeginsEnding(s: Text, env: Env)
    requires OriginForm(START, s, env) && Scan(START, s, env).cs >= FINAL
    ensures Ends(START, s, env)
  {
  }

  /**
   The parser reads an origin-form text to the end of a head exactly if the text
   begins with a head of the grammar; then it has used exactly that head, and
   reported its parts.
   */
  lemma ReadsExactlyHeads(s: Text, env: Env)
    requires OriginForm(START, s, env)
    ensures Scan(START, s, env).cs >= FINAL <==> exists h, rest :: InGrammar(h, env) && s == TextOf(h, rest)
    ensures forall h, rest :: InGrammar(h, env) && s == TextOf(h, rest) ==>
              |rest| <= |s| && Scan(START, s, env) == Scanned(FINAL, |s| - |rest|)
  {
    hide OriginForm, Scan, InGrammar, TextOf, Consumed;
    if Scan(START, s, env).cs >= FINAL {
      var h, rest := ReadIsHead(s, env);
    }
    forall h, rest | InGrammar(h, env) && s == TextOf(h, rest)
      ensures |rest| <= |s| && Scan(START, s, env) == Scanned(FINAL, |s| - |rest|)
    {
      HeadIsRead(h, rest, env);
      ConsumedIsExecuted(FRESH, s, env);
      assert s != [] by { SomeText(h, rest); }
    }
  }

  lemma SomeText(h: HeadParts, rest: Text)
    ensures TextOf(h, rest) != []
  {
  }
}
