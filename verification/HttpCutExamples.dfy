/**
 Two heads, and reads that cut them: inside a query, so that the second call
 throws, and inside the version, so that a third call mends what the second lost.
 */
module HttpCutExamples {
  import opened Wrappers
  import opened UrlCodec
  import opened HttpMachine
  import opened HttpRequests
  import opened HttpParsers
  import opened HttpRoundTrip
  import opened HttpCuts
  import opened HttpInnerCuts

  // ------------------------------------------------------ a head without headers

  const SHORT: Text := "GET / HTTP/1.1\r\n\r\n"
  const LONG: Text := "GET /?abc HTTP/1.1\r\n\r\n"

  /** The state before each character, and behind the last. */
  const SHORT_STATES: seq<nat> := [1, 2, 175, 176, 3, 33, 4, 5, 6, 7, 8, 9, 10, 11, 12, 17, 13, 18, FINAL]
  const LONG_STATES: seq<nat> :=
    [1, 2, 175, 176, 3, 33, 29, 30, 30, 30, 4, 5, 6, 7, 8, 9, 10, 11, 12, 17, 13, 18, FINAL]

  /** The character at `p` leads to the next state, without a callback other than that of the method at 3. */
  predicate Leads(text: Text, states: seq<nat>, p: nat, env: Env)
    requires p < |text| && |states| == |text| + 1
  {
    && Next(states[p], text[p], env) == states[p + 1] && SpelledOut(states[p], text[p]) && Open(states[p])
    && (p == 0 ==> states[p] == START) && (1 <= p <= 3 ==> InMethod(states[p]))
    && (InMethod(states[p]) && states[p + 1] == 3 ==> p == 3) && !EndsField(states[p], states[p + 1])
  }

  ghost predicate Follows(text: Text, states: seq<nat>, env: Env) {
    |states| == |text| + 1 && forall p: nat :: p < |text| ==> Leads(text, states, p, env)
  }

  lemma ShortLeads(p: nat, env: Env)
    requires p < 18
    ensures |SHORT| == 18 && |SHORT_STATES| == 19 && Leads(SHORT, SHORT_STATES, p, env)
  {
  }

  lemma LongLeads(p: nat, env: Env)
    requires p < 22
    ensures |LONG| == 22 && |LONG_STATES| == 23 && Leads(LONG, LONG_STATES, p, env)
  {
  }

  lemma ShortFollows(env: Env)
    ensures |SHORT| == 18 && Follows(SHORT, SHORT_STATES, env)
  {
    hide Leads;
    ShortLeads(0, env);
    forall p: nat | p < 18 ensures Leads(SHORT, SHORT_STATES, p, env) { ShortLeads(p, env); }
  }

  lemma LongFollows(env: Env)
    ensures |LONG| == 22 && Follows(LONG, LONG_STATES, env)
  {
    hide Leads;
    LongLeads(0, env);
    forall p: nat | p < 22 ensures Leads(LONG, LONG_STATES, p, env) { LongLeads(p, env); }
  }

  lemma {:induction false} PlainFrom(text: Text, states: seq<nat>, m: Parser, p: nat, env: Env)
    requires Follows(text, states, env) && p < |text| && m.cs == states[p] && (1 <= p <= 3 ==> m.mark == 0)
    requires |text| > 3 && StartsWith(text, MethodName(GET))
    ensures OriginForm(m.cs, text[p..], env) && Plain(m, text, p, env)
    decreases |text| - p
  {
    hide Next, SpelledOut, OnMethod, CharsToMethod, Cut, StartsWith;
    assert Leads(text, states, p, env);
    assert text[p] == text[p..][0] && text[p..][1..] == text[p + 1..];
    if p == 3 { GetIsRead(text); }
    if p + 1 < |text| {
      PlainFrom(text, states, Act(m, text, p, states[p + 1]).(cs := states[p + 1]), p + 1, env);
    }
  }

  lemma GetIsRead(text: Text)
    requires |text| > 3 && StartsWith(text, MethodName(GET))
    ensures CharsToMethod(Cut(text, 0, |text|)) == Some(GET) && Cut(text, 0, 3) == MethodName(GET)
  {
    MethodRoundTrip(GET, text);
    assert Cut(text, 0, |text|) == text;
  }

  lemma {:induction false} ScanFollows(text: Text, states: seq<nat>, p: nat, q: nat, env: Env)
    requires Follows(text, states, env) && p <= q <= |text| && states[|text|] == FINAL
    ensures Scan(states[p], text[p..q], env).cs == states[q]
    decreases q - p
  {
    hide Next;
    if p < q {
      assert Leads(text, states, p, env);
      assert text[p..q][0] == text[p] && text[p..q][1..] == text[p + 1..q];
      if p + 1 < |text| {
        assert Leads(text, states, p + 1, env);
        ScanFollows(text, states, p + 1, q, env);
      }
    }
  }

  /** A request line and the empty line. */
  lemma BareHead(r: Request, buf: Text, env: Env)
    requires r.verb != MSEARCH && (r.version == 0x10 || r.version == 0x11)
    requires LegalPath(r.path) && LegalText(r.query, true) && LegalText(r.fragment, true)
    requires buf == MethodName(r.verb) + ([' '] + (Target(r) + ([' '] + (VersionText(r.version) + CRLF))))
    ensures var o := Consumed(FRESH, buf, env);
            o.Stopped? && o.parser.cs == FINAL && o.parser.error == 0 && o.used == |buf|
                && o.parser.req.version == r.version
  {
    hide MethodName, VersionText, Run, Target, LegalText;
    var m, p := StartLineSegment(buf, r, CRLF, env);
    assert buf[p..] == CRLF + [];
    EndSegment(m, buf, p, CRLF, [], env);
  }

  const WITH_QUERY := BLANK.(query := "abc")

  lemma ShortText()
    ensures SHORT == MethodName(GET) + ([' '] + (Target(BLANK) + ([' '] + (VersionText(0x11) + CRLF))))
    ensures StartsWith(SHORT, MethodName(GET))
  {
    hide VersionText, Target;
    assert MethodName(GET) == "GET";
    VersionTextIs(0x11);
    assert Target(BLANK) == "/" by { ShortTarget(); }
  }

  lemma ShortTarget()
    ensures Target(BLANK) == "/"
  {
  }

  lemma LongText()
    ensures LONG == MethodName(GET) + ([' '] + (Target(WITH_QUERY) + ([' '] + (VersionText(0x11) + CRLF))))
    ensures StartsWith(LONG, MethodName(GET))
  {
    hide VersionText, Target;
    assert MethodName(GET) == "GET";
    VersionTextIs(0x11);
    assert Target(WITH_QUERY) == "/?abc" by { LongTarget(); }
  }

  lemma LongTarget()
    ensures Target(WITH_QUERY) == "/?abc"
  {
    assert Part('?', "abc") == "?abc";
  }

  lemma ExamplesAreLegal()
    ensures LegalPath("/") && LegalText([], true) && LegalText("abc", true) && LegalText("ab", true)
  {
    assert LegalText("c", true) && LegalText("bc", true) && LegalText("b", true);
  }

  /** Both heads are good ones, so CutsMatterIff says what becomes of all their cuts. */
  lemma ExamplesAreGood(env: Env)
    ensures GoodHead(SHORT, env) && GoodHead(LONG, env)
    ensures Consumed(FRESH, SHORT, env).parser.req.version == 0x11 && Consumed(FRESH, LONG, env).Stopped?
  {
    hide OriginForm, Plain, Consumed, MethodName, Target, VersionText, LegalText, LegalPath, Follows, StartsWith;
    assert SHORT[0..] == SHORT && LONG[0..] == LONG;
    ShortText();
    LongText();
    ExamplesAreLegal();
    ShortFollows(env);
    LongFollows(env);
    PlainFrom(SHORT, SHORT_STATES, FRESH, 0, env);
    PlainFrom(LONG, LONG_STATES, FRESH, 0, env);
    BareHead(BLANK, SHORT, env);
    BareHead(WITH_QUERY, LONG, env);
  }

  // ----------------------------------------------------------- a cut in a version

  /** Cut inside the version and right behind it: the last call reads no version text, and takes it for HTTP/1.1. */
  lemma MendedReads(env: Env)
    ensures SameOutcome(Feed(FRESH, ["GET / HTT", "P/1.1", "\r\n\r\n"], env), Consumed(FRESH, SHORT, env))
  {
    hide Consumed, Feed, Executed, GoodHead, HarmlessCuts;
    var a: Text, b: Text, c: Text := "GET / HTT", "P/1.1", "\r\n\r\n";
    var pieces := [a, b, c];
    assert SHORT == a + (b + (c + []));
    assert pieces[1..] == [b, c] && [b, c][1..] == [c] && [c][1..] == [];
    assert Concatenated([c]) == c + [];
    assert Concatenated([b, c]) == b + (c + []);
    assert Concatenated(pieces) == SHORT;
    ExamplesAreGood(env);
    MendedStates(a, b, c, env);
    CutsMatterIff(pieces, env);
  }

  lemma MendedStates(a: Text, b: Text, c: Text, env: Env)
    requires SHORT == a + (b + c) && |a| == 9 && |b| == 5 && |c| == 4
    ensures HarmlessCuts(START, [a, b, c], true, env)
  {
    hide Scan, Follows, BetweenParts;
    ShortFollows(env);
    ScanFollows(SHORT, SHORT_STATES, 0, 9, env);
    ScanFollows(SHORT, SHORT_STATES, 9, 14, env);
    ScanFollows(SHORT, SHORT_STATES, 14, 18, env);
    assert SHORT[0..9] == a && SHORT[9..14] == b && SHORT[14..18] == c;
    StartIsBetween(a);
    ThreePieces(a, b, c, env);
  }

  lemma ThreePieces(a: Text, b: Text, c: Text, env: Env)
    requires Executed(START, a, env).cs == 7 && Executed(7, b, env).cs == 12 && Executed(12, c, env).cs == FINAL
    ensures HarmlessCuts(START, [a, b, c], true, env)
  {
    hide Executed, BetweenParts;
    StartIsBetween(a);
    assert [a, b, c][1..] == [b, c] && [b, c][1..] == [c];
    assert MendedCut(12, [c], env) && HarmlessCuts(12, [c], true, env);
    assert MendedCut(7, [b, c], env) && HarmlessCuts(7, [b, c], true, env);
  }

  // ------------------------------------------------------------- a cut in a query

  const CUT_BEFORE: Text := "GET /?ab"
  const CUT_BEHIND: Text := "c HTTP/1.1\r\n\r\n"

  /** As one text this is a complete head; cut inside the query, the second call throws. */
  lemma CutQueryThrows(env: Env)
    ensures CUT_BEFORE + CUT_BEHIND == LONG && Consumed(FRESH, LONG, env).Stopped? && GoodHead(LONG, env)
    ensures Feed(FRESH, [CUT_BEFORE, CUT_BEHIND], env).Threw?
  {
    hide Run, GoodHead;
    var m := QueryBegun(env);
    SecondCallThrows(m, env);
    assert [CUT_BEFORE, CUT_BEHIND][1..] == [CUT_BEHIND];
    ExamplesAreGood(env);
  }

  lemma QueryBegun(env: Env) returns (m: Parser)
    ensures Consumed(FRESH, CUT_BEFORE, env) == Stopped(m, 8) && m.cs == 30 && m.queryStart == 6
  {
    hide MethodName, Act, Next, LegalText;
    var buf := CUT_BEFORE;
    BeforeParts();
    m := MethodSegment(FRESH, buf, GET, PATH_ON, env);
    m := PathSegment(m, buf, 4, "/", QUERY_ON, env);
    BeginsQuery(m, buf, 6, env);
    m := m.(cs := 30, queryStart := 6);
    Through(m, buf, 6, AB, [], env);
  }

  const PATH_ON: Text := "/?ab"
  const QUERY_ON: Text := "?ab"
  const AB: Text := "ab"

  lemma BeforeParts()
    ensures |CUT_BEFORE| == 8 && CUT_BEFORE == MethodName(GET) + ([' '] + PATH_ON) && |MethodName(GET)| == 3
    ensures CUT_BEFORE[4..] == PATH_ON == "/" + QUERY_ON && QUERY_ON[0] == '?' && QUERY_ON[1..] == AB
    ensures CUT_BEFORE[6..] == AB + [] && |AB| == 2 && LegalText(AB, true) && LegalPath("/")
  {
    ExamplesAreLegal();
  }

  lemma BeginsQuery(m: Parser, buf: Text, p: nat, env: Env)
    requires m.cs == 29 && p < |buf| && buf[p] == 'a'
    ensures Run(m, buf, p, env) == Run(m.(cs := 30, queryStart := p), buf, p, env)
  {
    hide Run;
    Opening(m, buf, p, env);
  }

  lemma SecondCallThrows(m: Parser, env: Env)
    requires m.cs == 30 && m.queryStart == 6
    ensures Consumed(m, CUT_BEHIND, env).Threw?
  {
    assert CUT_BEHIND[0] == 'c' && CUT_BEHIND[1] == ' ';
    Step(Restarted(m), CUT_BEHIND, 0, env);
  }
}
