/**
 What the places where a stream is cut do to the parsed request: nothing between
 the parts of a head.
 */
module HttpCuts {
  import opened UrlCodec
  import opened Forms
  import opened HttpMachine
  import opened HttpRequests
  import opened HttpParsers

  // ------------------------------------------------------------ between the parts

  /** The states of origin-form requests, whose transitions are spelled out. */
  predicate Modelled(cs: nat) {
    1 <= cs <= 18 || 20 <= cs <= 23 || 26 <= cs <= 33 || 175 <= cs <= 193 || cs == FINAL
  }

  predicate SpelledOut(cs: nat, c: Octet) {
    Modelled(cs) && (cs == 1 ==> c !in "<@") && (cs == 3 ==> c in " #?/") && (cs == 33 ==> c != '/')
  }

  /** The text keeps to those states until the parser finishes or fails. */
  predicate OriginForm(cs: nat, s: Text, env: Env)
    decreases |s|
  {
    s == [] || !Open(cs) || (SpelledOut(cs, s[0]) && OriginForm(Next(cs, s[0], env), s[1..], env))
  }

  /** A cut here, before `rest`, has no recorded mark to lose: it is between two parts of the head. */
  predicate BetweenParts(cs: nat, rest: Text) {
    cs == 1 || cs == 3 || cs == 4 || cs == 13 || cs == 17 || cs == 20 || cs == 29
        || (cs == 18 && rest != [] && rest[0] == '\n')
  }

  predicate CutBetweenParts(cs: nat, pieces: seq<Text>, env: Env)
    decreases |pieces|
  {
    pieces == [] || !Open(cs)
    || (BetweenParts(cs, pieces[0]) && CutBetweenParts(Executed(cs, pieces[0], env).cs, pieces[1..], env))
  }

  predicate MarkIsLive(cs: nat) {
    InMethod(cs) || InPath(cs) || InFragment(cs) || InVersion(cs) || cs == 16
  }

  predicate NameIsLive(cs: nat, s: Text, p: nat) {
    14 <= cs <= 16 || (cs == 18 && !(p < |s| && s[p] == '\n'))
  }

  /**
   `whole` has read the data up to `t + p`, `m` the piece that begins at `t` up to
   `p`: they agree, and the marks that are still needed differ by `t`.
   */
  ghost predicate Alike(whole: Parser, m: Parser, d: Text, t: nat, p: nat) {
    && whole.cs == m.cs && whole.req == m.req && whole.error == m.error
    && (MarkIsLive(m.cs) ==> whole.mark == m.mark + t && m.mark < p)
    && (InQuery(m.cs) ==> whole.queryStart == m.queryStart + t && m.queryStart < p)
    && (NameIsLive(m.cs, d, t + p) ==> whole.fieldStart == m.fieldStart + t && m.fieldStart < p)
    && (15 <= m.cs <= 16 ==> whole.fieldLen == m.fieldLen && 0 <= m.fieldLen && m.fieldStart + m.fieldLen <= p)
  }

  lemma CutShifts(d: Text, t: nat, u: nat, from: nat, len: nat)
    requires t <= u <= |d| && t + from + len <= u
    ensures Cut(d, from + t, len) == Cut(d[t..u], from, len)
  {
    var piece := d[t..u];
    assert forall i :: from <= i < from + len ==> piece[i] == d[t + i];
  }

  lemma NamesHaveNoBlank(m: Method)
    ensures forall c :: c in MethodName(m) ==> c != ' '
  {
  }

  /** Texts that agree up to a blank begin with the same method. */
  lemma {:induction false} SameMethod(ms: seq<Method>, a: Text, b: Text, n: nat)
    requires n < |a| && n < |b| && a[..n] == b[..n] && a[n] == ' ' && b[n] == ' '
    ensures FirstMethod(ms, a) == FirstMethod(ms, b)
  {
    hide MethodName;
    if ms != [] {
      var name := MethodName(ms[0]);
      NamesHaveNoBlank(ms[0]);
      SamePrefix(a, b, n, name);
      SameMethod(ms[1..], a, b, n);
    }
  }

  lemma SamePrefix(a: Text, b: Text, n: nat, name: Text)
    requires n < |a| && n < |b| && a[..n] == b[..n] && a[n] == ' ' && b[n] == ' '
    requires forall c :: c in name ==> c != ' '
    ensures StartsWith(a, name) <==> StartsWith(b, name)
  {
    if |name| > n {
      assert name[n] in name;
      PrefixAgrees(a, name, n);
      PrefixAgrees(b, name, n);
    } else {
      assert a[..|name|] == a[..n][..|name|] && b[..|name|] == b[..n][..|name|];
    }
  }

  lemma PrefixAgrees(s: Text, prefix: Text, i: nat)
    requires i < |s| && i < |prefix|
    ensures StartsWith(s, prefix) ==> s[i] == prefix[i]
  {
    if StartsWith(s, prefix) {
      assert s[..|prefix|][i] == s[i];
    }
  }

  lemma MethodIsAlike(d: Text, t: nat, u: nat, mark: nat, p: nat)
    requires mark <= p && t + p < u <= |d| && d[t + p] == ' '
    ensures CharsToMethod(Cut(d, mark + t, |d| - (mark + t))) == CharsToMethod(Cut(d[t..u], mark, u - t - mark))
  {
    hide FirstMethod;
    var a, b, n := d[mark + t..], d[t..u][mark..], p - mark;
    assert Cut(d, mark + t, |d| - (mark + t)) == a && Cut(d[t..u], mark, u - t - mark) == b;
    assert forall i :: 0 <= i <= n ==> a[i] == d[mark + t + i] && b[i] == d[mark + t + i];
    assert a[..n] == b[..n];
    SameMethod(METHODS, a, b, n);
  }

  /** One character: the same transition, the same callbacks with the same texts. */
  lemma AlikeStep(whole: Parser, m: Parser, d: Text, t: nat, u: nat, p: nat, next: nat, env: Env)
    requires t + p < u <= |d| && Open(m.cs) && Alike(whole, m, d, t, p) && SpelledOut(m.cs, d[t + p])
    requires next == Next(m.cs, d[t + p], env) && next != ERROR
    ensures !Underflows(whole, t + p, next) && !Underflows(m, p, next)
    ensures Alike(Act(whole, d, t + p, next).(cs := next), Act(m, d[t..u], p, next).(cs := next), d, t, p + 1)
  {
    hide CharsToMethod, Assign, Cut, Next, SpelledOut;
    SpelledOutNext(m.cs, d[t + p], env);
    if MarkIsLive(m.cs) {
      if next == 3 {
        MethodIsAlike(d, t, u, m.mark, p);
      } else {
        CutShifts(d, t, u, m.mark, p - m.mark);
      }
    }
    if InQuery(m.cs) {
      CutShifts(d, t, u, m.queryStart, p - m.queryStart);
    }
    if 15 <= m.cs <= 16 {
      CutShifts(d, t, u, m.fieldStart, m.fieldLen);
    }
    EmptyCut(d, t + p);
    EmptyCut(d[t..u], p);
  }

  lemma EmptyCut(d: Text, p: nat)
    requires p <= |d|
    ensures Cut(d, p, 0) == []
  {
  }

  lemma SpelledOutNext(cs: nat, c: Octet, env: Env)
    requires SpelledOut(cs, c) && Open(cs)
    ensures var next := Next(cs, c, env);
            && ((cs == 2 || 175 <= cs <= 193) && next == 3 ==> c == ' ')
            && (next == 3 ==> cs == 2 || 175 <= cs <= 193)
            && (cs == 18 && next != FINAL && next != ERROR ==> c != '\n')
            && (next == ERROR || Modelled(next))
            && (InQuery(next) ==> cs == 29 || InQuery(cs))
            && (MarkIsLive(next) ==> MarkIsLive(cs) || cs == 1 || cs == 3 || cs == 4 || cs == 15 || cs == 20)
            && (next == 14 ==> cs == 13 || cs == 14 || cs == 18)
            && (next == 18 ==> cs == 13) && (next == 16 ==> cs == 15 || cs == 16)
            && (next == 15 ==> cs == 14 || cs == 15 || cs == 18)
  {
  }

  /** The parser that has read on from p up to u, unless it finishes or fails before. */
  function Ahead(m: Parser, d: Text, p: nat, u: nat, env: Env): Parser
    requires p <= u <= |d|
    decreases u - p
  {
    if p == u || !Open(m.cs) then m
    else
      var next := Next(m.cs, d[p], env);
      if next == ERROR then m.(cs := ERROR) else Ahead(Act(m, d, p, next).(cs := next), d, p + 1, u, env)
  }

  /** One piece, read as a part of the whole. */
  lemma {:induction false} AlikeRun(whole: Parser, m: Parser, d: Text, t: nat, u: nat, p: nat, env: Env)
    returns (after: Parser)
    requires t + p <= u <= |d| && Open(m.cs) && Alike(whole, m, d, t, p) && OriginForm(m.cs, d[t + p..], env)
    ensures var r := Run(m, d[t..u], p, env);
            && r.Stopped? && after.cs == r.parser.cs && after.req == r.parser.req && after.error == r.parser.error
            && after == Ahead(whole, d, t + p, u, env)
            && (if Open(r.parser.cs) then r.used == u - t && Run(whole, d, t + p, env) == Run(after, d, u, env)
                                          && OriginForm(after.cs, d[u..], env) && Alike(after, r.parser, d, t, u - t)
                else Run(whole, d, t + p, env) == Stopped(after, t + r.used))
    decreases u - t - p
  {
    hide Next, Act, Underflows, Alike, SpelledOut;
    assert whole.cs == m.cs && whole.req == m.req && whole.error == m.error by { AlikeMeans(whole, m, d, t, p); }
    if t + p == u {
      after := whole;
    } else {
      var piece := d[t..u];
      assert piece[p] == d[t + p] == d[t + p..][0] && d[t + p..][1..] == d[t + p + 1..];
      var next := Next(m.cs, d[t + p], env);
      if next == ERROR {
        after := whole.(cs := ERROR);
      } else {
        AlikeStep(whole, m, d, t, u, p, next, env);
        var wholeNext, mNext := Act(whole, d, t + p, next).(cs := next), Act(m, piece, p, next).(cs := next);
        if next >= FINAL {
          AlikeMeans(wholeNext, mNext, d, t, p + 1);
          after := wholeNext;
        } else {
          after := AlikeRun(wholeNext, mNext, d, t, u, p + 1, env);
        }
      }
    }
  }

  lemma AlikeMeans(whole: Parser, m: Parser, d: Text, t: nat, p: nat)
    requires Alike(whole, m, d, t, p)
    ensures whole.cs == m.cs && whole.req == m.req && whole.error == m.error
  {
  }

  /** Between parts nothing recorded is needed any more. */
  lemma AlikeAtCut(whole: Parser, m: Parser, d: Text, t: nat)
    requires t <= |d| && whole.cs == m.cs && whole.req == m.req && whole.error == m.error && BetweenParts(m.cs, d[t..])
    ensures Alike(whole, Restarted(m), d, t, 0)
  {
    assert d[t..] != [] ==> d[t..][0] == d[t];
  }

  lemma {:induction false} AlikeFeed(whole: Parser, m: Parser, d: Text, t: nat, pieces: seq<Text>, env: Env)
    requires whole.cs == m.cs && whole.req == m.req && whole.error == m.error && Open(m.cs)
    requires t <= |d| && d[t..] == Concatenated(pieces) && forall s :: s in pieces ==> s != []
    requires CutBetweenParts(m.cs, pieces, env) && OriginForm(m.cs, d[t..], env)
    ensures var f, w := Feed(m, pieces, env), Run(whole, d, t, env);
            && f.Stopped? && w.Stopped? && w.used == t + f.used
            && w.parser.cs == f.parser.cs && w.parser.req == f.parser.req && w.parser.error == f.parser.error
    decreases |pieces|
  {
    hide Run, OriginForm, Executed, BetweenParts;
    if pieces == [] {
      NothingLeft(whole, d, t, env);
    } else {
      var piece, rest := pieces[0], pieces[1..];
      assert piece in pieces && forall s :: s in rest ==> s in pieces;
      var u := t + |piece|;
      assert d[t..u] == d[t..][..|piece|] == piece && d[u..] == d[t..][|piece|..] == Concatenated(rest);
      assert BetweenParts(m.cs, d[t..]) by { SameBegin(m.cs, piece, d[t..]); }
      AlikeAtCut(whole, m, d, t);
      var after := AlikeRun(whole, Restarted(m), d, t, u, 0, env);
      ConsumedIsExecuted(m, piece, env);
      if Open(after.cs) {
        AlikeFeed(after, Consumed(m, piece, env).parser, d, u, rest, env);
      }
    }
  }

  lemma NothingLeft(m: Parser, d: Text, t: nat, env: Env)
    requires t <= |d| && d[t..] == []
    ensures Run(m, d, t, env) == Stopped(m, t)
  {
  }

  lemma SameBegin(cs: nat, piece: Text, d: Text)
    requires piece != [] && |piece| <= |d| && d[..|piece|] == piece && BetweenParts(cs, piece)
    ensures BetweenParts(cs, d)
  {
    assert d[0] == d[..|piece|][0];
  }

  /**
   A head in origin form that is cut only between its parts is parsed, piece by
   piece, to the same request, with the same error if any, as in one call.
   */
  lemma CutBetweenPartsDoesNotMatter(pieces: seq<Text>, env: Env)
    requires forall s :: s in pieces ==> s != []
    requires CutBetweenParts(START, pieces, env) && OriginForm(START, Concatenated(pieces), env)
    ensures var f, w := Feed(FRESH, pieces, env), Consumed(FRESH, Concatenated(pieces), env);
            && f.Stopped? && w.Stopped? && w.used == f.used
            && w.parser.cs == f.parser.cs && w.parser.req == f.parser.req && w.parser.error == f.parser.error
  {
    hide Run, OriginForm, CutBetweenParts, Feed;
    var d := Concatenated(pieces);
    assert d[0..] == d;
    AlikeFeed(FRESH, FRESH, d, 0, pieces, env);
    if d == [] { NothingLeft(FRESH, d, 0, env); }
  }
}
