/**
 What a cut inside a part of the head does.  Together with HttpCuts this says,
 for one cut, exactly when the parsed request is the one of a single call.
 */
module HttpInnerCuts {
  import opened Wrappers
  import opened UrlCodec
  import opened Forms
  import opened HttpMachine
  import opened HttpRequests
  import opened HttpParsers
  import opened HttpCuts

  // ------------------------------------------------------------ unambiguous heads

  predicate EndsField(cs: nat, next: nat) { (cs == 15 || cs == 16) && (next == 13 || next == 17) }

  /** The method is spelled in full, with nothing behind it; the header is not there yet. */
  ghost predicate StepIsPlain(m: Parser, d: Text, p: nat, next: nat) {
    && (InMethod(m.cs) && next == 3 ==>
          exists v :: CharsToMethod(Cut(d, m.mark, |d| - m.mark)) == Some(v)
              && Cut(d, m.mark, p - m.mark) == MethodName(v))
    && (EndsField(m.cs, next) ==> Fold(Cut(d, m.fieldStart, m.fieldLen)) !in m.req.headers)
  }

  /** No header comes twice, and the method is one of the table. */
  ghost predicate Plain(m: Parser, d: Text, p: nat, env: Env)
    requires p <= |d|
    decreases |d| - p
  {
    p == |d| || !Open(m.cs)
    || (var next := Next(m.cs, d[p], env);
        next == ERROR || (StepIsPlain(m, d, p, next) && Plain(Act(m, d, p, next).(cs := next), d, p + 1, env)))
  }

  // ---------------------------------------------------------------- lasting harm

  /** The piece of the data that begins at `t`. */
  predicate PieceAt(d: Text, t: nat, buf: Text) {
    t + |buf| <= |d| && forall i :: 0 <= i < |buf| ==> buf[i] == d[t + i]
  }

  predicate BehindMethod(cs: nat) { cs == 3 || 4 <= cs <= 18 || 20 <= cs <= 23 || 26 <= cs <= 33 || cs == FINAL }

  predicate BehindPath(cs: nat) { 4 <= cs <= 18 || 20 <= cs <= 23 || 29 <= cs <= 32 || cs == FINAL }

  predicate BehindQuery(cs: nat) { 4 <= cs <= 18 || 20 <= cs <= 23 || cs == FINAL }

  predicate BehindTarget(cs: nat) { 4 <= cs <= 18 || cs == FINAL }

  predicate BehindVersion(cs: nat) { 13 <= cs <= 18 || cs == FINAL }

  /** A part that is over came out otherwise. */
  predicate PartDiffers(whole: Parser, m: Parser) {
    || m.error != 0
    || (BehindMethod(m.cs) && m.req.verb != whole.req.verb)
    || (BehindPath(m.cs) && m.req.path != whole.req.path)
    || (BehindQuery(m.cs) && m.req.query != whole.req.query)
    || (BehindTarget(m.cs) && m.req.fragment != whole.req.fragment)
    || (BehindVersion(m.cs) && m.req.version != whole.req.version)
  }

  /** The beginning of this part was in an earlier call. */
  predicate PartIsCut(whole: Parser, m: Parser, t: nat) {
    || ((InMethod(m.cs) || InPath(m.cs) || InFragment(m.cs)) && whole.mark < t && m.mark == 0)
    || (InQuery(m.cs) && whole.queryStart < t + m.queryStart)
  }

  /** No NUL, where the comparison of names would stop. */
  predicate Clean(d: Text, from: nat, to: int) { forall i :: from <= i < to && i < |d| ==> d[i] != '\0' }

  /**
   What is known of the headers stored so far: they are the same, or `k` is
   missing, and among names as long as `k` no others are stored.
   */
  ghost predicate Headers(k: Option<Text>, whole: Table, mine: Table) {
    match k
    case None => mine == whole
    case Some(x) => x in whole && x !in mine && forall y :: y in mine && |y| >= |x| ==> y in whole
  }

  /** The beginning of this header's name was in an earlier call. */
  predicate NameIsCut(whole: Parser, m: Parser, d: Text, t: nat, buf: Text, p: nat) {
    && m.fieldStart == 0
    && (m.cs == 14 || m.cs == 18 ==> whole.fieldStart < t && Clean(d, whole.fieldStart, t + p))
    && (m.cs == 18 ==> p == 0 && buf != [] && buf[0] != '\n')
    && (m.cs == 15 || m.cs == 16 ==> m.fieldLen == 0 || LengthIsCut(whole, m, d, t, p))
    && 14 <= m.cs <= 18 && m.cs != 17
  }

  predicate LengthIsCut(whole: Parser, m: Parser, d: Text, t: nat, p: nat) {
    && 0 < m.fieldLen < whole.fieldLen && m.fieldLen <= p && whole.fieldStart + whole.fieldLen <= t + p
    && Clean(d, whole.fieldStart, whole.fieldStart + whole.fieldLen)
    && whole.fieldStart + whole.fieldLen == t + m.fieldLen
  }

  /** The name that is being read, or was read in this line, is the same. */
  predicate NameIsSame(whole: Parser, m: Parser, d: Text, t: nat, p: nat) {
    && (NameIsLive(m.cs, d, t + p) ==> whole.fieldStart == m.fieldStart + t && m.fieldStart < p)
    && (15 <= m.cs <= 16 ==> whole.fieldLen == m.fieldLen && 0 <= m.fieldLen && m.fieldStart + m.fieldLen <= p)
  }

  ghost predicate HeaderIsHurt(k: Option<Text>, whole: Parser, m: Parser, d: Text, t: nat, buf: Text, p: nat) {
    && (13 <= m.cs <= 18 || m.cs == FINAL) && Headers(k, whole.req.headers, m.req.headers)
    && (NameIsCut(whole, m, d, t, buf, p) || (k.Some? && NameIsSame(whole, m, d, t, p)))
  }

  ghost predicate Damaged(whole: Parser, m: Parser, d: Text, t: nat, buf: Text, p: nat) {
    && whole.cs == m.cs
    && (PartDiffers(whole, m) || PartIsCut(whole, m, t) || exists k :: HeaderIsHurt(k, whole, m, d, t, buf, p))
  }

  lemma Onward(cs: nat, c: Octet, env: Env)
    requires SpelledOut(cs, c) && Open(cs) && Next(cs, c, env) != ERROR
    ensures var next := Next(cs, c, env);
            && (BehindMethod(cs) ==> BehindMethod(next) && next != 3)
            && (BehindPath(cs) ==> BehindPath(next)) && (BehindQuery(cs) ==> BehindQuery(next))
            && (BehindTarget(cs) ==> BehindTarget(next)) && (BehindVersion(cs) ==> BehindVersion(next))
            && (InMethod(cs) && !InMethod(next) ==> next == 3 && c == ' ')
            && (InPath(cs) && !InPath(next) ==> (cs == 26 || cs == 33) && (next == 4 || next == 20 || next == 29))
            && (InQuery(cs) && !InQuery(next) ==> cs == 30 && (next == 4 || next == 20))
            && (InFragment(cs) && !InFragment(next) ==> cs == 21 && next == 4)
            && (InVersion(cs) ==> if cs == 12 then next == 13 || next == 17 else next == cs + 1)
            && (cs == 14 ==> next == 14 || next == 15)
            && (cs == 18 && c != '\n' ==> next == 14 || next == 15)
            && (cs == 15 || cs == 16 ==> next == 15 || next == 16 || next == 13 || next == 17)
            && (cs == 16 ==> next != 15)
            && (5 <= cs <= 11 ==> c != 'H')
  {
  }

  lemma PartStays(whole: Parser, m: Parser, d: Text, buf: Text, q: nat, p: nat, env: Env)
    requires whole.cs == m.cs && PartDiffers(whole, m) && Open(m.cs) && q < |d| && SpelledOut(m.cs, d[q])
    requires Next(m.cs, d[q], env) != ERROR
    ensures var next := Next(m.cs, d[q], env);
            PartDiffers(Act(whole, d, q, next).(cs := next), Act(m, buf, p, next).(cs := next))
  {
    hide Next, Cut, Assign, CharsToMethod, SpelledOut;
    Onward(m.cs, d[q], env);
  }

  // ------------------------------------------------------------------ every step

  lemma {:induction false} FoundBegins(ms: seq<Method>, s: Text, v: Method)
    requires FirstMethod(ms, s) == Some(v)
    ensures StartsWith(s, MethodName(v))
  {
    hide MethodName, StartsWith;
    if ms != [] && !StartsWith(s, MethodName(ms[0])) { FoundBegins(ms[1..], s, v); }
  }

  /** A method without its beginning is another one, or none. */
  lemma MethodDiffers(buf: Text, p: nat, v: Method)
    requires p < |buf| && buf[p] == ' ' && p < |MethodName(v)|
    ensures CharsToMethod(buf) != Some(v)
  {
    hide FirstMethod, MethodName;
    if CharsToMethod(buf) == Some(v) {
      FoundBegins(METHODS, buf, v);
      var name := MethodName(v);
      assert buf[..|name|][p] == name[p] == ' ' && name[p] in name;
      NamesHaveNoBlank(v);
    }
  }

  /** The harm after one character, with `next` the state behind it. */
  ghost predicate DamagedAfter(whole: Parser, m: Parser, d: Text, t: nat, buf: Text, p: nat, next: nat) {
    Damaged(Act(whole, d, t + p, next).(cs := next), Act(m, buf, p, next).(cs := next), d, t, buf, p + 1)
  }

  ghost predicate Stepping(whole: Parser, m: Parser, d: Text, t: nat, buf: Text, p: nat, next: nat, env: Env) {
    && whole.cs == m.cs && Open(m.cs) && PieceAt(d, t, buf) && p < |buf| && t > 0
    && SpelledOut(m.cs, d[t + p]) && next == Next(m.cs, d[t + p], env) && next != ERROR
    && StepIsPlain(whole, d, t + p, next)
  }

  lemma CutMethodStep(whole: Parser, m: Parser, d: Text, t: nat, buf: Text, p: nat, next: nat, env: Env)
    requires Stepping(whole, m, d, t, buf, p, next, env) && InMethod(m.cs) && whole.mark < t && m.mark == 0
    ensures DamagedAfter(whole, m, d, t, buf, p, next)
  {
    hide Next, CharsToMethod, SpelledOut, Assign, Cut, MethodName;
    Onward(m.cs, d[t + p], env);
    if next == 3 {
      var v :| CharsToMethod(Cut(d, whole.mark, |d| - whole.mark)) == Some(v)
          && Cut(d, whole.mark, t + p - whole.mark) == MethodName(v);
      LengthOfCut(d, whole.mark, t + p - whole.mark);
      MethodDiffers(buf, p, v);
      AllOf(buf);
      OtherMethod(whole, m, d, buf, v);
    }
  }

  lemma AllOf(buf: Text)
    ensures Cut(buf, 0, |buf|) == buf
  {
  }

  lemma OtherMethod(whole: Parser, m: Parser, d: Text, buf: Text, v: Method)
    requires CharsToMethod(Cut(d, whole.mark, |d| - whole.mark)) == Some(v)
    requires CharsToMethod(Cut(buf, m.mark, |buf| - m.mark)) != Some(v)
    ensures var w := OnMethod(whole, Cut(d, whole.mark, |d| - whole.mark));
            var c := OnMethod(m, Cut(buf, m.mark, |buf| - m.mark));
            c.error != 0 || c.req.verb != w.req.verb
  {
    hide CharsToMethod, Cut;
  }

  lemma LengthOfCut(s: Text, from: nat, len: nat)
    requires from + len <= |s|
    ensures |Cut(s, from, len)| == len
  {
  }

  lemma CutTargetStep(whole: Parser, m: Parser, d: Text, t: nat, buf: Text, p: nat, next: nat, env: Env)
    requires Stepping(whole, m, d, t, buf, p, next, env)
    requires (InPath(m.cs) || InFragment(m.cs)) && whole.mark < t && m.mark == 0
    ensures DamagedAfter(whole, m, d, t, buf, p, next)
  {
    hide Next, CharsToMethod, SpelledOut, Assign, Cut;
    Onward(m.cs, d[t + p], env);
    LengthOfCut(d, whole.mark, t + p - whole.mark);
    LengthOfCut(buf, 0, p);
  }

  lemma CutQueryStep(whole: Parser, m: Parser, d: Text, t: nat, buf: Text, p: nat, next: nat, env: Env)
    requires Stepping(whole, m, d, t, buf, p, next, env)
    requires InQuery(m.cs) && whole.queryStart < t + m.queryStart && !Underflows(m, p, next)
    ensures DamagedAfter(whole, m, d, t, buf, p, next)
  {
    hide Next, CharsToMethod, SpelledOut, Assign, Cut;
    Onward(m.cs, d[t + p], env);
    if !InQuery(next) {
      LengthOfCut(d, whole.queryStart, t + p - whole.queryStart);
      LengthOfCut(buf, m.queryStart, p - m.queryStart);
    }
  }

  lemma CutNameStep(k: Option<Text>, whole: Parser, m: Parser, d: Text, t: nat, buf: Text, p: nat, next: nat, env: Env)
    requires Stepping(whole, m, d, t, buf, p, next, env) && (m.cs == 14 || m.cs == 18)
    requires NameIsCut(whole, m, d, t, buf, p) && Headers(k, whole.req.headers, m.req.headers)
    ensures DamagedAfter(whole, m, d, t, buf, p, next)
  {
    hide CharsToMethod, SpelledOut, Assign, Cut, Headers;
    Onward(m.cs, d[t + p], env);
    var w, c := Act(whole, d, t + p, next).(cs := next), Act(m, buf, p, next).(cs := next);
    assert HeaderIsHurt(k, w, c, d, t, buf, p + 1);
  }

  lemma {:induction false} FoldLength(s: Text)
    requires forall i :: 0 <= i < |s| ==> s[i] != '\0'
    ensures |Fold(s)| == |s|
  {
    if s != [] { FoldLength(s[1..]); }
  }

  lemma NamesDiffer(d: Text, from: nat, len: nat, t: nat, buf: Text, short: nat)
    requires PieceAt(d, t, buf) && short <= |buf| && short < len && from + len == t + short && from + len <= |d|
    requires Clean(d, from, from + len)
    ensures |Fold(Cut(buf, 0, short))| < |Fold(Cut(d, from, len))|
  {
    var name, rest := Cut(d, from, len), Cut(buf, 0, short);
    assert forall i :: 0 <= i < len ==> name[i] == d[from + i];
    assert forall i :: 0 <= i < short ==> rest[i] == d[t + i];
    FoldLength(name);
    FoldLength(rest);
  }

  /** A name that is stored without its beginning: it, or a longer one lost before, stays missing. */
  lemma StoreCut(k: Option<Text>, whole: Table, mine: Table, name: Text, rest: Text, v: Text, u: Text)
    returns (lost: Text)
    requires Headers(k, whole, mine) && Fold(name) !in whole && |Fold(rest)| < |Fold(name)|
    ensures Headers(Some(lost), Assign(whole, name, v), Assign(mine, rest, u))
  {
    hide Fold;
    lost := if k.Some? && |k.value| >= |Fold(name)| then k.value else Fold(name);
  }

  lemma StoreSame(k: Text, whole: Table, mine: Table, name: Text, v: Text, u: Text)
    requires Headers(Some(k), whole, mine) && Fold(name) !in whole
    ensures Headers(Some(k), Assign(whole, name, v), Assign(mine, name, u))
  {
    hide Fold;
  }

  lemma CutLineStep(k: Option<Text>, whole: Parser, m: Parser, d: Text, t: nat, buf: Text, p: nat, next: nat, env: Env)
    requires Stepping(whole, m, d, t, buf, p, next, env) && (m.cs == 15 || m.cs == 16)
    requires NameIsCut(whole, m, d, t, buf, p) && Headers(k, whole.req.headers, m.req.headers)
    ensures DamagedAfter(whole, m, d, t, buf, p, next)
  {
    hide CharsToMethod, SpelledOut, Cut, Next, Fold, Clean, Headers, Assign;
    Onward(m.cs, d[t + p], env);
    var w, c := Act(whole, d, t + p, next).(cs := next), Act(m, buf, p, next).(cs := next);
    if next != 13 && next != 17 {
      assert HeaderIsHurt(k, w, c, d, t, buf, p + 1);
    } else if m.fieldLen == 0 {
      LengthOfCut(buf, 0, 0);
    } else {
      var v := if m.cs == 15 then [] else Cut(d, whole.mark, t + p - whole.mark);
      var u := if m.cs == 15 then [] else Cut(buf, m.mark, p - m.mark);
      var lost := LostHere(k, whole, m, d, t, buf, p, v, u);
      assert HeaderIsHurt(Some(lost), w, c, d, t, buf, p + 1);
    }
  }

  /** The header that this line stores under a shorter name. */
  lemma LostHere(k: Option<Text>, whole: Parser, m: Parser, d: Text, t: nat, buf: Text, p: nat, v: Text, u: Text)
    returns (lost: Text)
    requires PieceAt(d, t, buf) && p < |buf| && LengthIsCut(whole, m, d, t, p)
    requires Headers(k, whole.req.headers, m.req.headers)
    requires Fold(Cut(d, whole.fieldStart, whole.fieldLen)) !in whole.req.headers
    ensures var name, rest := Cut(d, whole.fieldStart, whole.fieldLen), Cut(buf, 0, m.fieldLen);
            && name != [] && rest != []
            && Headers(Some(lost), Assign(whole.req.headers, name, v), Assign(m.req.headers, rest, u))
  {
    hide Cut, Fold, Headers, Assign;
    NamesDiffer(d, whole.fieldStart, whole.fieldLen, t, buf, m.fieldLen);
    LengthOfCut(d, whole.fieldStart, whole.fieldLen);
    LengthOfCut(buf, 0, m.fieldLen);
    var name, rest := Cut(d, whole.fieldStart, whole.fieldLen), Cut(buf, 0, m.fieldLen);
    lost := StoreCut(k, whole.req.headers, m.req.headers, name, rest, v, u);
  }

  lemma PartCut(d: Text, t: nat, buf: Text, from: nat, len: nat)
    requires PieceAt(d, t, buf) && from + len <= |buf|
    ensures Cut(d, from + t, len) == Cut(buf, from, len)
  {
  }

  lemma LostStays(k: Text, whole: Parser, m: Parser, d: Text, t: nat, buf: Text, p: nat, next: nat, env: Env)
    requires Stepping(whole, m, d, t, buf, p, next, env) && 13 <= m.cs <= 18
    requires Headers(Some(k), whole.req.headers, m.req.headers) && NameIsSame(whole, m, d, t, p)
    ensures DamagedAfter(whole, m, d, t, buf, p, next)
  {
    hide CharsToMethod, SpelledOut, Cut, Fold, Headers, Assign;
    var w, c := Act(whole, d, t + p, next).(cs := next), Act(m, buf, p, next).(cs := next);
    if EndsField(m.cs, next) {
      PartCut(d, t, buf, m.fieldStart, m.fieldLen);
      var name := Cut(buf, m.fieldStart, m.fieldLen);
      var v := if m.cs == 15 then [] else Cut(d, whole.mark, t + p - whole.mark);
      var u := if m.cs == 15 then [] else Cut(buf, m.mark, p - m.mark);
      StoreSame(k, whole.req.headers, m.req.headers, name, v, u);
    }
    assert c.error != 0 || HeaderIsHurt(Some(k), w, c, d, t, buf, p + 1);
  }

  lemma HurtStep(k: Option<Text>, whole: Parser, m: Parser, d: Text, t: nat, buf: Text, p: nat, next: nat, env: Env)
    requires Stepping(whole, m, d, t, buf, p, next, env) && HeaderIsHurt(k, whole, m, d, t, buf, p)
    ensures DamagedAfter(whole, m, d, t, buf, p, next)
  {
    hide Act, Next, SpelledOut, StepIsPlain, Headers, NameIsSame, LengthIsCut, Clean;
    if !NameIsCut(whole, m, d, t, buf, p) {
      LostStays(k.value, whole, m, d, t, buf, p, next, env);
    } else if m.cs == 14 || m.cs == 18 {
      CutNameStep(k, whole, m, d, t, buf, p, next, env);
    } else {
      CutLineStep(k, whole, m, d, t, buf, p, next, env);
    }
  }

  lemma DamageStep(whole: Parser, m: Parser, d: Text, t: nat, buf: Text, p: nat, next: nat, env: Env)
    requires Stepping(whole, m, d, t, buf, p, next, env) && Damaged(whole, m, d, t, buf, p) && !Underflows(m, p, next)
    ensures DamagedAfter(whole, m, d, t, buf, p, next)
  {
    hide Act, Next, SpelledOut, PartDiffers, HeaderIsHurt, StepIsPlain;
    if PartDiffers(whole, m) {
      PartStays(whole, m, d, buf, t + p, p, env);
    } else if PartIsCut(whole, m, t) {
      if InMethod(m.cs) { CutMethodStep(whole, m, d, t, buf, p, next, env); }
      else if InQuery(m.cs) { CutQueryStep(whole, m, d, t, buf, p, next, env); }
      else { CutTargetStep(whole, m, d, t, buf, p, next, env); }
    } else {
      var k :| HeaderIsHurt(k, whole, m, d, t, buf, p);
      HurtStep(k, whole, m, d, t, buf, p, next, env);
    }
  }

  /** Behind the head every harm shows. */
  lemma DamageShows(whole: Parser, m: Parser, d: Text, t: nat, buf: Text, p: nat)
    requires Damaged(whole, m, d, t, buf, p) && m.cs == FINAL
    ensures m.error != 0 || m.req != whole.req
  {
  }

  lemma DamagedMeans(whole: Parser, m: Parser, d: Text, t: nat, buf: Text, p: nat)
    requires Damaged(whole, m, d, t, buf, p)
    ensures whole.cs == m.cs
  {
  }

  // --------------------------------------------------------------- a good head

  predicate NameIsClean(m: Parser, d: Text, p: nat) { m.cs == 14 || m.cs == 18 ==> Clean(d, m.fieldStart, p) }

  /** From byte `q` on the head is in origin form, plain, and read to its end without an error. */
  ghost predicate GoodFrom(whole: Parser, d: Text, q: nat, env: Env) {
    && q <= |d| && Open(whole.cs) && NameIsClean(whole, d, q)
    && OriginForm(whole.cs, d[q..], env) && Plain(whole, d, q, env)
    && (var w := Run(whole, d, q, env); w.Stopped? && w.parser.cs == FINAL && w.parser.error == 0)
  }

  lemma CleanStep(m: Parser, d: Text, p: nat, next: nat, env: Env)
    requires p < |d| && Open(m.cs) && SpelledOut(m.cs, d[p]) && next == Next(m.cs, d[p], env) && next != ERROR
    requires NameIsClean(m, d, p)
    ensures NameIsClean(Act(m, d, p, next).(cs := next), d, p + 1)
  {
    hide Cut, Assign, CharsToMethod;
    SpelledOutNext(m.cs, d[p], env);
  }

  lemma GoodStep(whole: Parser, d: Text, q: nat, env: Env)
    requires GoodFrom(whole, d, q, env)
    ensures q < |d| && SpelledOut(whole.cs, d[q])
    ensures var next := Next(whole.cs, d[q], env);
            var after := Act(whole, d, q, next).(cs := next);
            && next != ERROR && StepIsPlain(whole, d, q, next) && next <= FINAL
            && (if next == FINAL then Run(whole, d, q, env) == Stopped(after, q + 1)
                else GoodFrom(after, d, q + 1, env) && Run(whole, d, q, env) == Run(after, d, q + 1, env))
  {
    hide Next, Act, SpelledOut, NameIsClean, Underflows, StepIsPlain;
    if q < |d| {
      assert d[q] == d[q..][0] && d[q..][1..] == d[q + 1..];
      var next := Next(whole.cs, d[q], env);
      SpelledOutFinal(whole.cs, d[q], env);
      if next != ERROR { CleanStep(whole, d, q, next, env); }
    }
  }

  lemma SpelledOutFinal(cs: nat, c: Octet, env: Env)
    requires SpelledOut(cs, c) && Open(cs)
    ensures Next(cs, c, env) <= FINAL
  {
  }

  lemma {:induction false} GoodAhead(whole: Parser, d: Text, q: nat, u: nat, env: Env)
    requires GoodFrom(whole, d, q, env) && q <= u <= |d|
    ensures var after, w := Ahead(whole, d, q, u, env), Run(whole, d, q, env);
            if Open(after.cs) then GoodFrom(after, d, u, env) && w == Run(after, d, u, env)
            else w.parser == after && w.used <= u
    decreases u - q
  {
    hide Next, Act, GoodFrom, SpelledOut, StepIsPlain;
    assert Open(whole.cs) by { GoodIsOpen(whole, d, q, env); }
    if q < u {
      GoodStep(whole, d, q, env);
      var next := Next(whole.cs, d[q], env);
      if next < FINAL { GoodAhead(Act(whole, d, q, next).(cs := next), d, q + 1, u, env); }
    }
  }

  lemma GoodIsOpen(whole: Parser, d: Text, q: nat, env: Env)
    requires GoodFrom(whole, d, q, env)
    ensures Open(whole.cs)
  {
  }

  /** The rest of a piece, read with damage: it still shows at the end of the piece, or of the head. */
  lemma {:induction false} DamageRun(whole: Parser, m: Parser, d: Text, t: nat, buf: Text, p: nat, env: Env)
    requires t > 0 && PieceAt(d, t, buf) && p <= |buf| && Damaged(whole, m, d, t, buf, p)
    requires GoodFrom(whole, d, t + p, env)
    ensures var r, w := Run(m, buf, p, env), Run(whole, d, t + p, env);
            var after := Ahead(whole, d, t + p, t + |buf|, env);
            r.Stopped? ==>
              if Open(r.parser.cs) then r.used == |buf| && Open(after.cs) && Damaged(after, r.parser, d, t, buf, |buf|)
              else r.parser.error != 0 || r.parser.req != w.parser.req
    decreases |buf| - p
  {
    hide Next, Act, SpelledOut, Damaged, Underflows, StepIsPlain, GoodFrom;
    DamagedMeans(whole, m, d, t, buf, p);
    GoodIsOpen(whole, d, t + p, env);
    if p < |buf| {
      GoodStep(whole, d, t + p, env);
      var next := Next(m.cs, d[t + p], env);
      if !Underflows(m, p, next) {
        DamageStep(whole, m, d, t, buf, p, next, env);
        var w, c := Act(whole, d, t + p, next).(cs := next), Act(m, buf, p, next).(cs := next);
        if next == FINAL { DamageShows(w, c, d, t, buf, p + 1); } else { DamageRun(w, c, d, t, buf, p + 1, env); }
      }
    }
  }

  // -------------------------------------------------------------------- at a cut

  /** So far everything has come out the same; the part that is being read has begun before `u`. */
  predicate Level(whole: Parser, m: Parser, d: Text, u: nat) {
    && whole.cs == m.cs && whole.req == m.req && whole.error == m.error
    && (InMethod(m.cs) || InPath(m.cs) || InFragment(m.cs) ==> whole.mark < u)
    && (InQuery(m.cs) ==> whole.queryStart < u + m.queryStart)
    && (NameIsLive(m.cs, d, u) ==> whole.fieldStart < u)
  }

  lemma LevelAfterPiece(whole: Parser, m: Parser, d: Text, t: nat, u: nat)
    requires t < u && Alike(whole, m, d, t, u - t)
    ensures Level(whole, m, d, u)
  {
  }

  lemma HarmedAtCut(whole: Parser, m: Parser, d: Text, u: nat, buf: Text)
    requires Level(whole, m, d, u) && Modelled(m.cs) && Open(m.cs) && !InVersion(m.cs) && NameIsClean(whole, d, u)
    requires buf != [] && PieceAt(d, u, buf) && !BetweenParts(m.cs, buf)
    ensures Damaged(whole, Restarted(m), d, u, buf, 0)
  {
    hide Clean;
    if 14 <= m.cs <= 18 {
      assert HeaderIsHurt(None, whole, Restarted(m), d, u, buf, 0);
    }
  }

  /** Damage goes over into the next call. */
  lemma DamageAcross(whole: Parser, m: Parser, d: Text, t: nat, buf: Text, u: nat, more: Text)
    requires Damaged(whole, m, d, t, buf, |buf|) && buf != [] && u == t + |buf| && NameIsClean(whole, d, u)
    requires more != [] && PieceAt(d, u, more)
    ensures Damaged(whole, Restarted(m), d, u, more, 0)
  {
    hide Clean, Headers, LengthIsCut, PartDiffers;
    if PartDiffers(whole, m) {
      RestartKeeps(whole, m);
    } else if !PartIsCut(whole, m, t) {
      var k :| HeaderIsHurt(k, whole, m, d, t, buf, |buf|);
      assert HeaderIsHurt(k, whole, Restarted(m), d, u, more, 0);
    }
  }

  lemma RestartKeeps(whole: Parser, m: Parser)
    requires PartDiffers(whole, m)
    ensures PartDiffers(whole, Restarted(m))
  {
  }

  /** Only the beginning of the version is lost. */
  predicate VersionIsCut(whole: Parser, m: Parser, buf: Text, p: nat) {
    && InVersion(m.cs) && whole.cs == m.cs && whole.req == m.req && whole.error == m.error
    && m.mark == 0 && (p > 0 ==> buf != [] && buf[0] != 'H')
  }

  lemma VersionStep(whole: Parser, m: Parser, d: Text, t: nat, buf: Text, p: nat, env: Env)
    requires PieceAt(d, t, buf) && p < |buf| && m.cs < 12
    requires VersionIsCut(whole, m, buf, p) && GoodFrom(whole, d, t + p, env)
    ensures Open(whole.cs) && t + p < |d| && whole.cs == m.cs
    ensures Next(whole.cs, d[t + p], env) == whole.cs + 1 && Act(whole, d, t + p, whole.cs + 1) == whole
    ensures var w, c := whole.(cs := whole.cs + 1), m.(cs := m.cs + 1);
            && VersionIsCut(w, c, buf, p + 1) && GoodFrom(w, d, t + p + 1, env)
            && Run(whole, d, t + p, env) == Run(w, d, t + p + 1, env) && Run(m, buf, p, env) == Run(c, buf, p + 1, env)
  {
    hide Next, SpelledOut, GoodFrom, StepIsPlain;
    GoodStep(whole, d, t + p, env);
    Onward(m.cs, d[t + p], env);
  }

  /** On through the version, up to `q`. */
  lemma {:induction false} ThroughVersion(whole: Parser, m: Parser, d: Text, t: nat, buf: Text, p: nat, q: nat,
          env: Env)
    requires PieceAt(d, t, buf) && p <= q <= |buf| && m.cs + (q - p) <= 12
    requires VersionIsCut(whole, m, buf, p) && GoodFrom(whole, d, t + p, env)
    ensures var w, c := whole.(cs := whole.cs + (q - p)), m.(cs := m.cs + (q - p));
            && VersionIsCut(w, c, buf, q) && GoodFrom(w, d, t + q, env)
            && Run(whole, d, t + p, env) == Run(w, d, t + q, env) && Run(m, buf, p, env) == Run(c, buf, q, env)
            && Ahead(whole, d, t + p, t + q, env) == w
    decreases q - p
  {
    hide Next, Act, Run, GoodFrom, VersionIsCut, InVersion;
    if p < q {
      VersionStep(whole, m, d, t, buf, p, env);
      ThroughVersion(whole.(cs := whole.cs + 1), m.(cs := m.cs + 1), d, t, buf, p + 1, q, env);
    }
  }

  /** The end of the version: no text passes for HTTP/1.1, and what has lost its 'H' passes for nothing. */
  lemma VersionEnds(whole: Parser, m: Parser, d: Text, t: nat, buf: Text, p: nat, env: Env)
    returns (w: Parser, c: Parser)
    requires PieceAt(d, t, buf) && p < |buf| && m.cs == 12 && VersionIsCut(whole, m, buf, p)
    requires GoodFrom(whole, d, t + p, env)
    requires m.fieldStart == 0 && m.fieldLen == 0
    ensures (w.cs == 13 || w.cs == 17) && w.cs == c.cs && GoodFrom(w, d, t + p + 1, env)
    ensures w == Ahead(whole, d, t + p, t + p + 1, env)
    ensures Run(whole, d, t + p, env) == Run(w, d, t + p + 1, env) && Run(m, buf, p, env) == Run(c, buf, p + 1, env)
    ensures if p == 0 && Run(whole, d, t, env).parser.req.version == 0x11 then Alike(w, c, d, t, p + 1)
            else Damaged(w, c, d, t, buf, p + 1)
  {
    hide Next, SpelledOut, GoodFrom, StepIsPlain, Run, Alike, Damaged, Cut;
    GoodStep(whole, d, t + p, env);
    Onward(12, d[t + p], env);
    var next := Next(12, d[t + p], env);
    w, c := Act(whole, d, t + p, next).(cs := next), Act(m, buf, p, next).(cs := next);
    OneMore(whole, d, t + p, env);
    OneMore(m, buf, p, env);
    VersionOfEnd(w, d, t + p + 1, env);
    NoErrorYet(w, d, t + p + 1, env);
    if p == 0 {
      EmptyCut(buf, 0);
      if w.req.version == 0x11 {
        AlikeThere(w, c, d, t);
      } else {
        DifferentPart(w, c, d, t, buf, p + 1);
      }
    } else {
      WrongBegin(m, buf, p);
      DifferentPart(w, c, d, t, buf, p + 1);
    }
  }

  lemma WrongBegin(m: Parser, buf: Text, p: nat)
    requires 0 < p <= |buf| && buf[0] != 'H'
    ensures OnVersion(m, Cut(buf, 0, p)).error != 0
  {
    var text := Cut(buf, 0, p);
    assert text[0] == buf[0];
    assert "HTTP/1.1"[0] == "HTTP/1.0"[0] == 'H';
  }

  lemma OneMore(m: Parser, buf: Text, p: nat, env: Env)
    requires p < |buf| && m.cs == 12 && (Next(12, buf[p], env) == 13 || Next(12, buf[p], env) == 17)
    ensures var after := Act(m, buf, p, Next(12, buf[p], env)).(cs := Next(12, buf[p], env));
            && Run(m, buf, p, env) == Run(after, buf, p + 1, env) && Ahead(m, buf, p, p + 1, env) == after
  {
  }

  lemma AlikeThere(w: Parser, c: Parser, d: Text, t: nat)
    requires w.cs == c.cs && w.req == c.req && w.error == c.error && (c.cs == 13 || c.cs == 17)
    ensures Alike(w, c, d, t, 1)
  {
  }

  lemma DifferentPart(w: Parser, c: Parser, d: Text, t: nat, buf: Text, p: nat)
    requires w.cs == c.cs && PartDiffers(w, c)
    ensures Damaged(w, c, d, t, buf, p)
  {
  }

  lemma {:induction false} VersionOfEnd(whole: Parser, d: Text, q: nat, env: Env)
    requires GoodFrom(whole, d, q, env) && BehindVersion(whole.cs)
    ensures Run(whole, d, q, env).parser.req.version == whole.req.version
    decreases |d| - q
  {
    hide Cut, Assign, Next, SpelledOut, GoodFrom, StepIsPlain;
    GoodIsOpen(whole, d, q, env);
    GoodStep(whole, d, q, env);
    Onward(whole.cs, d[q], env);
    var next := Next(whole.cs, d[q], env);
    if next < FINAL { VersionOfEnd(Act(whole, d, q, next).(cs := next), d, q + 1, env); }
  }

  lemma NoErrorYet(whole: Parser, d: Text, q: nat, env: Env)
    requires GoodFrom(whole, d, q, env)
    ensures whole.error == 0
  {
    if whole.error != 0 { ErrorStays(whole, d, q, env); }
  }

  // ------------------------------------------------------------------- all cuts

  /** A cut inside the version, after which another one comes right behind it; or one that is there. */
  predicate MendedCut(cs: nat, pieces: seq<Text>, env: Env)
    decreases |pieces|
  {
    pieces != [] && InVersion(cs) && (cs == 12 || MendedCut(Executed(cs, pieces[0], env).cs, pieces[1..], env))
  }

  /** Every cut is between two parts, or is mended in an HTTP/1.1 head. */
  predicate HarmlessCuts(cs: nat, pieces: seq<Text>, http11: bool, env: Env)
    decreases |pieces|
  {
    pieces == [] || !Open(cs)
    || ((BetweenParts(cs, pieces[0]) || (http11 && MendedCut(cs, pieces, env)))
        && HarmlessCuts(Executed(cs, pieces[0], env).cs, pieces[1..], http11, env))
  }

  ghost predicate SameOutcome(f: Outcome, w: Outcome) {
    && f.Stopped? && w.Stopped? && f.used == w.used && f.parser.cs == w.parser.cs
    && f.parser.req == w.parser.req && f.parser.error == w.parser.error
  }

  /** The outcome of a parser that began at byte `u`. */
  function Shifted(f: Outcome, u: nat): Outcome {
    match f case Threw(at) => Threw(at) case Stopped(m, used) => Stopped(m, u + used)
  }

  /** The first piece from `p` on, and the others. */
  function FedOn(n: Parser, pieces: seq<Text>, p: nat, env: Env): Outcome
    requires pieces != [] && p <= |pieces[0]|
  {
    match Run(n, pieces[0], p, env)
    case Threw(at) => Threw(at)
    case Stopped(after, used) => Shifted(Feed(after, pieces[1..], env), used)
  }

  lemma FeedIsFedOn(m: Parser, pieces: seq<Text>, env: Env)
    requires Open(m.cs) && pieces != [] && pieces[0] != []
    ensures var f, g := Feed(m, pieces, env), FedOn(Restarted(m), pieces, 0, env);
            f.Stopped? == g.Stopped? && (f.Stopped? ==> f == g)
  {
    hide Run;
  }

  lemma FeedEnds(m: Parser, pieces: seq<Text>, env: Env)
    requires !Open(m.cs)
    ensures Feed(m, pieces, env) == Stopped(m, 0)
  {
  }

  /** The pieces are the data from `u` on. */
  ghost predicate PiecesFrom(d: Text, u: nat, pieces: seq<Text>) {
    && u <= |d| && d[u..] == Concatenated(pieces) && pieces != [] && forall s :: s in pieces ==> s != []
  }

  lemma NextPieces(d: Text, u: nat, pieces: seq<Text>)
    requires PiecesFrom(d, u, pieces)
    ensures pieces != []
    ensures var v := u + |pieces[0]|;
            && u < v <= |d| && pieces[0] == d[u..v] && PieceAt(d, u, pieces[0])
            && pieces[0] != [] && d[u..] != []
            && (v < |d| ==>
                  |pieces| > 1 && pieces[1] != [] && PieceAt(d, v, pieces[1]) && PiecesFrom(d, v, pieces[1..]))
  {
    var piece, rest := pieces[0], pieces[1..];
    assert piece in pieces;
    var v := u + |piece|;
    assert d[u..v] == d[u..][..|piece|] == piece;
    assert d[v..] == d[u..][|piece|..] == Concatenated(rest);
    assert forall s :: s in rest ==> s in pieces;
    if v < |d| {
      assert rest != [] && rest[0] in rest;
      assert d[v..v + |rest[0]|] == d[v..][..|rest[0]|] == rest[0];
    }
  }

  /** A damaged parser does not recover, however the rest is cut. */
  lemma {:induction false} DamageRest(whole: Parser, n: Parser, d: Text, u: nat, pieces: seq<Text>, p: nat, env: Env)
    requires PiecesFrom(d, u, pieces) && u > 0 && p <= |pieces[0]|
    requires Damaged(whole, n, d, u, pieces[0], p) && GoodFrom(whole, d, u + p, env)
    ensures !SameOutcome(Shifted(FedOn(n, pieces, p, env), u), Run(whole, d, u + p, env))
    decreases |pieces|
  {
    hide Run, Damaged, GoodFrom, Feed, PiecesFrom, Ahead;
    NextPieces(d, u, pieces);
    var piece, v := pieces[0], u + |pieces[0]|;
    DamageRun(whole, n, d, u, piece, p, env);
    GoodAhead(whole, d, u + p, v, env);
    NoErrorAtEnd(whole, d, u + p, env);
    var r := Run(n, piece, p, env);
    if r.Stopped? {
      if Open(r.parser.cs) {
        var after := Ahead(whole, d, u + p, v, env);
        GoodMeans(after, d, v, env);
        DamageAcross(after, r.parser, d, u, piece, v, pieces[1]);
        DamageRest(after, Restarted(r.parser), d, v, pieces[1..], 0, env);
        FeedIsFedOn(r.parser, pieces[1..], env);
        ShiftTwice(Feed(r.parser, pieces[1..], env), r.used, u);
      } else {
        FeedEnds(r.parser, pieces[1..], env);
      }
    }
  }

  lemma NoErrorAtEnd(whole: Parser, d: Text, q: nat, env: Env)
    requires GoodFrom(whole, d, q, env)
    ensures var w := Run(whole, d, q, env); w.Stopped? && w.parser.cs == FINAL && w.parser.error == 0
  {
  }

  lemma GoodMeans(whole: Parser, d: Text, q: nat, env: Env)
    requires GoodFrom(whole, d, q, env)
    ensures Open(whole.cs) && NameIsClean(whole, d, q) && OriginForm(whole.cs, d[q..], env) && q < |d|
    ensures Modelled(whole.cs)
  {
    GoodStep(whole, d, q, env);
    SpelledOutMeans(whole.cs, d[q]);
  }

  lemma SpelledOutMeans(cs: nat, c: Octet)
    requires SpelledOut(cs, c)
    ensures Modelled(cs)
  {
  }

  /** A parser that is level reads the rest of its piece as the whole; then it depends on the other cuts. */
  lemma {:induction false} AlikeRest(whole: Parser, n: Parser, d: Text, u: nat, pieces: seq<Text>, p: nat, env: Env)
    requires PiecesFrom(d, u, pieces) && p <= |pieces[0]|
    requires Alike(whole, n, d, u, p) && GoodFrom(whole, d, u + p, env)
    ensures var r, w := Run(n, pieces[0], p, env), Run(whole, d, u + p, env);
            r.Stopped? && (SameOutcome(Shifted(FedOn(n, pieces, p, env), u), w) <==>
                             HarmlessCuts(r.parser.cs, pieces[1..], w.parser.req.version == 0x11, env))
    decreases |pieces|, 0
  {
    hide Run, Alike, GoodFrom, Feed, PiecesFrom, HarmlessCuts, OriginForm;
    hide Level, Ahead, SameOutcome, Shifted, FedOn, Modelled;
    NextPieces(d, u, pieces);
    var v := u + |pieces[0]|;
    GoodMeans(whole, d, u + p, env);
    AlikeMeans(whole, n, d, u, p);
    var after := AlikeRun(whole, n, d, u, v, p, env);
    GoodAhead(whole, d, u + p, v, env);
    var r := Run(n, pieces[0], p, env);
    FedOnIs(n, pieces, p, r.parser, r.used, env);
    if Open(r.parser.cs) {
      GoodMeans(after, d, v, env);
      LevelAfterPiece(after, r.parser, d, u, v);
      LevelFeed(after, r.parser, d, v, pieces[1..], env);
      ShiftTwice(Feed(r.parser, pieces[1..], env), r.used, u);
    } else {
      FeedEnds(r.parser, pieces[1..], env);
      EndsSame(r.parser, r.used, u, Run(whole, d, u + p, env));
      NothingToCut(r.parser.cs, pieces[1..], Run(whole, d, u + p, env).parser.req.version == 0x11, env);
    }
  }

  lemma EndsSame(m: Parser, used: nat, u: nat, w: Outcome)
    requires w.Stopped? && w.used == u + used
    requires w.parser.cs == m.cs && w.parser.req == m.req && w.parser.error == m.error
    ensures SameOutcome(Shifted(Shifted(Stopped(m, 0), used), u), w)
  {
  }

  lemma ShiftTwice(f: Outcome, a: nat, b: nat)
    ensures Shifted(Shifted(f, a), b) == Shifted(f, b + a)
  {
  }

  lemma NothingToCut(cs: nat, pieces: seq<Text>, http11: bool, env: Env)
    requires !Open(cs)
    ensures HarmlessCuts(cs, pieces, http11, env)
  {
  }

  lemma {:induction false} LevelFeed(whole: Parser, m: Parser, d: Text, u: nat, pieces: seq<Text>, env: Env)
    requires PiecesFrom(d, u, pieces) && Level(whole, m, d, u) && GoodFrom(whole, d, u, env)
    requires m.cs != START ==> u > 0
    ensures var w := Run(whole, d, u, env);
            SameOutcome(Shifted(Feed(m, pieces, env), u), w) <==>
              HarmlessCuts(m.cs, pieces, w.parser.req.version == 0x11, env)
    decreases |pieces|, 3
  {
    hide Run, GoodFrom, Feed, PiecesFrom, BetweenParts, Damaged, Alike, Executed;
    GoodMeans(whole, d, u, env);
    NextPieces(d, u, pieces);
    FeedIsFedOn(m, pieces, env);
    var n, piece := Restarted(m), pieces[0];
    if BetweenParts(m.cs, piece) {
      assert BetweenParts(m.cs, d[u..]) by { SameBegin(m.cs, piece, d[u..]); }
      AlikeAtCut(whole, m, d, u);
      AlikeRest(whole, n, d, u, pieces, 0, env);
      ConsumedIsExecuted(m, piece, env);
    } else if InVersion(m.cs) {
      VersionFeed(whole, m, d, u, pieces, env);
    } else {
      assert m.cs != START by { StartIsBetween(piece); }
      HarmedAtCut(whole, m, d, u, piece);
      DamageRest(whole, n, d, u, pieces, 0, env);
    }
  }

  lemma StartIsBetween(piece: Text)
    ensures BetweenParts(START, piece)
  {
  }

  /** The piece ends inside the version too. */
  lemma {:induction false} VersionFeed(whole: Parser, m: Parser, d: Text, u: nat, pieces: seq<Text>, env: Env)
    requires PiecesFrom(d, u, pieces) && Level(whole, m, d, u) && GoodFrom(whole, d, u, env) && u > 0 && InVersion(m.cs)
    ensures var w := Run(whole, d, u, env);
            SameOutcome(Shifted(FedOn(Restarted(m), pieces, 0, env), u), w) <==>
              HarmlessCuts(m.cs, pieces, w.parser.req.version == 0x11, env)
    decreases |pieces|, 2
  {
    hide Run, GoodFrom, Feed, PiecesFrom, BetweenParts, Executed, HarmlessCuts, MendedCut, InVersion, FedOn;
    hide Ahead, SameOutcome, Shifted, Modelled, NameIsClean, OriginForm;
    NextPieces(d, u, pieces);
    var n, piece, q := Restarted(m), pieces[0], 12 - m.cs;
    CutInVersion(m.cs, pieces, Run(whole, d, u, env).parser.req.version == 0x11, env);
    if |piece| > q {
      VersionFeedPast(whole, m, d, u, pieces, env);
    } else {
      ThroughVersion(whole, n, d, u, piece, 0, |piece|, env);
      var w, c := whole.(cs := m.cs + |piece|), n.(cs := m.cs + |piece|);
      NothingMore(c, piece, env);
      ConsumedIsExecuted(m, piece, env);
      GoodMeans(w, d, u + |piece|, env);
      LevelInVersion(w, c, d, u + |piece|);
      LevelFeed(w, c, d, u + |piece|, pieces[1..], env);
      FedOnIs(n, pieces, 0, c, |piece|, env);
      ShiftTwice(Feed(c, pieces[1..], env), |piece|, u);
      CutInVersion(c.cs, pieces[1..], Run(whole, d, u, env).parser.req.version == 0x11, env);
    }
  }

  lemma FedOnIs(n: Parser, pieces: seq<Text>, p: nat, after: Parser, used: nat, env: Env)
    requires pieces != [] && p <= |pieces[0]| && Run(n, pieces[0], p, env) == Stopped(after, used)
    ensures FedOn(n, pieces, p, env) == Shifted(Feed(after, pieces[1..], env), used)
  {
  }

  lemma LevelInVersion(w: Parser, c: Parser, d: Text, u: nat)
    requires w.cs == c.cs && w.req == c.req && w.error == c.error && InVersion(c.cs)
    ensures Level(w, c, d, u)
  {
  }

  /** What a cut in the version leaves to be said. */
  lemma CutInVersion(cs: nat, pieces: seq<Text>, http11: bool, env: Env)
    requires InVersion(cs) && pieces != []
    ensures 5 <= cs <= 12
    ensures var next := Executed(cs, pieces[0], env).cs;
            && (MendedCut(cs, pieces, env) <==> cs == 12 || MendedCut(next, pieces[1..], env))
            && (HarmlessCuts(cs, pieces, http11, env) <==>
                  http11 && MendedCut(cs, pieces, env) && HarmlessCuts(next, pieces[1..], http11, env))
            && (!InVersion(next) ==> !MendedCut(next, pieces[1..], env))
  {
    hide Executed;
  }

  /** The piece reads on behind the version. */
  lemma {:induction false} VersionFeedPast(whole: Parser, m: Parser, d: Text, u: nat, pieces: seq<Text>, env: Env)
    requires PiecesFrom(d, u, pieces) && Level(whole, m, d, u) && GoodFrom(whole, d, u, env) && u > 0 && InVersion(m.cs)
    requires |pieces[0]| > 12 - m.cs
    ensures var w := Run(whole, d, u, env);
            SameOutcome(Shifted(FedOn(Restarted(m), pieces, 0, env), u), w) <==>
              HarmlessCuts(m.cs, pieces, w.parser.req.version == 0x11, env)
    decreases |pieces|, 1
  {
    hide Run, GoodFrom, Feed, PiecesFrom, BetweenParts, Damaged;
    hide Alike, Executed, HarmlessCuts, MendedCut, Ahead, Shifted;
    NextPieces(d, u, pieces);
    var n, piece, q := Restarted(m), pieces[0], 12 - m.cs;
    var http11 := Run(whole, d, u, env).parser.req.version == 0x11;
    CutInVersion(m.cs, pieces, http11, env);
    ThroughVersion(whole, n, d, u, piece, 0, q, env);
    var w, c := VersionEnds(whole.(cs := 12), n.(cs := 12), d, u, piece, q, env);
    assert FedOn(n, pieces, 0, env) == FedOn(c, pieces, q + 1, env);
    if q == 0 && http11 {
      AlikeRest(w, c, d, u, pieces, q + 1, env);
      ConsumedIsExecuted(m, piece, env);
    } else {
      DamageRest(w, c, d, u, pieces, q + 1, env);
      NotMended(whole, w, d, u, q, piece, env);
    }
  }

  lemma NotMended(whole: Parser, w: Parser, d: Text, u: nat, q: nat, piece: Text, env: Env)
    requires Open(whole.cs) && u + |piece| <= |d| && piece == d[u..u + |piece|] && q < |piece|
    requires Ahead(whole, d, u, u + q, env) == whole.(cs := 12)
    requires w == Ahead(whole.(cs := 12), d, u + q, u + q + 1, env) && (w.cs == 13 || w.cs == 17)
    requires GoodFrom(w, d, u + q + 1, env)
    ensures !InVersion(Executed(whole.cs, piece, env).cs)
  {
    hide Ahead, Scan, GoodFrom;
    BeyondVersion(w, d, u + q + 1, u + |piece|, env);
    AheadJoins(whole, d, u, u + q, u + |piece|, env);
    AheadJoins(whole.(cs := 12), d, u + q, u + q + 1, u + |piece|, env);
    AheadIsScan(whole, d, u, u + |piece|, env);
  }

  lemma {:induction false} BeyondVersion(whole: Parser, d: Text, q: nat, u: nat, env: Env)
    requires GoodFrom(whole, d, q, env) && BehindVersion(whole.cs) && q <= u <= |d|
    ensures BehindVersion(Ahead(whole, d, q, u, env).cs)
    decreases u - q
  {
    hide Next, Act, SpelledOut, GoodFrom, StepIsPlain;
    if q < u {
      GoodIsOpen(whole, d, q, env);
      GoodStep(whole, d, q, env);
      Onward(whole.cs, d[q], env);
      var next := Next(whole.cs, d[q], env);
      if next < FINAL { BeyondVersion(Act(whole, d, q, next).(cs := next), d, q + 1, u, env); }
    }
  }

  lemma {:induction false} AheadJoins(m: Parser, d: Text, p: nat, q: nat, u: nat, env: Env)
    requires p <= q <= u <= |d|
    ensures Ahead(Ahead(m, d, p, q, env), d, q, u, env) == Ahead(m, d, p, u, env)
    decreases q - p
  {
    hide Next, Act;
    if p < q && Open(m.cs) {
      var next := Next(m.cs, d[p], env);
      if next != ERROR { AheadJoins(Act(m, d, p, next).(cs := next), d, p + 1, q, u, env); }
    }
  }

  lemma {:induction false} AheadIsScan(m: Parser, d: Text, p: nat, u: nat, env: Env)
    requires p <= u <= |d| && Open(m.cs)
    ensures Ahead(m, d, p, u, env).cs == Scan(m.cs, d[p..u], env).cs
    decreases u - p
  {
    hide Next, Act;
    if p < u {
      assert d[p..u][0] == d[p] && d[p..u][1..] == d[p + 1..u];
      var next := Next(m.cs, d[p], env);
      if Open(next) { AheadIsScan(Act(m, d, p, next).(cs := next), d, p + 1, u, env); }
    }
  }

  lemma NothingMore(m: Parser, buf: Text, env: Env)
    ensures Run(m, buf, |buf|, env) == Stopped(m, |buf|)
  {
  }

  // ----------------------------------------------------------------- the theorem

  /** A head that one call reads to its end, without an error. */
  ghost predicate GoodHead(d: Text, env: Env) {
    && OriginForm(START, d, env) && Plain(FRESH, d, 0, env)
    && (var w := Consumed(FRESH, d, env); w.Stopped? && w.parser.cs == FINAL && w.parser.error == 0)
  }

  /**
   However a head is cut, it comes out as from one call exactly if every cut is
   between two parts, or lies in the version of an HTTP/1.1 request of which
   another cut, right behind the version, leaves nothing for the last call.
   */
  lemma CutsMatterIff(pieces: seq<Text>, env: Env)
    requires (forall s :: s in pieces ==> s != []) && GoodHead(Concatenated(pieces), env)
    ensures var w := Consumed(FRESH, Concatenated(pieces), env);
            SameOutcome(Feed(FRESH, pieces, env), w) <==> HarmlessCuts(START, pieces, w.parser.req.version == 0x11, env)
  {
    hide Run, OriginForm, Plain, Feed, HarmlessCuts;
    var d := Concatenated(pieces);
    assert d[0..] == d;
    assert Level(FRESH, FRESH, d, 0) && NameIsClean(FRESH, d, 0) by { FreshIsLevel(d); }
    LevelFeed(FRESH, FRESH, d, 0, pieces, env);
  }

  lemma FreshIsLevel(d: Text)
    ensures Level(FRESH, FRESH, d, 0) && NameIsClean(FRESH, d, 0)
  {
  }

  /** One cut: between two parts, or right behind the version of an HTTP/1.1 request. */
  lemma CutMattersIff(a: Text, b: Text, env: Env)
    requires a != [] && b != [] && GoodHead(a + b, env)
    ensures var cs, w := Executed(START, a, env).cs, Consumed(FRESH, a + b, env);
            SameOutcome(Feed(FRESH, [a, b], env), w) <==>
              (!Open(cs) || BetweenParts(cs, b) || (cs == 12 && w.parser.req.version == 0x11))
  {
    hide Consumed, Executed, Feed, GoodHead, BetweenParts;
    assert [a, b][1..] == [b] && Concatenated([b]) == b + [] == b;
    assert Concatenated([a, b]) == a + b;
    CutsMatterIff([a, b], env);
    StartIsBetween(a);
    OneCut(a, b, Consumed(FRESH, a + b, env).parser.req.version == 0x11, env);
  }

  lemma OneCut(a: Text, b: Text, http11: bool, env: Env)
    ensures var cs := Executed(START, a, env).cs;
            HarmlessCuts(START, [a, b], http11, env) <==>
              (!Open(cs) || BetweenParts(cs, b) || (cs == 12 && http11))
  {
    hide Executed, BetweenParts;
    var cs := Executed(START, a, env).cs;
    StartIsBetween(a);
    assert [a, b][1..] == [b];
    var none: seq<Text> := [];
    assert [b][1..] == none;
    assert HarmlessCuts(Executed(cs, b, env).cs, [], http11, env) && !MendedCut(Executed(cs, b, env).cs, [], env);
    assert HarmlessCuts(cs, [b], http11, env) <==>
        !Open(cs) || BetweenParts(cs, b) || (http11 && MendedCut(cs, [b], env));
  }
}
