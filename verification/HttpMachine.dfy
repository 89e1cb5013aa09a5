/**
 The control states of the request parser, for requests whose target begins
 with '/'.  Transitions of all other states are left open: they are a parameter,
 and what is proved here holds whatever they are.
 */
module HttpMachine {
  import opened UrlCodec

  /** Whether the (uninitialised) flag uri_relaxed is set, and the transitions that are not spelled out. */
  datatype Env = Env(relaxed: bool, other: (nat, Octet) -> nat)

  const ERROR := 0
  const START := 1
  const FINAL := 348   // the first (and last) final state

  predicate Digit(c: Octet) { '0' <= c <= '9' }

  predicate UpperOrDigit(c: Octet) { Digit(c) || 'A' <= c <= 'Z' }

  /** Text of a path whatever uri_relaxed says; '%' begins an escape and is not among it. */
  predicate PlainChar(c: Octet) {
    || c == '!' || c == '$' || '&' <= c <= ';' || c == '=' || '@' <= c <= 'Z' || c == '_' || 'a' <= c <= 'z' || c == '~'
    || c as int >= 128
  }

  predicate PathChar(c: Octet, env: Env) { PlainChar(c) || (env.relaxed && c in "^{}") }

  /** Text of a query or a fragment. */
  predicate QueryChar(c: Octet, env: Env) { PathChar(c, env) || c == '?' }

  /** Text of a header name; control characters other than NUL and TAB are in it, line ends too. */
  predicate NameChar(c: Octet) {
    var n := c as int;
    || 1 <= n <= 8 || 10 <= n <= 31 || c == '!' || '#' <= c <= '\'' || '*' <= c <= '+' || '-' <= c <= '.'
    || Digit(c) || 'A' <= c <= 'Z' || '^' <= c <= 'z' || c == '|' || c == '~'
  }

  /** By their codes: 1 to 126 but TAB, the blank and ()<>@,;:\"/[]?={}. */
  lemma NameCharIs(c: Octet)
    ensures NameChar(c) <==>
              1 <= c as int <= 126
              && c as int !in {9, 32, 34, 40, 41, 44, 47, 58, 59, 60, 61, 62, 63, 64, 91, 92, 93, 123, 125}
  {
  }

  /** By their codes: letters, digits, !$&'()*+,-./:;=@_~ and all from 128 on. */
  lemma PlainCharIs(c: Octet)
    ensures PlainChar(c) <==>
              var n := c as int;
              || n >= 128 || 97 <= n <= 122 || 65 <= n <= 90 || 48 <= n <= 57
              || n in {33, 36, 38, 39, 40, 41, 42, 43, 44, 45, 46, 47, 58, 59, 61, 64, 95, 126}
  {
  }

  predicate ValueChar(c: Octet) { c as int != 0 && c as int != 127 }

  /** What uri_relaxed adds to paths, and what values leave out. */
  lemma OtherCharsAre(c: Octet, env: Env)
    ensures PathChar(c, env) <==> PlainChar(c) || (env.relaxed && c as int in {94, 123, 125})
    ensures QueryChar(c, env) <==> PathChar(c, env) || c as int == 63
    ensures ValueChar(c) <==> c as int !in {0, 127}
  {
  }

  /** The next state; ERROR when the character does not fit. */
  function Next(cs: nat, c: Octet, env: Env): nat {
    if cs == 1 then (if UpperOrDigit(c) then 2 else if c in "<@" then env.other(cs, c) else ERROR)
    else if cs == 2 then (if c == ' ' then 3 else if UpperOrDigit(c) then 175 else ERROR)
    else if 175 <= cs <= 192 then (if c == ' ' then 3 else if UpperOrDigit(c) then cs + 1 else ERROR)
    else if cs == 193 then (if c == ' ' then 3 else ERROR)
    else if cs == 3 then
      (if c == ' ' then 4 else if c == '#' then 20 else if c == '?' then 29 else if c == '/' then 33
          else env.other(cs, c))
    else if cs == 33 && c == '/' then 34
    else if cs == 33 || cs == 26 then
      (if c == ' ' then 4 else if c == '#' then 20 else if c == '?' then 29 else if c == '%' then 27
       else if PathChar(c, env) then 26 else ERROR)
    else if cs == 27 then (if IsHexDigit(c) then 28 else ERROR)
    else if cs == 28 then (if IsHexDigit(c) then 26 else ERROR)
    else if cs == 29 || cs == 30 then
      (if c == ' ' then 4 else if c == '#' then 20 else if c == '%' then 31 else if QueryChar(c, env) then 30
          else ERROR)
    else if cs == 31 then (if IsHexDigit(c) then 32 else ERROR)
    else if cs == 32 then (if IsHexDigit(c) then 30 else ERROR)
    else if cs == 20 || cs == 21 then
      (if c == ' ' then 4 else if c == '%' then 22 else if QueryChar(c, env) then 21 else ERROR)
    else if cs == 22 then (if IsHexDigit(c) then 23 else ERROR)
    else if cs == 23 then (if IsHexDigit(c) then 21 else ERROR)
    else if cs == 4 then (if c == 'H' then 5 else ERROR)
    else if cs == 5 then (if c == 'T' then 6 else ERROR)
    else if cs == 6 then (if c == 'T' then 7 else ERROR)
    else if cs == 7 then (if c == 'P' then 8 else ERROR)
    else if cs == 8 then (if c == '/' then 9 else ERROR)
    else if cs == 9 then (if c == '1' then 10 else ERROR)
    else if cs == 10 then (if c == '.' then 11 else ERROR)
    else if cs == 11 then (if c == '0' || c == '1' then 12 else ERROR)
    else if cs == 12 then (if c == '\n' then 13 else if c == '\r' then 17 else ERROR)
    else if cs == 13 then
      (if c == '\n' then FINAL else if c == '\r' then 18 else if NameChar(c) then 14 else ERROR)
    else if cs == 14 || cs == FINAL then (if c == ':' then 15 else if NameChar(c) then 14 else ERROR)
    else if cs == 18 then (if c == '\n' then FINAL else if c == ':' then 15 else if NameChar(c) then 14 else ERROR)
    else if cs == 15 then
      (if c == '\t' || c == ' ' then 15 else if c == '\n' then 13 else if c == '\r' then 17
       else if ValueChar(c) then 16 else ERROR)
    else if cs == 16 then
      (if c == '\n' then 13 else if c == '\r' then 17 else if ValueChar(c) then 16 else ERROR)
    else if cs == 17 then (if c == '\n' then 13 else ERROR)
    else env.other(cs, c)
  }

  // The states in which a part has begun and its end is still to come.

  predicate InMethod(cs: nat) { cs == 2 || 175 <= cs <= 193 }

  predicate InPath(cs: nat) { 26 <= cs <= 28 || cs == 33 }

  predicate InQuery(cs: nat) { 30 <= cs <= 32 }

  predicate InFragment(cs: nat) { 21 <= cs <= 23 }

  predicate InVersion(cs: nat) { 5 <= cs <= 12 }

  datatype Scanned = Scanned(cs: nat, used: nat)

  /** An error does not use up its character; a final state does, and stops. */
  function Scan(cs: nat, s: Text, env: Env): Scanned
    decreases |s|
  {
    if s == [] then Scanned(cs, 0)
    else
      var next := Next(cs, s[0], env);
      if next == ERROR then Scanned(ERROR, 0)
      else if next >= FINAL then Scanned(next, 1)
      else var rest := Scan(next, s[1..], env); Scanned(rest.cs, rest.used + 1)
  }

  predicate Open(cs: nat) { ERROR < cs < FINAL }

  /** http_parser_execute: nothing happens without data or after an error. */
  function Executed(cs: nat, s: Text, env: Env): Scanned {
    if s == [] || cs == ERROR then Scanned(cs, 0) else Scan(cs, s, env)
  }

  function Concatenated(pieces: seq<Text>): Text {
    if pieces == [] then [] else pieces[0] + Concatenated(pieces[1..])
  }

  /** Piece after piece until the parser has finished or failed. */
  function Fed(cs: nat, pieces: seq<Text>, env: Env): Scanned
    decreases |pieces|
  {
    if pieces == [] || !Open(cs) then Scanned(cs, 0)
    else
      var first := Executed(cs, pieces[0], env);
      var rest := Fed(first.cs, pieces[1..], env);
      Scanned(rest.cs, first.used + rest.used)
  }

  lemma {:induction false} ScanUsesAll(cs: nat, s: Text, env: Env)
    requires Open(cs)
    ensures Scan(cs, s, env).used <= |s|
    ensures Open(Scan(cs, s, env).cs) ==> Scan(cs, s, env).used == |s|
    decreases |s|
  {
    if s != [] {
      var next := Next(cs, s[0], env);
      if Open(next) {
        ScanUsesAll(next, s[1..], env);
      }
    }
  }

  lemma {:induction false} ScanJoin(cs: nat, a: Text, b: Text, env: Env)
    requires Open(cs)
    ensures var first := Scan(cs, a, env);
            Scan(cs, a + b, env)
                == if Open(first.cs) then Scanned(Scan(first.cs, b, env).cs, |a| + Scan(first.cs, b, env).used)
                                    else first
    decreases |a|
  {
    if a == [] {
      assert a + b == b;
    } else {
      hide Next;
      var next := Next(cs, a[0], env);
      assert (a + b)[1..] == a[1..] + b;
      if Open(next) {
        ScanJoin(next, a[1..], b, env);
      }
    }
  }

  /** Every call before the parser has finished or failed uses its whole piece. */
  predicate WholePieces(cs: nat, pieces: seq<Text>, env: Env)
    decreases |pieces|
  {
    pieces == [] || !Open(cs)
    || (var first := Executed(cs, pieces[0], env);
        (Open(first.cs) ==> first.used == |pieces[0]|) && WholePieces(first.cs, pieces[1..], env))
  }

  /**
   Where the stream is cut does not matter to the control states: the pieces one
   by one lead to the same state after the same number of characters as all of
   them in one call, and as long as the parser is neither finished nor failed
   every call uses its whole piece.  Whether the calls return is another matter:
   see FeedIsOneCall and ThrowsIff in module HttpParsers.
   */
  lemma {:induction false} CuttingDoesNotMatter(cs: nat, pieces: seq<Text>, env: Env)
    requires Open(cs) && forall s :: s in pieces ==> s != []
    ensures Fed(cs, pieces, env) == Executed(cs, Concatenated(pieces), env)
    ensures WholePieces(cs, pieces, env)
    decreases |pieces|
  {
    hide Scan;
    NothingScanned(cs, env);
    if pieces != [] {
      assert pieces[0] in pieces;
      var rest := Concatenated(pieces[1..]);
      ScanJoin(cs, pieces[0], rest, env);
      ScanUsesAll(cs, pieces[0], env);
      var first := Scan(cs, pieces[0], env);
      if Open(first.cs) {
        assert forall s :: s in pieces[1..] ==> s in pieces;
        CuttingDoesNotMatter(first.cs, pieces[1..], env);
        NothingScanned(first.cs, env);
      }
    }
  }

  lemma NothingScanned(cs: nat, env: Env)
    ensures Scan(cs, [], env) == Scanned(cs, 0)
  {
  }
}
