/**
 Form data and cookies: the loop of PARSE_PARAM over text like
 `key=value&key=value`, and the case-insensitive maps it fills.
 */
module Forms {
  import opened Wrappers
  import opened UrlCodec

  // ------------------------------------------------------ case-insensitive maps

  /** What a key is compared by: strcasecmp folds case and stops at a NUL. */
  function Fold(key: Text): Text {
    if key == [] || key[0] == '\0' then []
    else [if 'A' <= key[0] <= 'Z' then CharOf(key[0] as int + 32) else key[0]] + Fold(key[1..])
  }

  function Lowered(c: Octet): int { if 'A' <= c <= 'Z' then c as int + 32 else c as int }

  /** What strcasecmp sees of a key: `n` characters in front of its first NUL. */
  predicate EndsAt(key: Text, n: nat) {
    n <= |key| && '\0' !in key[..n] && (n < |key| ==> key[n] == '\0')
  }

  lemma {:induction false} FoldIs(key: Text, n: nat)
    requires EndsAt(key, n)
    ensures |Fold(key)| == n
    ensures forall i :: 0 <= i < n ==> Fold(key)[i] as int == Lowered(key[i])
  {
    if n > 0 {
      assert key[0] == key[..n][0] && key[1..][..n - 1] == key[..n][1..];
      FoldIs(key[1..], n - 1);
      assert forall i :: 0 < i < n ==> Fold(key)[i] == Fold(key[1..])[i - 1];
    }
  }

  /** Keys are the same exactly if up to the first NUL they have the same length and differ at most in case. */
  lemma FoldsAlike(a: Text, b: Text, n: nat, k: nat)
    requires n <= |a| && (forall i :: 0 <= i < n ==> a[i] != '\0') && (n < |a| ==> a[n] == '\0')
    requires k <= |b| && (forall i :: 0 <= i < k ==> b[i] != '\0') && (k < |b| ==> b[k] == '\0')
    ensures Fold(a) == Fold(b) <==>
              n == k && forall i :: 0 <= i < n ==>
                           || a[i] == b[i]
                           || ('A' <= a[i] <= 'Z' && b[i] as int == a[i] as int + 32)
                           || ('A' <= b[i] <= 'Z' && a[i] as int == b[i] as int + 32)
  {
    hide Fold;
    FoldIs(a, n);
    FoldIs(b, k);
    forall i | 0 <= i < n && n == k
      ensures Fold(a)[i] == Fold(b)[i] <==>
                || a[i] == b[i]
                || ('A' <= a[i] <= 'Z' && b[i] as int == a[i] as int + 32)
                || ('A' <= b[i] <= 'Z' && a[i] as int == b[i] as int + 32)
    {
      assert Lowered(a[i]) == Lowered(b[i]) <==> Fold(a)[i] == Fold(b)[i];
    }
  }

  datatype Binding = Binding(key: Text, value: Text)

  /** A map from folded keys; each entry keeps the spelling it was first made with. */
  type Table = map<Text, Binding>

  /** std::map::insert: a key that is there stays as it is. */
  function Insert(m: Table, key: Text, value: Text): Table {
    if Fold(key) in m then m else m[Fold(key) := Binding(key, value)]
  }

  /** m[key] = value: the value is replaced, the spelling of the key stays. */
  function Assign(m: Table, key: Text, value: Text): Table {
    m[Fold(key) := Binding(if Fold(key) in m then m[Fold(key)].key else key, value)]
  }

  function Lookup(m: Table, key: Text, default: Text): Text {
    if Fold(key) in m then m[Fold(key)].value else default
  }

  /** The bindings inserted one after the other. */
  function FirstWins(m: Table, bs: seq<Binding>): Table
    decreases |bs|
  {
    if bs == [] then m else FirstWins(Insert(m, bs[0].key, bs[0].value), bs[1..])
  }

  function FirstOf(bs: seq<Binding>, key: Text): Option<Binding> {
    if bs == [] then None else if Fold(bs[0].key) == Fold(key) then Some(bs[0]) else FirstOf(bs[1..], key)
  }

  /** In the end a key maps to what was there before, else to its first binding. */
  lemma {:induction false} FirstWinsIs(m: Table, bs: seq<Binding>, key: Text)
    ensures var r := FirstWins(m, bs);
            if Fold(key) in m then Fold(key) in r && r[Fold(key)] == m[Fold(key)]
            else match FirstOf(bs, key)
                 case None => Fold(key) !in r
                 case Some(b) => Fold(key) in r && r[Fold(key)] == b
    decreases |bs|
  {
    if bs != [] {
      FirstWinsIs(Insert(m, bs[0].key, bs[0].value), bs[1..], key);
    }
  }

  lemma {:induction false} FirstOfIsFirst(bs: seq<Binding>, key: Text)
    ensures match FirstOf(bs, key)
            case None => forall i :: 0 <= i < |bs| ==> Fold(bs[i].key) != Fold(key)
            case Some(b) => exists i :: 0 <= i < |bs| && bs[i] == b && Fold(b.key) == Fold(key)
                                        && forall j :: 0 <= j < i ==> Fold(bs[j].key) != Fold(key)
  {
    if bs != [] && Fold(bs[0].key) != Fold(key) {
      var rest := bs[1..];
      FirstOfIsFirst(rest, key);
      assert forall j :: 0 < j < |bs| ==> bs[j] == rest[j - 1];
      if FirstOf(rest, key).Some? {
        var i :| 0 <= i < |rest| && rest[i] == FirstOf(rest, key).value
                 && forall j :: 0 <= j < i ==> Fold(rest[j].key) != Fold(key);
        assert bs[i + 1] == rest[i];
      }
    }
  }

  // ------------------------------------------------------------------- parsing

  /** std::string::find from `from` on; |s| stands for npos. */
  function Find(s: Text, c: Octet, from: nat): (i: nat)
    requires from <= |s|
    ensures from <= i <= |s| && (i < |s| ==> s[i] == c) && forall j :: from <= j < i ==> s[j] != c
    decreases |s| - from
  {
    if from == |s| || s[from] == c then from else Find(s, c, from + 1)
  }

  function Name(s: Text, trim: bool): Text { if trim then Trimmed(s) else s }

  /** What the loop adds to `m` from `pos` on: a piece ends at the first `flag` after its '='. */
  function Parsed(s: Text, pos: nat, flag: Octet, trim: bool, m: Table): Table
    requires flag != '=' && pos <= |s|
    decreases |s| - pos
  {
    var eq := Find(s, '=', pos);
    if eq == |s| then m
    else
      var end := Find(s, flag, eq);
      var next := Insert(m, Name(s[pos..eq], trim), Decoded(s[eq + 1..end], true));
      if end == |s| then next else Parsed(s, end + 1, flag, trim, next)
  }

  lemma InsertKeeps(m: Table, key: Text, value: Text, k: Text)
    requires k in m
    ensures k in Insert(m, key, value) && Insert(m, key, value)[k] == m[k]
  {
  }

  /** What is bound already stays. */
  lemma {:induction false} ParsedKeeps(s: Text, pos: nat, flag: Octet, trim: bool, m: Table, k: Text)
    requires flag != '=' && pos <= |s| && k in m
    ensures k in Parsed(s, pos, flag, trim, m) && Parsed(s, pos, flag, trim, m)[k] == m[k]
    decreases |s| - pos
  {
    hide Fold, Decoded, Trimmed, Insert, Name;
    var eq := Find(s, '=', pos);
    if eq < |s| {
      var end := Find(s, flag, eq);
      var key, value := Name(s[pos..eq], trim), Decoded(s[eq + 1..end], true);
      InsertKeeps(m, key, value, k);
      if end < |s| {
        ParsedKeeps(s, end + 1, flag, trim, Insert(m, key, value), k);
      }
    }
  }

  /** One round of the loop. */
  lemma ParsedStep(s: Text, pos: nat, flag: Octet, trim: bool, m: Table)
    requires flag != '=' && pos <= |s|
    ensures var eq := Find(s, '=', pos);
            Parsed(s, pos, flag, trim, m) ==
              if eq == |s| then m
              else
                var end := Find(s, flag, eq);
                var next := Insert(m, Name(s[pos..eq], trim), Decoded(s[eq + 1..end], true));
                if end == |s| then next else Parsed(s, end + 1, flag, trim, next)
  {
    hide Insert, Decoded, Trimmed, Name;
  }

  /** The loop ends because every piece starts beyond the one before. */
  method ParseParam(str: Text, flag: Octet, trim: bool, m0: Table) returns (m: Table)
    requires flag != '='
    ensures m == Parsed(str, 0, flag, trim, m0)
  {
    hide Insert, Decoded, Trimmed, Parsed, Find;
    m := m0;
    var pos := 0;
    while true
      invariant 0 <= pos <= |str|
      invariant Parsed(str, pos, flag, trim, m) == Parsed(str, 0, flag, trim, m0)
      decreases |str| - pos
    {
      var last := pos;
      ParsedStep(str, pos, flag, trim, m);
      pos := Find(str, '=', pos);
      if pos == |str| {
        break;
      }
      var key := pos;
      pos := Find(str, flag, pos);
      var name := str[last..key];
      if trim {
        name := Trim(name);
      }
      var value := UrlDecode(str[key + 1..pos], true);
      m := Insert(m, name, value);
      if pos == |str| {
        break;
      }
      pos := pos + 1;
    }
  }

  // ---------------------------------------------------------------- round trip

  /** A form: `key=UrlEncode(value)` pieces joined by `separator`. */
  function Joined(bs: seq<Binding>, separator: Text, spaceAsPlus: bool): Text
    decreases |bs|, 0
  {
    if bs == [] then []
    else bs[0].key + (['='] + (Encoded(bs[0].value, spaceAsPlus) + JoinedTail(bs[1..], separator, spaceAsPlus)))
  }

  function JoinedTail(bs: seq<Binding>, separator: Text, spaceAsPlus: bool): Text
    decreases |bs|, 1
  {
    if bs == [] then [] else separator + Joined(bs, separator, spaceAsPlus)
  }

  lemma {:induction false} FindIs(s: Text, c: Octet, from: nat, i: nat)
    requires from <= i <= |s| && (i < |s| ==> s[i] == c) && forall j :: from <= j < i ==> s[j] != c
    ensures Find(s, c, from) == i
    decreases i - from
  {
    if from < i {
      FindIs(s, c, from + 1, i);
    }
  }

  /** Of two parts that make up the text from `pos` on, where the first ends. */
  lemma Peel(s: Text, pos: nat, a: Text, b: Text)
    requires pos <= |s| && s[pos..] == a + b
    ensures pos + |a| <= |s| && s[pos..pos + |a|] == a && s[pos + |a|..] == b
  {
    assert s[pos..pos + |a|] == s[pos..][..|a|];
    assert s[pos + |a|..] == s[pos..][|a|..];
  }

  lemma Regroup(a: Text, b: Text, c: Text)
    ensures a + (b + c) == (a + b) + c
  {
  }

  lemma PieceAt(s: Text, pos: nat, name: Text, e: Text, rest: Text)
    requires pos <= |s| && s[pos..] == name + (['='] + (e + rest))
    ensures var eq, end := pos + |name|, pos + |name| + 1 + |e|;
            && end <= |s| && s[pos..eq] == name && s[eq] == '=' && s[eq + 1..end] == e && s[end..] == rest
  {
    var eq := pos + |name|;
    Peel(s, pos, name, ['='] + (e + rest));
    Peel(s, eq, ['='], e + rest);
    Peel(s, eq + 1, e, rest);
    assert s[eq] == s[eq..eq + 1][0];
  }

  /** Where the loop finds the end of the key and of the value. */
  lemma PieceEnds(s: Text, pos: nat, eq: nat, end: nat, flag: Octet)
    requires pos <= eq < end <= |s| && s[eq] == '=' && '=' !in s[pos..eq]
    requires flag != '=' && flag !in s[eq + 1..end] && (end < |s| ==> s[end] == flag)
    ensures Find(s, '=', pos) == eq && Find(s, flag, eq) == end
  {
    forall j | pos <= j < eq ensures s[j] != '=' { assert s[j] == s[pos..eq][j - pos]; }
    FindIs(s, '=', pos, eq);
    forall j | eq < j < end ensures s[j] != flag { assert s[j] == s[eq + 1..end][j - eq - 1]; }
    FindIs(s, flag, eq, end);
  }

  /** A piece, at the end of the text or before the flag. */
  lemma ParsedPiece(s: Text, pos: nat, name: Text, b: Binding, rest: Text, flag: Octet, trim: bool,
          spaceAsPlus: bool, m: Table)
    requires flag == '&' || flag == ';'
    requires pos <= |s| && s[pos..] == name + (['='] + (Encoded(b.value, spaceAsPlus) + rest))
    requires '=' !in name && Name(name, trim) == b.key
    requires rest != [] ==> rest[0] == flag
    ensures var end := pos + |name| + 1 + |Encoded(b.value, spaceAsPlus)|;
            && end <= |s| && s[end..] == rest
            && Parsed(s, pos, flag, trim, m) == if rest == [] then Insert(m, b.key, b.value)
                                                else Parsed(s, end + 1, flag, trim, Insert(m, b.key, b.value))
  {
    hide Insert, Decoded, Encoded, Name, Find, Parsed;
    var e := Encoded(b.value, spaceAsPlus);
    var eq, end := pos + |name|, pos + |name| + 1 + |e|;
    PieceAt(s, pos, name, e, rest);
    assert rest != [] ==> s[end] == rest[0];
    EncodedIsSafe(b.value, spaceAsPlus);
    assert flag !in e;
    PieceEnds(s, pos, eq, end, flag);
    RoundTripIff(b.value, spaceAsPlus, true);
    ParsedIs(s, pos, eq, end, flag, trim, m);
  }

  lemma ParsedIs(s: Text, pos: nat, eq: nat, end: nat, flag: Octet, trim: bool, m: Table)
    requires flag != '=' && pos <= eq < end <= |s| && Find(s, '=', pos) == eq && Find(s, flag, eq) == end
    ensures var next := Insert(m, Name(s[pos..eq], trim), Decoded(s[eq + 1..end], true));
            Parsed(s, pos, flag, trim, m) == if end == |s| then next else Parsed(s, end + 1, flag, trim, next)
  {
    hide Insert, Decoded, Name, Find;
  }

  /** Without another '=' the loop ends. */
  lemma NothingParsed(s: Text, pos: nat, flag: Octet, trim: bool, m: Table)
    requires flag != '=' && pos <= |s| && forall j :: pos <= j < |s| ==> s[j] != '='
    ensures Parsed(s, pos, flag, trim, m) == m
  {
    hide Insert, Decoded, Name;
    FindIs(s, '=', pos, |s|);
  }

  /**
   Any piece: what stands before its first '=' is the key, what stands between it
   and the next flag the encoded value, and parsing goes on behind that flag.
   */
  lemma PieceParsed(s: Text, pos: nat, eq: nat, end: nat, flag: Octet, trim: bool, m: Table)
    requires flag != '=' && pos <= eq < end <= |s| && s[eq] == '=' && (end < |s| ==> s[end] == flag)
    requires (forall j :: pos <= j < eq ==> s[j] != '=') && (forall j :: eq < j < end ==> s[j] != flag)
    ensures var key := if trim then Trimmed(s[pos..eq]) else s[pos..eq];
            var next := if Fold(key) in m then m else m[Fold(key) := Binding(key, Decoded(s[eq + 1..end], true))];
            Parsed(s, pos, flag, trim, m) == if end == |s| then next else Parsed(s, end + 1, flag, trim, next)
  {
    hide Decoded, Trimmed, Fold;
    FindIs(s, '=', pos, eq);
    FindIs(s, flag, eq, end);
    ParsedIs(s, pos, eq, end, flag, trim, m);
  }

  lemma {:induction false} FormFrom(s: Text, pos: nat, bs: seq<Binding>, spaceAsPlus: bool, m: Table)
    requires pos <= |s| && s[pos..] == Joined(bs, ['&'], spaceAsPlus) && bs != []
    requires forall b :: b in bs ==> '=' !in b.key
    ensures Parsed(s, pos, '&', false, m) == FirstWins(m, bs)
    decreases |bs|
  {
    hide Insert, Encoded, Parsed;
    var b, rest := bs[0], bs[1..];
    assert b in bs;
    var tail := JoinedTail(rest, ['&'], spaceAsPlus);
    var end := pos + |b.key| + 1 + |Encoded(b.value, spaceAsPlus)|;
    ParsedPiece(s, pos, b.key, b, tail, '&', false, spaceAsPlus, m);
    if rest != [] {
      Peel(s, end, ['&'], Joined(rest, ['&'], spaceAsPlus));
      FormFrom(s, end + 1, rest, spaceAsPlus, Insert(m, b.key, b.value));
    }
  }

  /**
   Parsing a form gives the map in which the first binding of each key wins,
   with the value it was written for: any keys without '=', any values.
   */
  lemma FormRoundTrip(bs: seq<Binding>, spaceAsPlus: bool, m: Table)
    requires forall b :: b in bs ==> '=' !in b.key
    ensures Parsed(Joined(bs, ['&'], spaceAsPlus), 0, '&', false, m) == FirstWins(m, bs)
  {
    var s := Joined(bs, ['&'], spaceAsPlus);
    assert s[0..] == s;
    if bs != [] {
      FormFrom(s, 0, bs, spaceAsPlus, m);
    }
  }

  lemma PadIsTrimmed(pad: Text, key: Text)
    requires (pad == [] || pad == [' ']) && IsTrimmed(key)
    ensures Trimmed(pad + key) == key
  {
    hide Trimmed;
    TrimUndoesPadding(pad, key, []);
    assert pad + key + [] == pad + key;
  }

  /** One cookie, and where the next one begins. */
  lemma CookieParsed(s: Text, pos: nat, pad: Text, b: Binding, tail: Text, spaceAsPlus: bool, m: Table)
    requires (pad == [] || pad == [' ']) && '=' !in b.key && IsTrimmed(b.key) && (tail != [] ==> tail[0] == ';')
    requires pos <= |s| && s[pos..] == pad + (b.key + (['='] + (Encoded(b.value, spaceAsPlus) + tail)))
    ensures var end := pos + |pad + b.key| + 1 + |Encoded(b.value, spaceAsPlus)|;
            && end <= |s| && s[end..] == tail
            && Parsed(s, pos, ';', true, m) == if tail == [] then Insert(m, b.key, b.value)
                                               else Parsed(s, end + 1, ';', true, Insert(m, b.key, b.value))
  {
    hide Insert, Encoded, Parsed, Trimmed, IsTrimmed;
    PadIsTrimmed(pad, b.key);
    Regroup(pad, b.key, ['='] + (Encoded(b.value, spaceAsPlus) + tail));
    ParsedPiece(s, pos, pad + b.key, b, tail, ';', true, spaceAsPlus, m);
  }

  lemma {:induction false} CookiesFrom(s: Text, pos: nat, pad: Text, bs: seq<Binding>, spaceAsPlus: bool, m: Table)
    requires pad == [] || pad == [' ']
    requires bs != [] && pos <= |s| && s[pos..] == pad + Joined(bs, [';', ' '], spaceAsPlus)
    requires forall b :: b in bs ==> '=' !in b.key && IsTrimmed(b.key)
    ensures Parsed(s, pos, ';', true, m) == FirstWins(m, bs)
    decreases |bs|
  {
    hide Insert, Encoded, Parsed, Trimmed, IsTrimmed;
    var b, rest := bs[0], bs[1..];
    assert b in bs;
    var end := pos + |pad + b.key| + 1 + |Encoded(b.value, spaceAsPlus)|;
    CookieParsed(s, pos, pad, b, JoinedTail(rest, [';', ' '], spaceAsPlus), spaceAsPlus, m);
    if rest != [] {
      Regroup([';'], [' '], Joined(rest, [';', ' '], spaceAsPlus));
      assert [';', ' '] == [';'] + [' '];
      Peel(s, end, [';'], [' '] + Joined(rest, [';', ' '], spaceAsPlus));
      CookiesFrom(s, end + 1, [' '], rest, spaceAsPlus, Insert(m, b.key, b.value));
    }
  }

  /** The same for cookies joined by "; ", whose keys have no blanks at their ends. */
  lemma CookieRoundTrip(bs: seq<Binding>, spaceAsPlus: bool, m: Table)
    requires forall b :: b in bs ==> '=' !in b.key && IsTrimmed(b.key)
    ensures Parsed(Joined(bs, [';', ' '], spaceAsPlus), 0, ';', true, m) == FirstWins(m, bs)
  {
    var s := Joined(bs, [';', ' '], spaceAsPlus);
    assert s[0..] == [] + s;
    if bs != [] {
      CookiesFrom(s, 0, [], bs, spaceAsPlus, m);
    }
  }
}
