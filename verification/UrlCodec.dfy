/**
 Percent-encoding of byte strings: StringUtil::UrlEncode, UrlDecode and Trim.
 A byte is an octet, a character below 256.
 */
module UrlCodec {
  import opened Wrappers

  type Octet = c: char | c as int < 256

  type Text = seq<Octet>

  function CharOf(n: nat): Octet
    requires n < 256
  {
    n as char
  }

  /** The table uri_chars. */
  predicate Unreserved(c: Octet) {
    'a' <= c <= 'z' || 'A' <= c <= 'Z' || '0' <= c <= '9' || c in "-.=_~"
  }

  predicate IsHexDigit(c: Octet) { '0' <= c <= '9' || 'A' <= c <= 'F' || 'a' <= c <= 'f' }

  /** The table xdigit_chars. */
  function HexValue(c: Octet): (v: nat)
    ensures v < 16
  {
    if '0' <= c <= '9' then c as int - 48
    else if 'A' <= c <= 'F' then c as int - 55
    else if 'a' <= c <= 'f' then c as int - 87
    else 0
  }

  function HexDigit(v: nat): (c: Octet)
    requires v < 16
    ensures IsHexDigit(c) && HexValue(c) == v
  {
    if v < 10 then CharOf(48 + v) else CharOf(55 + v)
  }

  /** The digit that is written is a capital one; both are read. */
  lemma HexDigits(v: nat)
    requires v < 16
    ensures HexDigit(v) == "0123456789ABCDEF"[v]
    ensures HexValue("0123456789ABCDEF"[v]) == v && HexValue("0123456789abcdef"[v]) == v
    ensures IsHexDigit("0123456789ABCDEF"[v]) && IsHexDigit("0123456789abcdef"[v])
  {
  }

  /** There are no other digits. */
  lemma HexDigitIs(c: Octet)
    ensures IsHexDigit(c) <==> c in "0123456789ABCDEFabcdef"
  {
  }

  function EncodedChar(c: Octet, spaceAsPlus: bool): Text {
    if Unreserved(c) then [c]
    else if c == ' ' && spaceAsPlus then ['+']
    else ['%', HexDigit(c as int / 16), HexDigit(c as int % 16)]
  }

  function Encoded(s: Text, spaceAsPlus: bool): Text {
    if s == [] then [] else EncodedChar(s[0], spaceAsPlus) + Encoded(s[1..], spaceAsPlus)
  }

  predicate EscapeAt(s: Text, i: nat) {
    i + 2 < |s| && s[i] == '%' && IsHexDigit(s[i + 1]) && IsHexDigit(s[i + 2])
  }

  function Decoded(s: Text, spaceAsPlus: bool): Text {
    if s == [] then []
    else if s[0] == '+' && spaceAsPlus then [' '] + Decoded(s[1..], spaceAsPlus)
    else if EscapeAt(s, 0) then [CharOf(HexValue(s[1]) * 16 + HexValue(s[2]))] + Decoded(s[3..], spaceAsPlus)
    else [s[0]] + Decoded(s[1..], spaceAsPlus)
  }

  // ---------------------------------------------------------------- properties

  lemma {:induction false} EncodedAppend(a: Text, c: Octet, spaceAsPlus: bool)
    ensures Encoded(a + [c], spaceAsPlus) == Encoded(a, spaceAsPlus) + EncodedChar(c, spaceAsPlus)
  {
    if a == [] {
      assert a + [c] == [c];
    } else {
      assert (a + [c])[1..] == a[1..] + [c];
      EncodedAppend(a[1..], c, spaceAsPlus);
    }
  }

  /** Encoded text holds only unreserved characters, '+' and '%': in particular no separator '&' or ';' and no blank. */
  lemma {:induction false} EncodedIsSafe(s: Text, spaceAsPlus: bool)
    ensures forall c :: c in Encoded(s, spaceAsPlus) ==> Unreserved(c) || c == '+' || c == '%'
  {
    if s != [] {
      EncodedIsSafe(s[1..], spaceAsPlus);
    }
  }

  lemma DecodedChar(c: Octet, rest: Text, spaceAsPlus: bool, plusAsSpace: bool)
    ensures Decoded(EncodedChar(c, spaceAsPlus) + rest, plusAsSpace)
         == [if c == ' ' && spaceAsPlus && !plusAsSpace then '+' else c] + Decoded(rest, plusAsSpace)
  {
    var e := EncodedChar(c, spaceAsPlus);
    if |e| == 3 {
      assert (e + rest)[3..] == rest;
    } else {
      assert (e + rest)[1..] == rest;
    }
  }

  /**
   By their codes: letters, digits, '-', '.', '=', '_' and '~' are written as they
   are, a blank perhaps as '+', all else as '%' and two capital digits.
   */
  lemma EncodedCharIs(c: Octet, spaceAsPlus: bool)
    ensures EncodedChar(c, spaceAsPlus) ==
              var n := c as int;
              if 97 <= n <= 122 || 65 <= n <= 90 || 48 <= n <= 57 || n in {45, 46, 61, 95, 126} then [c]
              else if n == 32 && spaceAsPlus then "+"
              else ['%', "0123456789ABCDEF"[c as int / 16], "0123456789ABCDEF"[c as int % 16]]
  {
    hide HexDigit;
    HexDigits(c as int / 16);
    HexDigits(c as int % 16);
  }

  /** An escape is read whatever the case of its digits. */
  lemma EscapeIsRead(hi: nat, lo: nat, h: Octet, l: Octet, rest: Text, plusAsSpace: bool)
    requires hi < 16 && lo < 16
    requires h == "0123456789ABCDEF"[hi] || h == "0123456789abcdef"[hi]
    requires l == "0123456789ABCDEF"[lo] || l == "0123456789abcdef"[lo]
    ensures Decoded(['%', h, l] + rest, plusAsSpace) == [(hi * 16 + lo) as char] + Decoded(rest, plusAsSpace)
  {
    HexDigits(hi);
    HexDigits(lo);
    assert (['%', h, l] + rest)[3..] == rest;
  }

  /** Everything else stays: a '%' without two digits behind it too, and a '+' unless it stands for a blank. */
  lemma OtherCharStays(c: Octet, rest: Text, plusAsSpace: bool)
    requires c == '%' ==> |rest| < 2 || rest[0] !in "0123456789ABCDEFabcdef" || rest[1] !in "0123456789ABCDEFabcdef"
    ensures Decoded([c] + rest, plusAsSpace)
         == [if c == '+' && plusAsSpace then ' ' else c] + Decoded(rest, plusAsSpace)
  {
    assert ([c] + rest)[1..] == rest;
    if |rest| >= 2 {
      HexDigitIs(rest[0]);
      HexDigitIs(rest[1]);
    }
  }

  /** What decoding makes of the blanks of `s` when '+' was written for them but is not read back. */
  function PlusFor(s: Text): Text {
    if s == [] then [] else [if s[0] == ' ' then '+' else s[0]] + PlusFor(s[1..])
  }

  lemma {:induction false} DecodeOfEncode(s: Text, spaceAsPlus: bool, plusAsSpace: bool)
    ensures Decoded(Encoded(s, spaceAsPlus), plusAsSpace) == if spaceAsPlus && !plusAsSpace then PlusFor(s) else s
  {
    if s != [] {
      DecodedChar(s[0], Encoded(s[1..], spaceAsPlus), spaceAsPlus, plusAsSpace);
      DecodeOfEncode(s[1..], spaceAsPlus, plusAsSpace);
    }
  }

  lemma {:induction false} PlusForIsFaithfulIff(s: Text)
    ensures PlusFor(s) == s <==> ' ' !in s
  {
    if s != [] {
      PlusForIsFaithfulIff(s[1..]);
      assert s == [s[0]] + s[1..];
    }
  }

  /**
   Decoding undoes encoding for every byte string in both space modes; with
   different modes, exactly when no blank was written as a '+' that stays one.
   */
  lemma {:induction false} RoundTripIff(s: Text, spaceAsPlus: bool, plusAsSpace: bool)
    ensures Decoded(Encoded(s, spaceAsPlus), plusAsSpace) == s <==> (spaceAsPlus && !plusAsSpace ==> ' ' !in s)
  {
    DecodeOfEncode(s, spaceAsPlus, plusAsSpace);
    PlusForIsFaithfulIff(s);
  }

  lemma {:induction false} DecodedIsShorter(s: Text, spaceAsPlus: bool)
    ensures |Decoded(s, spaceAsPlus)| <= |s|
  {
    if s != [] {
      if !(s[0] == '+' && spaceAsPlus) && EscapeAt(s, 0) {
        DecodedIsShorter(s[3..], spaceAsPlus);
      } else {
        DecodedIsShorter(s[1..], spaceAsPlus);
      }
    }
  }

  // --------------------------------------------------------------------- loops

  lemma NothingEncoded(spaceAsPlus: bool)
    ensures Encoded([], spaceAsPlus) == []
  {
  }

  /** What is decoded at one position, and where decoding goes on. */
  lemma DecodedAt(s: Text, i: nat, plus: bool)
    requires i <= |s|
    ensures Decoded(s[i..], plus) ==
              if i == |s| then []
              else if s[i] == '+' && plus then [' '] + Decoded(s[i + 1..], plus)
              else if EscapeAt(s, i) then [CharOf(HexValue(s[i + 1]) * 16 + HexValue(s[i + 2]))]
                  + Decoded(s[i + 3..], plus)
              else [s[i]] + Decoded(s[i + 1..], plus)
  {
    if i < |s| {
      assert s[i..][1..] == s[i + 1..];
      if EscapeAt(s, i) {
        assert s[i..][3..] == s[i + 3..];
      }
    }
  }

  /** The buffer is made only when the first character needs encoding. */
  method UrlEncode(str: Text, spaceAsPlus: bool) returns (r: Text)
    ensures r == Encoded(str, spaceAsPlus)
  {
    hide Encoded, Unreserved, HexDigit;
    var ss: Option<Text> := None;
    var i := 0;
    assert Encoded(str[..0], spaceAsPlus) == [] by { NothingEncoded(spaceAsPlus); }
    while i < |str|
      invariant 0 <= i <= |str|
      invariant Encoded(str[..i], spaceAsPlus) == if ss.Some? then ss.value else str[..i]
    {
      var c := str[i];
      EncodedAppend(str[..i], c, spaceAsPlus);
      assert str[..i + 1] == str[..i] + [c];
      if !Unreserved(c) {
        if ss.None? {
          ss := Some(str[..i]);
        }
        if c == ' ' && spaceAsPlus {
          ss := Some(ss.value + ['+']);
        } else {
          ss := Some(ss.value + ['%'] + [HexDigit(c as int / 16)] + [HexDigit(c as int % 16)]);
        }
      } else if ss.Some? {
        ss := Some(ss.value + [c]);
      }
      i := i + 1;
    }
    assert str[..i] == str;
    r := if ss.None? then str else ss.value;
  }

  method UrlDecode(str: Text, spaceAsPlus: bool) returns (r: Text)
    ensures r == Decoded(str, spaceAsPlus)
  {
    hide Decoded, IsHexDigit, HexValue, CharOf;
    var ss: Option<Text> := None;
    var i := 0;
    assert str[0..] == str;
    while i < |str|
      invariant 0 <= i <= |str|
      invariant Decoded(str, spaceAsPlus) == Buffered(ss, str, i) + Decoded(str[i..], spaceAsPlus)
    {
      var c := str[i];
      ghost var done := Buffered(ss, str, i);
      DecodedAt(str, i, spaceAsPlus);
      if c == '+' && spaceAsPlus {
        if ss.None? {
          ss := Some(str[..i]);
        }
        ss := Some(ss.value + [' ']);
        Reassociate(done, ' ', Decoded(str[i + 1..], spaceAsPlus));
      } else if c == '%' && i + 2 < |str| && IsHexDigit(str[i + 1]) && IsHexDigit(str[i + 2]) {
        if ss.None? {
          ss := Some(str[..i]);
        }
        var decoded := CharOf(HexValue(str[i + 1]) * 16 + HexValue(str[i + 2]));
        ss := Some(ss.value + [decoded]);
        Reassociate(done, decoded, Decoded(str[i + 3..], spaceAsPlus));
        i := i + 2;
      } else {
        if ss.Some? {
          ss := Some(ss.value + [c]);
        }
        assert str[..i + 1] == str[..i] + [c];
        Reassociate(done, c, Decoded(str[i + 1..], spaceAsPlus));
      }
      i := i + 1;
    }
    DecodedAt(str, i, spaceAsPlus);
    r := if ss.None? then str else ss.value;
  }

  /** The output so far: the buffer, or the part of the input that stands for it. */
  ghost function Buffered(ss: Option<Text>, str: Text, i: nat): Text
    requires i <= |str|
  {
    if ss.Some? then ss.value else str[..i]
  }

  lemma Reassociate(a: Text, c: Octet, b: Text)
    ensures a + ([c] + b) == (a + [c]) + b
  {
  }

  // ---------------------------------------------------------------------- trim

  predicate IsBlank(c: Octet) { c in " \t\r\n" }

  function TrimmedLeft(s: Text): Text {
    if s != [] && IsBlank(s[0]) then TrimmedLeft(s[1..]) else s
  }

  function TrimmedRight(s: Text): Text {
    if s != [] && IsBlank(s[|s| - 1]) then TrimmedRight(s[..|s| - 1]) else s
  }

  /** Trim. */
  function Trimmed(s: Text): Text { TrimmedRight(TrimmedLeft(s)) }

  predicate IsTrimmed(s: Text) { s != [] ==> !IsBlank(s[0]) && !IsBlank(s[|s| - 1]) }

  lemma {:induction false} TrimmedRightIs(s: Text, n: nat)
    requires n <= |s| && (n > 0 ==> !IsBlank(s[n - 1]))
    requires forall i :: n <= i < |s| ==> IsBlank(s[i])
    ensures TrimmedRight(s) == s[..n]
  {
    if n < |s| {
      TrimmedRightIs(s[..|s| - 1], n);
      assert s[..|s| - 1][..n] == s[..n];
    } else {
      assert s[..n] == s;
    }
  }

  lemma {:induction false} TrimmedLeftIs(s: Text, n: nat)
    requires n <= |s| && (n < |s| ==> !IsBlank(s[n]))
    requires forall i :: 0 <= i < n ==> IsBlank(s[i])
    ensures TrimmedLeft(s) == s[n..]
  {
    if n > 0 {
      TrimmedLeftIs(s[1..], n - 1);
      assert s[1..][n - 1..] == s[n..];
    } else {
      assert s[n..] == s;
    }
  }

  method Trim(str: Text) returns (r: Text)
    ensures r == Trimmed(str)
  {
    hide Trimmed, TrimmedLeft, TrimmedRight, IsBlank;
    var begin := 0;
    while begin < |str| && IsBlank(str[begin])
      invariant 0 <= begin <= |str|
      invariant forall i :: 0 <= i < begin ==> IsBlank(str[i])
    {
      begin := begin + 1;
    }
    if begin == |str| {
      TrimsTo(str, begin, begin);
      return [];
    }
    var end := |str| - 1;
    while IsBlank(str[end])
      invariant begin <= end < |str|
      invariant forall i :: end < i < |str| ==> IsBlank(str[i])
      decreases end
    {
      end := end - 1;
    }
    TrimsTo(str, begin, end + 1);
    r := str[begin..begin + (end - begin + 1)];
  }

  lemma TrimsTo(s: Text, begin: nat, end: nat)
    requires begin <= end <= |s|
    requires forall i :: 0 <= i < begin || end <= i < |s| ==> IsBlank(s[i])
    requires begin < end ==> !IsBlank(s[begin]) && !IsBlank(s[end - 1])
    requires begin == end ==> end == |s|
    ensures Trimmed(s) == s[begin..end]
  {
    TrimmedLeftIs(s, begin);
    TrimmedRightIs(s[begin..], end - begin);
  }

  /** Blanks, tabs and line ends around a text that has none at its ends are exactly what Trim removes. */
  lemma TrimUndoesPadding(before: Text, s: Text, after: Text)
    requires s != [] ==> s[0] !in " \t\r\n" && s[|s| - 1] !in " \t\r\n"
    requires (forall c :: c in before ==> c in " \t\r\n") && (forall c :: c in after ==> c in " \t\r\n")
    ensures Trimmed(before + s + after) == s
  {
    var all := before + s + after;
    if s == [] {
      assert forall i :: 0 <= i < |all| ==> all[i] in before || all[i] in after;
      TrimsTo(all, |all|, |all|);
    } else {
      assert forall i :: 0 <= i < |before| ==> all[i] == before[i];
      assert forall i :: |before| + |s| <= i < |all| ==> all[i] == after[i - |before| - |s|];
      TrimsTo(all, |before|, |before| + |s|);
    }
  }
}
