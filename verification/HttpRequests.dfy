/**
 HttpRequest: its parts, its text form (dump), and the parameters and cookies
 read from it.
 */
module HttpRequests {
  import opened Wrappers
  import opened UrlCodec
  import opened Forms

  /** HTTP_METHOD_MAP, in its order. */
  datatype Method =
    | DELETE | GET | HEAD | POST | PUT | CONNECT | OPTIONS | TRACE | COPY | LOCK | MKCOL | MOVE | PROPFIND | PROPPATCH
    | SEARCH | UNLOCK | BIND | REBIND | UNBIND | ACL | REPORT | MKACTIVITY | CHECKOUT | MERGE | MSEARCH | NOTIFY
    | SUBSCRIBE | UNSUBSCRIBE | PATCH | PURGE | MKCALENDAR | LINK | UNLINK | SOURCE

  /** HttpMethodToString. */
  function MethodName(m: Method): Text {
    match m
    case DELETE => "DELETE" case GET => "GET" case HEAD => "HEAD" case POST => "POST" case PUT => "PUT"
    case CONNECT => "CONNECT" case OPTIONS => "OPTIONS" case TRACE => "TRACE" case COPY => "COPY" case LOCK => "LOCK"
    case MKCOL => "MKCOL" case MOVE => "MOVE" case PROPFIND => "PROPFIND" case PROPPATCH => "PROPPATCH"
    case SEARCH => "SEARCH" case UNLOCK => "UNLOCK" case BIND => "BIND" case REBIND => "REBIND" case UNBIND => "UNBIND"
    case ACL => "ACL" case REPORT => "REPORT" case MKACTIVITY => "MKACTIVITY" case CHECKOUT => "CHECKOUT"
    case MERGE => "MERGE" case MSEARCH => "M-SEARCH" case NOTIFY => "NOTIFY" case SUBSCRIBE => "SUBSCRIBE"
    case UNSUBSCRIBE => "UNSUBSCRIBE" case PATCH => "PATCH" case PURGE => "PURGE" case MKCALENDAR => "MKCALENDAR"
    case LINK => "LINK" case UNLINK => "UNLINK" case SOURCE => "SOURCE"
  }

  const METHODS: seq<Method> := [
    DELETE, GET, HEAD, POST, PUT, CONNECT, OPTIONS, TRACE, COPY, LOCK, MKCOL, MOVE, PROPFIND, PROPPATCH,
    SEARCH, UNLOCK, BIND, REBIND, UNBIND, ACL, REPORT, MKACTIVITY, CHECKOUT, MERGE, MSEARCH, NOTIFY,
    SUBSCRIBE, UNSUBSCRIBE, PATCH, PURGE, MKCALENDAR, LINK, UNLINK, SOURCE]

  predicate StartsWith(s: Text, prefix: Text) { |prefix| <= |s| && s[..|prefix|] == prefix }

  /** CharsToHttpMethod: the first method of the table whose name begins the text. */
  function FirstMethod(ms: seq<Method>, s: Text): Option<Method> {
    if ms == [] then None else if StartsWith(s, MethodName(ms[0])) then Some(ms[0]) else FirstMethod(ms[1..], s)
  }

  function CharsToMethod(s: Text): Option<Method> { FirstMethod(METHODS, s) }

  /** The letters that tell the methods apart. */
  function Recognised(s: Text): Method
    requires |s| >= 3
  {
    if s[0] == 'D' then DELETE
    else if s[0] == 'G' then GET
    else if s[0] == 'H' then HEAD
    else if s[0] == 'O' then OPTIONS
    else if s[0] == 'T' then TRACE
    else if s[0] == 'B' then BIND
    else if s[0] == 'A' then ACL
    else if s[0] == 'N' then NOTIFY
    else if s[0] == 'R' then (if s[2] == 'B' then REBIND else REPORT)
    else if s[0] == 'L' then (if s[1] == 'O' then LOCK else LINK)
    else if s[0] == 'C' then (if s[1] == 'H' then CHECKOUT else if s[2] == 'N' then CONNECT else COPY)
    else if s[0] == 'S' then (if s[1] == 'E' then SEARCH else if s[1] == 'U' then SUBSCRIBE else SOURCE)
    else if s[0] == 'P' then
      (if s[1] == 'O' then POST else if s[1] == 'A' then PATCH
       else if s[1] == 'U' then (if s[2] == 'T' then PUT else PURGE)
       else if |s| > 4 && s[4] == 'F' then PROPFIND else PROPPATCH)
    else if s[0] == 'M' then
      (if s[1] == 'O' then MOVE else if s[1] == 'E' then MERGE else if s[1] == '-' then MSEARCH
       else if s[2] == 'A' then MKACTIVITY else if |s| > 3 && s[3] == 'O' then MKCOL else MKCALENDAR)
    else if s[2] == 'B' then UNBIND
    else if s[2] == 'S' then UNSUBSCRIBE
    else if |s| > 3 && s[3] == 'O' then UNLOCK else UNLINK
  }

  lemma NameIsRecognised(m: Method, s: Text)
    requires StartsWith(s, MethodName(m))
    ensures |s| >= 3 && Recognised(s) == m
  {
    var n := MethodName(m);
    assert s[0] == n[0] && s[1] == n[1] && s[2] == n[2];
    assert |n| > 3 ==> s[3] == n[3];
    assert |n| > 4 ==> s[4] == n[4];
  }

  lemma InTable(m: Method)
    ensures m in METHODS
  {
    match m
    case DELETE => assert METHODS[0] == DELETE; case GET => assert METHODS[1] == GET;
    case HEAD => assert METHODS[2] == HEAD; case POST => assert METHODS[3] == POST;
    case PUT => assert METHODS[4] == PUT; case CONNECT => assert METHODS[5] == CONNECT;
    case OPTIONS => assert METHODS[6] == OPTIONS; case TRACE => assert METHODS[7] == TRACE;
    case COPY => assert METHODS[8] == COPY; case LOCK => assert METHODS[9] == LOCK;
    case MKCOL => assert METHODS[10] == MKCOL; case MOVE => assert METHODS[11] == MOVE;
    case PROPFIND => assert METHODS[12] == PROPFIND; case PROPPATCH => assert METHODS[13] == PROPPATCH;
    case SEARCH => assert METHODS[14] == SEARCH; case UNLOCK => assert METHODS[15] == UNLOCK;
    case BIND => assert METHODS[16] == BIND; case REBIND => assert METHODS[17] == REBIND;
    case UNBIND => assert METHODS[18] == UNBIND; case ACL => assert METHODS[19] == ACL;
    case REPORT => assert METHODS[20] == REPORT; case MKACTIVITY => assert METHODS[21] == MKACTIVITY;
    case CHECKOUT => assert METHODS[22] == CHECKOUT; case MERGE => assert METHODS[23] == MERGE;
    case MSEARCH => assert METHODS[24] == MSEARCH; case NOTIFY => assert METHODS[25] == NOTIFY;
    case SUBSCRIBE => assert METHODS[26] == SUBSCRIBE; case UNSUBSCRIBE => assert METHODS[27] == UNSUBSCRIBE;
    case PATCH => assert METHODS[28] == PATCH; case PURGE => assert METHODS[29] == PURGE;
    case MKCALENDAR => assert METHODS[30] == MKCALENDAR; case LINK => assert METHODS[31] == LINK;
    case UNLINK => assert METHODS[32] == UNLINK; case SOURCE => assert METHODS[33] == SOURCE;
  }

  lemma {:induction false} FirstMethodIs(ms: seq<Method>, s: Text, m: Method)
    requires m in ms && StartsWith(s, MethodName(m))
    ensures FirstMethod(ms, s) == Some(m)
  {
    hide MethodName, Recognised, StartsWith;
    NameIsRecognised(m, s);
    if StartsWith(s, MethodName(ms[0])) {
      NameIsRecognised(ms[0], s);
    } else {
      FirstMethodIs(ms[1..], s, m);
    }
  }

  /** No name begins another, so a text that begins with a method's name is that method. */
  lemma MethodRoundTrip(m: Method, s: Text)
    requires StartsWith(s, MethodName(m))
    ensures CharsToMethod(s) == Some(m)
  {
    InTable(m);
    FirstMethodIs(METHODS, s, m);
  }

  /** How the methods are spelled. */
  lemma MethodSpelling(m: Method)
    ensures MethodName(m) ==
          match m
          case DELETE => "DELETE" case GET => "GET" case HEAD => "HEAD" case POST => "POST" case PUT => "PUT"
          case CONNECT => "CONNECT" case OPTIONS => "OPTIONS" case TRACE => "TRACE" case COPY => "COPY"
          case LOCK => "LOCK" case MKCOL => "MKCOL" case MOVE => "MOVE" case PROPFIND => "PROPFIND"
          case PROPPATCH => "PROPPATCH" case SEARCH => "SEARCH" case UNLOCK => "UNLOCK" case BIND => "BIND"
          case REBIND => "REBIND" case UNBIND => "UNBIND" case ACL => "ACL" case REPORT => "REPORT"
          case MKACTIVITY => "MKACTIVITY" case CHECKOUT => "CHECKOUT" case MERGE => "MERGE"
          case MSEARCH => "M-SEARCH" case NOTIFY => "NOTIFY" case SUBSCRIBE => "SUBSCRIBE"
          case UNSUBSCRIBE => "UNSUBSCRIBE" case PATCH => "PATCH" case PURGE => "PURGE"
          case MKCALENDAR => "MKCALENDAR" case LINK => "LINK" case UNLINK => "UNLINK" case SOURCE => "SOURCE"
  {
  }

  datatype Request = Request(verb: Method, version: nat, close: bool, websocket: bool, path: Text, query: Text,
                             fragment: Text, body: Text, headers: Table)

  /** A new HttpRequest. */
  const BLANK := Request(GET, 0x11, true, false, "/", [], [], [], map[])

  // ------------------------------------------------------------------- numbers

  function DigitChar(d: nat): Octet
    requires d < 10
  {
    CharOf(48 + d)
  }

  function Decimal(n: nat): (s: Text)
    ensures s != [] && forall c :: c in s ==> '0' <= c <= '9'
  {
    if n < 10 then [DigitChar(n)] else Decimal(n / 10) + [DigitChar(n % 10)]
  }

  const TWO_TO_64 := 0x1_0000_0000_0000_0000

  /** Digits, as an unsigned 64-bit number. */
  function Digits(s: Text): Option<nat> {
    if s == [] || !(forall c :: c in s ==> '0' <= c <= '9') || Value(s) >= TWO_TO_64 then None else Some(Value(s))
  }

  /**
   lexical_cast to an unsigned 64-bit number; None when it throws.  A sign is read
   too, and '-' negates modulo 2^64.
   */
  function Number(s: Text): Option<nat> {
    if s != [] && s[0] == '+' then Digits(s[1..])
    else if s != [] && s[0] == '-' then
      match Digits(s[1..])
      case None => None
      case Some(n) => Some(if n == 0 then 0 else TWO_TO_64 - n)
    else Digits(s)
  }

  function Value(s: Text): nat {
    if s == [] then 0 else Value(s[..|s| - 1]) * 10 + (if '0' <= s[|s| - 1] <= '9' then s[|s| - 1] as int - 48 else 0)
  }

  lemma {:induction false} ValueOfDecimal(n: nat)
    ensures Value(Decimal(n)) == n
  {
    if n >= 10 {
      ValueOfDecimal(n / 10);
      assert (Decimal(n / 10) + [DigitChar(n % 10)])[..|Decimal(n / 10)|] == Decimal(n / 10);
    } else {
      assert [DigitChar(n)][..0] == [];
    }
  }

  /** A printed length is read back as it was. */
  lemma NumberRoundTrip(n: nat)
    ensures Number(Decimal(n)) == if n < TWO_TO_64 then Some(n) else None
  {
    assert Decimal(n)[0] in Decimal(n);
    ValueOfDecimal(n);
  }

  lemma {:induction false} ValueBehindZero(s: Text)
    ensures Value(['0'] + s) == Value(s)
    decreases |s|
  {
    var t := ['0'] + s;
    if s == [] {
      assert t[..|t| - 1] == [];
    } else {
      assert t[..|t| - 1] == ['0'] + s[..|s| - 1];
      ValueBehindZero(s[..|s| - 1]);
    }
  }

  /** Leading zeros change nothing. */
  lemma {:induction false} LeadingZero(s: Text)
    requires s != [] && forall c :: c in s ==> '0' <= c <= '9'
    ensures Number(['0'] + s) == Number(s)
  {
    var t := ['0'] + s;
    assert s[0] in s && forall c :: c in t ==> c == '0' || c in s;
    ValueBehindZero(s);
  }

  /** Anything but digits behind a sign, or none, is not a number. */
  lemma NotANumber(s: Text, i: nat)
    requires i < |s| && !('0' <= s[i] <= '9') && (i == 0 ==> s[0] != '+' && s[0] != '-')
    ensures Number(s) == None
  {
    assert s[i] in s;
    if i > 0 { assert s[1..][i - 1] == s[i] && s[i] in s[1..]; }
  }

  /** What a signed number is read as: without its '+', or with the value that adds up to 2^64 (or 0) with it. */
  lemma SignedNumber(s: Text)
    requires Digits(s).Some?
    ensures Number(s) == Number(['+'] + s) == Digits(s)
    ensures Number(['-'] + s).Some? && (Number(['-'] + s).value + Digits(s).value) % TWO_TO_64 == 0
  {
    assert s[0] in s;
    assert (['+'] + s)[1..] == s && (['-'] + s)[1..] == s;
  }

  // ------------------------------------------------------------------ printing

  const CONNECTION: Text := "connection"
  const CONTENT_LENGTH: Text := "content-length"
  const CRLF: Text := "\r\n"

  function Line(name: Text, value: Text): Text { name + (": " + (value + CRLF)) }

  function Part(mark: Octet, s: Text): Text { if s == [] then [] else [mark] + s }

  function Target(r: Request): Text { r.path + (Part('?', r.query) + Part('#', r.fragment)) }

  function VersionText(v: nat): Text { "HTTP/" + (Decimal(v / 16) + ("." + (Decimal(v % 16) + CRLF))) }

  function CloseText(close: bool): Text { if close then "close" else "keep-alive" }

  /** The header lines in the order of `keys`; a connection header is left out unless it is a websocket. */
  function HeaderLines(headers: Table, keys: seq<Text>, websocket: bool): Text {
    if keys == [] then []
    else if keys[0] !in headers || (!websocket && keys[0] == CONNECTION) then HeaderLines(headers, keys[1..], websocket)
    else Line(headers[keys[0]].key, headers[keys[0]].value) + HeaderLines(headers, keys[1..], websocket)
  }

  function BodyPart(body: Text): Text {
    if body == [] then CRLF else Line(CONTENT_LENGTH, Decimal(|body|)) + (CRLF + body)
  }

  /** HttpRequest::dump; `keys` is the order in which the map is walked. */
  function Dump(r: Request, keys: seq<Text>): Text {
    MethodName(r.verb) + (" " + (Target(r) + (" " + (VersionText(r.version)
      + ((if r.websocket then [] else Line(CONNECTION, CloseText(r.close)))
      + (HeaderLines(r.headers, keys, r.websocket) + BodyPart(r.body)))))))
  }

  /** The text of a request, line by line; that of a websocket has no line for its close flag. */
  lemma DumpIsText(r: Request, keys: seq<Text>)
    requires r.version == 0x10 || r.version == 0x11
    ensures var target := r.path + (if r.query == [] then [] else "?" + r.query)
                          + if r.fragment == [] then [] else "#" + r.fragment;
            var version := if r.version == 0x10 then " HTTP/1.0\r\n" else " HTTP/1.1\r\n";
            var conn := if r.websocket then []
                        else if r.close then "connection: close\r\n" else "connection: keep-alive\r\n";
            var end := if r.body == [] then "\r\n"
                       else "content-length: " + Decimal(|r.body|) + "\r\n\r\n" + r.body;
            Dump(r, keys) == MethodName(r.verb) + " " + target + version + conn
                             + HeaderLines(r.headers, keys, r.websocket) + end
  {
    hide MethodName, HeaderLines, Decimal, Line, CloseText, VersionText, BodyPart, Target;
    var h := HeaderLines(r.headers, keys, r.websocket);
    var c := if r.websocket then [] else Line(CONNECTION, CloseText(r.close));
    Join(MethodName(r.verb), " ", Target(r), " ", VersionText(r.version), c, h + BodyPart(r.body));
    TargetIs(r);
    VersionIs(r.version);
    ConnectionLine(r.close);
    BodyEnd(r.body);
  }

  lemma TargetIs(r: Request)
    ensures Target(r) == r.path + (if r.query == [] then [] else "?" + r.query)
                         + if r.fragment == [] then [] else "#" + r.fragment
  {
  }

  lemma VersionIs(v: nat)
    requires v == 0x10 || v == 0x11
    ensures " " + VersionText(v) == if v == 0x10 then " HTTP/1.0\r\n" else " HTTP/1.1\r\n"
  {
    assert Decimal(1) == "1" && Decimal(0) == "0";
  }

  lemma ConnectionLine(close: bool)
    ensures Line(CONNECTION, CloseText(close))
         == if close then "connection: close\r\n" else "connection: keep-alive\r\n"
  {
  }

  lemma BodyEnd(body: Text)
    ensures BodyPart(body) == if body == [] then "\r\n"
                              else "content-length: " + Decimal(|body|) + "\r\n\r\n" + body
  {
    hide Decimal;
    BodyMarks();
    LineThen(CONTENT_LENGTH, ": ", Decimal(|body|), CRLF, body);
  }

  lemma BodyMarks()
    ensures CONTENT_LENGTH + ": " == "content-length: "
    ensures CRLF + CRLF == "\r\n\r\n" && CRLF == "\r\n"
  {
  }

  lemma LineThen(a: Text, b: Text, c: Text, e: Text, body: Text)
    ensures (a + (b + (c + e))) + (e + body) == (a + b) + c + (e + e) + body
  {
  }

  lemma Join(a: Text, b: Text, c: Text, d: Text, e: Text, f: Text, g: Text)
    ensures a + (b + (c + (d + (e + (f + g))))) == a + b + c + (d + e) + f + g
  {
  }

  // ------------------------------------------------------------------- reading

  /** HttpRequest::init: the connection header decides about closing. */
  function Initialised(r: Request): Request {
    var conn := Lookup(r.headers, CONNECTION, []);
    if conn == [] then r else r.(close := Fold(conn) != Fold("keep-alive"))
  }

  function ContentLength(r: Request): nat {
    var value := Lookup(r.headers, CONTENT_LENGTH, []);
    if Fold(CONTENT_LENGTH) in r.headers && Number(value).Some? then Number(value).value else 0
  }

  const FORM_TYPE: Text := "application/x-www-form-urlencoded"

  /** strcasestr for a lower-case needle. */
  predicate Mentions(s: Text, needle: Text)
    decreases |s|
  {
    StartsWith(Fold(s), needle) || (s != [] && Fold(s) != [] && Mentions(s[1..], needle))
  }

  /** The text in lower case, which has no capital letters itself. */
  predicate Lowers(s: Text, lower: Text) {
    |s| == |lower| && forall j :: 0 <= j < |s| ==>
                         s[j] == lower[j] || ('A' <= s[j] <= 'Z' && lower[j] as int == s[j] as int + 32)
  }

  /** `needle` stands at `k`, its letters in any case. */
  predicate AppearsAt(s: Text, k: nat, needle: Text) {
    k + |needle| <= |s| && Lowers(s[k..k + |needle|], needle)
  }

  lemma BeginsFolded(s: Text, n: nat, needle: Text)
    requires EndsAt(s, n) && forall c :: c in needle ==> !('A' <= c <= 'Z')
    ensures StartsWith(Fold(s), needle) <==> |needle| <= n && AppearsAt(s, 0, needle)
  {
    hide Fold;
    FoldIs(s, n);
    if |needle| <= n {
      var folded, begin := Fold(s)[..|needle|], s[..|needle|];
      assert s[0..|needle|] == begin;
      assert forall j :: 0 <= j < |needle| ==> folded[j] == Fold(s)[j] && begin[j] == s[j] && needle[j] in needle;
      if Lowers(begin, needle) {
        assert forall j :: 0 <= j < |needle| ==> folded[j] == needle[j];
      }
    }
  }

  /** strcasestr: the needle stands somewhere in front of the first NUL. */
  lemma {:induction false} MentionsIs(s: Text, n: nat, needle: Text)
    requires EndsAt(s, n) && forall c :: c in needle ==> !('A' <= c <= 'Z')
    ensures Mentions(s, needle) <==> exists k :: 0 <= k && k + |needle| <= n && AppearsAt(s, k, needle)
    decreases n
  {
    hide AppearsAt, StartsWith;
    BeginsFolded(s, n, needle);
    FoldIs(s, n);
    if n > 0 {
      assert s[0] == s[..n][0] && s[1..][..n - 1] == s[..n][1..];
      MentionsIs(s[1..], n - 1, needle);
      forall k | 0 <= k < |s| ensures AppearsAt(s[1..], k, needle) <==> AppearsAt(s, k + 1, needle) {
        AppearsLater(s, k, needle);
      }
      if k :| 0 <= k && k + |needle| <= n - 1 && AppearsAt(s[1..], k, needle) {
        assert AppearsAt(s, k + 1, needle);
      }
      if k :| 0 < k && k + |needle| <= n && AppearsAt(s, k, needle) {
        assert AppearsAt(s[1..], k - 1, needle);
      }
    }
  }

  lemma AppearsLater(s: Text, k: nat, needle: Text)
    requires s != []
    ensures AppearsAt(s[1..], k, needle) <==> AppearsAt(s, k + 1, needle)
  {
    if k + 1 + |needle| <= |s| {
      assert s[1..][k..k + |needle|] == s[k + 1..k + 1 + |needle|];
    }
  }

  /**
   The close flag after init: as it was without a connection header (or an empty
   one); otherwise set, unless the header's value is "keep-alive" in any case.
   */
  lemma ClosesUnlessKeepAlive(r: Request, conn: Text, n: nat)
    requires conn == Lookup(r.headers, CONNECTION, []) && EndsAt(conn, n)
    ensures Initialised(r)
         == r.(close := if conn == [] then r.close else !(n == 10 && Lowers(conn[..n], "keep-alive")))
  {
    hide Fold;
    var alive: Text := "keep-alive";
    FoldIs(conn, n);
    FoldIs(alive, |alive|);
    assert forall i :: 0 <= i < |alive| ==> Fold(alive)[i] == alive[i];
    assert Fold(alive) == alive;
    BeginsFolded(conn, n, alive);
    if n == |alive| { assert conn[0..n] == conn[..n]; }
    assert n == |alive| ==> Fold(conn)[..|alive|] == Fold(conn);
  }

  function WithQuery(m: Table, r: Request): Table { Parsed(r.query, 0, '&', false, m) }

  function WithBody(m: Table, r: Request): Table {
    if Mentions(Lookup(r.headers, "content-type", []), FORM_TYPE) then Parsed(r.body, 0, '&', false, m) else m
  }

  function WithCookies(m: Table, r: Request): Table { Parsed(Lookup(r.headers, "cookie", []), 0, ';', true, m) }

  /** A key of the query answers with its first value there, whatever the body says. */
  lemma QueryParamWins(r: Request, bs: seq<Binding>, spaceAsPlus: bool, key: Text, default: Text)
    requires r.query == Joined(bs, ['&'], spaceAsPlus) && forall b :: b in bs ==> '=' !in b.key
    requires FirstOf(bs, key).Some?
    ensures Lookup(WithBody(WithQuery(map[], r), r), key, default) == FirstOf(bs, key).value.value
  {
    FormRoundTrip(bs, spaceAsPlus, map[]);
    FirstWinsIs(map[], bs, key);
    ParsedKeeps(r.body, 0, '&', false, WithQuery(map[], r), Fold(key));
  }

  /**
   A parameter is answered by the query's first binding of its key, then, if the
   content type mentions the form type, by the body's, and else by the default.
   */
  lemma ParamIsRead(r: Request, qs: seq<Binding>, bs: seq<Binding>, spaceAsPlus: bool, key: Text, default: Text, n: nat)
    requires r.query == Joined(qs, ['&'], spaceAsPlus) && forall b :: b in qs ==> '=' !in b.key
    requires r.body == Joined(bs, ['&'], spaceAsPlus) && forall b :: b in bs ==> '=' !in b.key
    requires EndsAt(Lookup(r.headers, "content-type", []), n)
    ensures var contentType: Text := Lookup(r.headers, "content-type", []);
            var form := exists k :: 0 <= k && k + |FORM_TYPE| <= n && AppearsAt(contentType, k, FORM_TYPE);
            Lookup(WithBody(WithQuery(map[], r), r), key, default)
              == match FirstOf(qs, key)
                 case Some(b) => b.value
                 case None =>
                   if !form then default
                   else match FirstOf(bs, key) case Some(b) => b.value case None => default
  {
    hide Fold, Mentions, AppearsAt;
    FormTypeIsLower();
    MentionsIs(Lookup(r.headers, "content-type", []), n, FORM_TYPE);
    FormRoundTrip(qs, spaceAsPlus, map[]);
    FormRoundTrip(bs, spaceAsPlus, WithQuery(map[], r));
    FirstWinsIs(map[], qs, key);
    FirstWinsIs(WithQuery(map[], r), bs, key);
  }

  lemma FormTypeIsLower()
    ensures FORM_TYPE == "application/x-www-form-urlencoded"
    ensures forall c :: c in FORM_TYPE ==> !('A' <= c <= 'Z')
  {
  }

  /** A cookie answers with the first value it was written with. */
  lemma CookieIsRead(r: Request, bs: seq<Binding>, spaceAsPlus: bool, key: Text, default: Text)
    requires Lookup(r.headers, "cookie", []) == Joined(bs, [';', ' '], spaceAsPlus)
    requires forall b :: b in bs ==> '=' !in b.key && IsTrimmed(b.key)
    ensures Lookup(WithCookies(map[], r), key, default)
         == match FirstOf(bs, key) case None => default case Some(b) => b.value
  {
    CookieRoundTrip(bs, spaceAsPlus, map[]);
    FirstWinsIs(map[], bs, key);
  }

  class HttpRequest {
    var head: Request
    var params: Table
    var cookies: Table
    var queryDone: bool    // the bits of m_parserParamFlag
    var bodyDone: bool
    var cookiesDone: bool

    constructor ()
      ensures head == Request(GET, 0x11, true, false, "/", [], [], [], map[])
      ensures params == map[] && cookies == map[] && !queryDone && !bodyDone && !cookiesDone
    {
      head, params, cookies := BLANK, map[], map[];
      queryDone, bodyDone, cookiesDone := false, false, false;
    }

    method Init()
      modifies `head
      ensures head == Initialised(old(head))
    {
      var conn := Lookup(head.headers, CONNECTION, []);
      if conn != [] {
        if Fold(conn) == Fold("keep-alive") {
          head := head.(close := false);
        } else {
          head := head.(close := true);
        }
      }
    }

    /** The parameters of the query are read once. */
    method InitQueryParam()
      modifies `params, `queryDone
      ensures queryDone
      ensures params == if old(queryDone) then old(params) else WithQuery(old(params), head)
    {
      if queryDone {
        return;
      }
      params := ParseParam(head.query, '&', false, params);
      queryDone := true;
    }

    /** Those of the body too, if it is a form. */
    method InitBodyParam()
      modifies `params, `bodyDone
      ensures bodyDone
      ensures params == if old(bodyDone) then old(params) else WithBody(old(params), head)
    {
      hide Fold, Mentions;
      if bodyDone {
        return;
      }
      var contentType := Lookup(head.headers, "content-type", []);
      if !Mentions(contentType, FORM_TYPE) {
        bodyDone := true;
        return;
      }
      params := ParseParam(head.body, '&', false, params);
      bodyDone := true;
    }

    method InitCookies()
      modifies `cookies, `cookiesDone
      ensures cookiesDone
      ensures cookies == if old(cookiesDone) then old(cookies)
                         else WithCookies(old(cookies), head)
    {
      if cookiesDone {
        return;
      }
      var cookie := Lookup(head.headers, "cookie", []);
      if cookie == [] {
        cookiesDone := true;
        return;
      }
      cookies := ParseParam(cookie, ';', true, cookies);
      cookiesDone := true;
    }

    method GetParam(key: Text, default: Text) returns (value: Text)
      modifies `params, `queryDone, `bodyDone
      ensures queryDone && bodyDone
      ensures var query := if old(queryDone) then old(params) else WithQuery(old(params), head);
              params == if old(bodyDone) then query else WithBody(query, head)
      ensures value == Lookup(params, key, default)
    {
      InitQueryParam();
      InitBodyParam();
      value := Lookup(params, key, default);
    }

    method GetCookie(key: Text, default: Text) returns (value: Text)
      modifies `cookies, `cookiesDone
      ensures cookiesDone
      ensures cookies == if old(cookiesDone) then old(cookies) else WithCookies(old(cookies), head)
      ensures value == Lookup(cookies, key, default)
    {
      InitCookies();
      value := Lookup(cookies, key, default);
    }
  }
}
