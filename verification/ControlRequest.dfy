/** The daemon's control request: what the worker prints and what the daemon's parsers read back. Texts
    are sequences of bytes, written as characters below 256. */
module ControlRequest {
  import opened Text
  import opened Paths

  type Byte = c: char | c as int < 256

  // ---- Percent escapes (sections 2.1 and 2.3 of RFC 3986) ----------------------------

  predicate Unreserved(c: char) {
    'A' <= c <= 'Z' || 'a' <= c <= 'z' || '0' <= c <= '9' || c == '-' || c == '_' || c == '.' || c == '~'
  }

  function UpperHex(v: nat): char
    requires v < 16
  {
    if v < 10 then ('0' as int + v) as char else ('A' as int + v - 10) as char
  }

  function HexValue(c: char): (v: Option<nat>)
    ensures v.Some? ==> v.value < 16
  {
    if '0' <= c <= '9' then Some(c as int - '0' as int)
    else if 'a' <= c <= 'f' then Some(c as int - 'a' as int + 10)
    else if 'A' <= c <= 'F' then Some(c as int - 'A' as int + 10)
    else None
  }

  function EncodeByte(b: Byte): string {
    if Unreserved(b) then [b] else ['%', UpperHex(b as int / 16), UpperHex(b as int % 16)]
  }

  function Encode(s: seq<Byte>): string {
    if s == [] then "" else EncodeByte(s[0]) + Encode(s[1..])
  }

  lemma {:induction false} EncodeTurn(s: seq<Byte>, i: nat, out: string)
    requires i < |s|
    ensures out + EncodeByte(s[i]) + Encode(s[i + 1..]) == out + Encode(s[i..])
  {
    assert s[i..][1..] == s[i + 1..];
  }

  method PercentEncode(s: seq<Byte>) returns (out: string)
    ensures out == Encode(s)
  {
    out := "";
    for i := 0 to |s|
      invariant out + Encode(s[i..]) == Encode(s)
    {
      EncodeTurn(s, i, out);
      if Unreserved(s[i]) {
        out := out + [s[i]];
      } else {
        out := out + ['%', UpperHex(s[i] as int / 16), UpperHex(s[i] as int % 16)];
      }
    }
  }

  /** The control server's decoder and the one for `protondrive:` URLs. */
  datatype Style = Query | Url

  /** The byte two characters after a `%` stand for. Parsing them as a number also accepts a plus sign. */
  function Escaped(style: Style, a: char, b: char): (v: Option<nat>)
    ensures v.Some? ==> v.value < 256
  {
    var low := HexValue(b);
    if low.None? then None
    else if style.Url? && a == '+' then low
    else
      var high := HexValue(a);
      if high.None? then None else Some(16 * high.value + low.value)
  }

  function Decode(style: Style, s: string): string {
    if s == "" then ""
    else if style.Query? && s[0] == '+' then [' '] + Decode(style, s[1..])
    else if s[0] == '%' && |s| >= 3 && Escaped(style, s[1], s[2]).Some? then
      [Escaped(style, s[1], s[2]).value as char] + Decode(style, s[3..])
    else [s[0]] + Decode(style, s[1..])
  }

  /** One turn of the decoding loop: how many characters it takes and the one it writes. */
  function Turn(style: Style, s: string, i: nat): (turn: (nat, char))
    requires i < |s|
    ensures 1 <= turn.0 <= |s| - i
  {
    if style.Query? && s[i] == '+' then (1, ' ')
    else if s[i] == '%' && i + 2 < |s| && Escaped(style, s[i + 1], s[i + 2]).Some? then
      (3, Escaped(style, s[i + 1], s[i + 2]).value as char)
    else (1, s[i])
  }

  lemma {:induction false} DecodeTurn(style: Style, s: string, i: nat, out: string)
    requires i < |s|
    ensures var (taken, c) := Turn(style, s, i);
      out + [c] + Decode(style, s[i + taken..]) == out + Decode(style, s[i..])
  {
    var (taken, c) := Turn(style, s, i);
    assert s[i..][taken..] == s[i + taken..];
    assert Decode(style, s[i..]) == [c] + Decode(style, s[i + taken..]);
  }

  method PercentDecode(s: string) returns (out: string)
    ensures out == Decode(Query, s)
  {
    out := "";
    var i := 0;
    while i < |s|
      invariant i <= |s|
      invariant out + Decode(Query, s[i..]) == Decode(Query, s)
    {
      DecodeTurn(Query, s, i, out);
      var (taken, c) := Turn(Query, s, i);
      out, i := out + [c], i + taken;
    }
  }

  method PercentDecodeUrl(s: string) returns (out: string)
    ensures out == Decode(Url, s)
  {
    out := "";
    var i := 0;
    while i < |s|
      invariant i <= |s|
      invariant out + Decode(Url, s[i..]) == Decode(Url, s)
    {
      DecodeTurn(Url, s, i, out);
      var (taken, c) := Turn(Url, s, i);
      out, i := out + [c], i + taken;
    }
  }

  lemma {:induction false} DecodeByte(style: Style, b: Byte, rest: string)
    ensures Decode(style, EncodeByte(b) + rest) == [b] + Decode(style, rest)
  {
    var s := EncodeByte(b) + rest;
    if Unreserved(b) {
      assert s[1..] == rest;
    } else {
      var high, low := b as int / 16, b as int % 16;
      assert HexValue(UpperHex(high)) == Some(high) && HexValue(UpperHex(low)) == Some(low);
      assert UpperHex(high) != '+';
      assert s[0] == '%' && s[1] == UpperHex(high) && s[2] == UpperHex(low);
      assert s[3..] == rest;
    }
  }

  /** The hexadecimal digits, in either case. */
  lemma {:induction false} HexIff(c: char, v: nat)
    requires v < 16
    ensures HexValue(c) == Some(v) <==> c == "0123456789abcdef"[v] || c == "0123456789ABCDEF"[v]
  {
    var digits := "0123456789abcdef";
    assert forall i :: 0 <= i < 16 ==> digits[i] as int == if i < 10 then '0' as int + i else 'a' as int + i - 10;
    var capitals := "0123456789ABCDEF";
    assert forall i :: 0 <= i < 16 ==> capitals[i] as int == if i < 10 then '0' as int + i else 'A' as int + i - 10;
  }

  /** A byte stands for itself, or is written as a percent sign and its two digits in capitals. */
  lemma {:induction false} EncodeByteIs(b: Byte)
    ensures var high, low := b as int / 16, b as int % 16;
      EncodeByte(b) ==
        if 'A' <= b <= 'Z' || 'a' <= b <= 'z' || '0' <= b <= '9' || b in "-_.~" then [b]
        else ['%', "0123456789ABCDEF"[high], "0123456789ABCDEF"[low]]
  {
    assert b in "-_.~" <==> b == '-' || b == '_' || b == '.' || b == '~' by {
      assert "-_.~"[0] == '-' && "-_.~"[1] == '_' && "-_.~"[2] == '.' && "-_.~"[3] == '~';
    }
    var capitals := "0123456789ABCDEF";
    assert forall i :: 0 <= i < 16 ==> capitals[i] as int == if i < 10 then '0' as int + i else 'A' as int + i - 10;
  }

  /** Two digits after a percent sign are one byte; any other percent sign is kept; all else stands for itself,
      but for the plus sign in a query. */
  lemma {:induction false} DecodeReads(style: Style, c: char, a: char, b: char, rest: string)
    ensures HexValue(a).Some? && HexValue(b).Some? ==>
              Decode(style, ['%', a, b] + rest) ==
              [(16 * HexValue(a).value + HexValue(b).value) as char] + Decode(style, rest)
    ensures HexValue(b).None? || (HexValue(a).None? && !(style.Url? && a == '+')) ==>
              Decode(style, ['%', a, b] + rest) == ['%'] + Decode(style, [a, b] + rest)
    ensures |rest| < 2 ==> Decode(style, ['%'] + rest) == ['%'] + Decode(style, rest)
    ensures c != '%' && !(style.Query? && c == '+') ==> Decode(style, [c] + rest) == [c] + Decode(style, rest)
    ensures Decode(Query, ['+'] + rest) == [' '] + Decode(Query, rest)
  {
    assert (['%', a, b] + rest)[1..] == [a, b] + rest && (['%', a, b] + rest)[3..] == rest;
    assert (['%'] + rest)[1..] == rest && ([c] + rest)[1..] == rest && (['+'] + rest)[1..] == rest;
  }

  /** Both decoders invert the encoder on every byte string. */
  lemma {:induction false} DecodeEncode(style: Style, s: seq<Byte>)
    ensures Decode(style, Encode(s)) == s
  {
    if s != [] {
      DecodeByte(style, s[0], Encode(s[1..]));
      DecodeEncode(style, s[1..]);
    }
  }

  /** The two decoders agree on exactly the texts without a plus sign. */
  lemma {:induction false} DecodersAgree(s: string)
    ensures Decode(Query, s) == Decode(Url, s) <==> '+' !in s
  {
    if s != "" {
      var query, url := Decode(Query, s), Decode(Url, s);
      if s[0] == '+' {
        assert query[0] == ' ' && url[0] == '+';
      } else if s[0] == '%' && |s| >= 3 && Escaped(Url, s[1], s[2]).Some? {
        if s[1] == '+' {
          assert query[0] == '%' && url[0] as int < 16;
        } else {
          assert s == s[..3] + s[3..];
          SameHead(query[0], Decode(Query, s[3..]), Decode(Url, s[3..]));
          DecodersAgree(s[3..]);
        }
      } else {
        assert s == [s[0]] + s[1..];
        SameHead(s[0], Decode(Query, s[1..]), Decode(Url, s[1..]));
        DecodersAgree(s[1..]);
      }
    }
  }

  lemma SameHead(c: char, x: string, y: string)
    ensures [c] + x == [c] + y <==> x == y
  {
    assert ([c] + x)[1..] == x && ([c] + y)[1..] == y;
  }

  predicate EncodedChar(c: char) {
    Unreserved(c) || c == '%'
  }

  lemma {:induction false} EncodedChars(s: seq<Byte>)
    ensures forall i :: 0 <= i < |Encode(s)| ==> EncodedChar(Encode(s)[i])
  {
    if s != [] {
      EncodedChars(s[1..]);
      var head, tail := EncodeByte(s[0]), Encode(s[1..]);
      forall i | 0 <= i < |Encode(s)|
        ensures EncodedChar(Encode(s)[i])
      {
        assert Encode(s)[i] == if i < |head| then head[i] else tail[i - |head|];
      }
    }
  }

  // ---- Lines and words ---------------------------------------------------------------

  predicate Blank(c: char) {
    c == ' ' || 9 <= c as int <= 13
  }

  predicate NoBlank(s: string) {
    forall i :: 0 <= i < |s| ==> !Blank(s[i])
  }

  function DropReturn(line: string): string {
    if line != "" && line[|line| - 1] == '\r' then line[..|line| - 1] else line
  }

  /** `str::lines`: cut after each newline, which goes with a carriage return before it. */
  function Lines(s: string): (lines: seq<string>)
    ensures forall i :: 0 <= i < |lines| ==> '\n' !in lines[i]
  {
    if s == "" then []
    else
      var n := FirstIndexOf(s, '\n');
      if n == |s| then [s] else [DropReturn(s[..n])] + Lines(s[n + 1..])
  }

  function TrimStart(s: string): (r: string)
    ensures |r| <= |s|
    ensures r != "" ==> !Blank(r[0])
    ensures s == "" || !Blank(s[0]) ==> r == s
    ensures forall c :: c in r ==> c in s
  {
    if s == "" || !Blank(s[0]) then s else TrimStart(s[1..])
  }

  function TrimEnd(s: string): (r: string)
    ensures r != "" ==> !Blank(r[|r| - 1])
    ensures s == "" || !Blank(s[|s| - 1]) ==> r == s
    ensures r <= s
  {
    if s == "" || !Blank(s[|s| - 1]) then s else TrimEnd(s[..|s| - 1])
  }

  function Trim(s: string): (r: string)
    ensures r != "" ==> !Blank(r[0]) && !Blank(r[|r| - 1])
    ensures forall c :: c in r ==> c in s
  {
    TrimEnd(TrimStart(s))
  }

  lemma {:induction false} TrimSpace(t: string)
    ensures Trim([' '] + Trim(t)) == Trim(t)
  {
    var r := Trim(t);
    assert ([' '] + r)[1..] == r;
    assert TrimStart([' '] + r) == TrimStart(r) == r;
  }

  function WordLength(s: string): (n: nat)
    ensures n <= |s|
    ensures NoBlank(s[..n])
    ensures n < |s| ==> Blank(s[n])
  {
    if s == "" || Blank(s[0]) then 0
    else
      var n := WordLength(s[1..]);
      assert s[..n + 1] == [s[0]] + s[1..][..n];
      n + 1
  }

  /** `str::split_whitespace`. */
  function Words(s: string): (words: seq<string>)
    ensures forall i :: 0 <= i < |words| ==> NoBlank(words[i])
    decreases |s|
  {
    var t := TrimStart(s);
    var n := WordLength(t);
    if n == 0 then [] else [t[..n]] + Words(t[n..])
  }

  lemma {:induction false} WordLengthIs(s: string, n: nat)
    requires n <= |s| && NoBlank(s[..n]) && (n == |s| || Blank(s[n]))
    ensures WordLength(s) == n
  {
    if n > 0 {
      assert s[..n][0] == s[0];
      assert s[1..][..n - 1] == s[..n][1..];
      WordLengthIs(s[1..], n - 1);
    }
  }

  lemma {:induction false} FirstWord(word: string, rest: string)
    requires word != "" && NoBlank(word) && (rest == "" || Blank(rest[0]))
    ensures Words(word + rest) == [word] + Words(rest)
  {
    var s := word + rest;
    assert s[0] == word[0];
    assert TrimStart(s) == s;
    assert s[..|word|] == word && s[|word|..] == rest;
    WordLengthIs(s, |word|);
  }

  lemma {:induction false} SpaceThenWords(s: string)
    ensures Words([' '] + s) == Words(s)
  {
    assert ([' '] + s)[1..] == s;
    assert TrimStart([' '] + s) == TrimStart(s);
  }

  /** Text that `lines` gives back as it is. */
  predicate PlainLine(line: string) {
    '\n' !in line && (line == "" || line[|line| - 1] != '\r')
  }

  lemma {:induction false} FirstOfLines(line: string, rest: string)
    requires PlainLine(line)
    ensures Lines(line + ['\r', '\n'] + rest) == [line] + Lines(rest)
  {
    var cut := line + ['\r'];
    var s := cut + ['\n'] + rest;
    assert line + ['\r', '\n'] + rest == s;
    FirstIndexAfter(cut, '\n', rest);
    assert s[..|cut|] == cut && s[|cut| + 1..] == rest;
    assert cut[..|cut| - 1] == line;
  }

  function PrintLines(lines: seq<string>): string {
    if lines == [] then "" else lines[0] + ['\r', '\n'] + PrintLines(lines[1..])
  }

  lemma {:induction false} LinesOfPrinted(lines: seq<string>)
    requires forall i :: 0 <= i < |lines| ==> PlainLine(lines[i])
    ensures Lines(PrintLines(lines)) == lines
  {
    if lines != [] {
      FirstOfLines(lines[0], PrintLines(lines[1..]));
      LinesOfPrinted(lines[1..]);
      assert lines == [lines[0]] + lines[1..];
    }
  }

  lemma {:induction false} FiveLines(a: string, b: string, c: string, d: string, e: string)
    requires PlainLine(a) && PlainLine(b) && PlainLine(c) && PlainLine(d) && PlainLine(e)
    ensures Lines(PrintLines([a, b, c, d, e])) == [a, b, c, d, e]
  {
    LinesOfPrinted([a, b, c, d, e]);
  }

  // ---- The parsers -------------------------------------------------------------------

  /** `lines().next()`, then the second word of it. */
  function RequestTarget(req: string): (target: Option<string>)
    ensures target.Some? ==> NoBlank(target.value)
  {
    var lines := Lines(req);
    if lines == [] then None
    else
      var words := Words(lines[0]);
      if |words| < 2 then None else Some(words[1])
  }

  function RequestPath(req: string): string {
    var target := RequestTarget(req);
    Split(if target.Some? then target.value else "", '?')[0]
  }

  function FindParam(pairs: seq<string>, name: string): Option<string> {
    if pairs == [] then None
    else
      var n := FirstIndexOf(pairs[0], '=');
      if n < |pairs[0]| && pairs[0][..n] == name then Some(Decode(Query, pairs[0][n + 1..]))
      else FindParam(pairs[1..], name)
  }

  function ExtractQueryParam(req: string, name: string): Option<string> {
    var target := RequestTarget(req);
    if target.None? then None
    else
      var n := FirstIndexOf(target.value, '?');
      if n == |target.value| then None else FindParam(Split(target.value[n + 1..], '&'), name)
  }

  function LowerChar(c: char): char {
    if 'A' <= c <= 'Z' then (c as int + 32) as char else c
  }

  function Lower(s: string): string {
    seq(|s|, i requires 0 <= i < |s| => LowerChar(s[i]))
  }

  function FindHeader(lines: seq<string>, prefix: string): (value: Option<string>)
    requires forall i :: 0 <= i < |lines| ==> '\n' !in lines[i]
    ensures value.Some? ==> '\n' !in value.value
  {
    if lines == [] then None
    else if prefix <= Lower(lines[0]) then Some(Trim(lines[0][|prefix|..]))
    else FindHeader(lines[1..], prefix)
  }

  function ExtractHeader(req: string, name: string): (value: Option<string>)
    ensures value.Some? ==> '\n' !in value.value
  {
    FindHeader(Lines(req), name + ":")
  }

  // ---- The request -------------------------------------------------------------------

  const TOKEN_HEADER := "x-kio-protondrive-daemon-token"

  /** The query printed for `path`. */
  function PathQuery(path: seq<Byte>): string {
    "path" + ['='] + Encode(path)
  }

  function RequestLine(route: string, path: seq<Byte>): string {
    "GET" + [' '] + (route + ['?'] + PathQuery(path)) + [' '] + "HTTP/1.1"
  }

  function HeaderLine(name: string, value: string): string {
    name + ":" + ([' '] + value)
  }

  /** The request, line by line; each line ends in a carriage return and a newline. */
  function DaemonRequest(route: string, path: seq<Byte>, token: string): string {
    PrintLines([RequestLine(route, path), HeaderLine("Host", "127.0.0.1"), HeaderLine(TOKEN_HEADER, Trim(token)),
                HeaderLine("Connection", "close"), ""])
  }

  /** Routes the parsers can tell from the rest of the line. */
  predicate PlainRoute(route: string) {
    NoBlank(route) && '?' !in route
  }

  lemma {:induction false} QueryIsPlain(path: seq<Byte>)
    ensures NoBlank(PathQuery(path)) && '&' !in PathQuery(path)
  {
    EncodedChars(path);
    var query := PathQuery(path);
    forall i | 0 <= i < |query|
      ensures !Blank(query[i]) && query[i] != '&'
    {
      if i >= 5 {
        assert query[i] == Encode(path)[i - 5];
      }
    }
  }

  lemma {:induction false} ThreeWords(a: string, b: string, c: string)
    requires a != "" && b != "" && c != ""
    requires NoBlank(a) && NoBlank(b) && NoBlank(c)
    ensures Words(a + [' '] + b + [' '] + c) == [a, b, c]
  {
    var tail := [' '] + c;
    assert a + [' '] + b + [' '] + c == a + ([' '] + (b + tail));
    FirstWord(a, [' '] + (b + tail));
    SpaceThenWords(b + tail);
    FirstWord(b, tail);
    SpaceThenWords(c);
    assert c == c + "";
    FirstWord(c, "");
  }

  lemma {:induction false} ThreeWordsPlain(a: string, b: string, c: string)
    requires c != "" && NoBlank(a) && NoBlank(b) && NoBlank(c)
    ensures PlainLine(a + [' '] + b + [' '] + c)
  {
    var line := a + [' '] + b + [' '] + c;
    assert line[|line| - 1] == c[|c| - 1];
    assert !Blank(c[|c| - 1]);
    forall i | 0 <= i < |line|
      ensures line[i] != '\n'
    {
      if i < |a| {
        assert line[i] == a[i];
      } else if |a| < i <= |a| + |b| {
        assert line[i] == b[i - |a| - 1];
      } else if i > |a| + |b| + 1 {
        assert line[i] == c[i - |a| - |b| - 2];
      }
    }
  }

  lemma {:induction false} TargetIsOneWord(route: string, query: string)
    requires NoBlank(route) && NoBlank(query)
    ensures NoBlank(route + ['?'] + query)
  {
    var target := route + ['?'] + query;
    forall i | 0 <= i < |target|
      ensures !Blank(target[i])
    {
      if i < |route| {
        assert target[i] == route[i];
      } else if i > |route| {
        assert target[i] == query[i - |route| - 1];
      }
    }
  }

  lemma {:induction false} RequestLineIsRead(route: string, path: seq<Byte>)
    requires PlainRoute(route)
    ensures PlainLine(RequestLine(route, path)) && RequestLine(route, path)[0] == 'G'
    ensures Words(RequestLine(route, path)) == ["GET", route + ['?'] + PathQuery(path), "HTTP/1.1"]
  {
    QueryIsPlain(path);
    TargetIsOneWord(route, PathQuery(path));
    ThreeWords("GET", route + ['?'] + PathQuery(path), "HTTP/1.1");
    ThreeWordsPlain("GET", route + ['?'] + PathQuery(path), "HTTP/1.1");
  }

  lemma {:induction false} FirstLineOfRequest(route: string, path: seq<Byte>, token: string)
    requires PlainRoute(route)
    ensures RequestTarget(DaemonRequest(route, path, token)) == Some(route + ['?'] + PathQuery(path))
  {
    var lines := [RequestLine(route, path), HeaderLine("Host", "127.0.0.1"), HeaderLine(TOKEN_HEADER, Trim(token)),
                  HeaderLine("Connection", "close"), ""];
    RequestLineIsRead(route, path);
    FirstOfLines(lines[0], PrintLines(lines[1..]));
  }

  lemma {:induction false} FirstPieceIsPrefix(s: string, sep: char)
    ensures Split(s, sep)[0] <= s
  {
    if s != "" && s[0] != sep {
      FirstPieceIsPrefix(s[1..], sep);
      assert s == [s[0]] + s[1..];
    }
  }

  lemma {:induction false} ReadRouteIsPlain(req: string)
    ensures PlainRoute(RequestPath(req))
  {
    var target := RequestTarget(req);
    var text := if target.Some? then target.value else "";
    FirstPieceIsPrefix(text, '?');
    assert forall i :: 0 <= i < |RequestPath(req)| ==> RequestPath(req)[i] == text[i];
  }

  /** The daemon reads the route back exactly when it has no blank and no question mark. */
  lemma {:induction false} RouteReadBack(route: string, path: seq<Byte>, token: string)
    ensures RequestPath(DaemonRequest(route, path, token)) == route <==> PlainRoute(route)
  {
    ReadRouteIsPlain(DaemonRequest(route, path, token));
    if PlainRoute(route) {
      FirstLineOfRequest(route, path, token);
      SplitHead(route, '?', PathQuery(path));
    }
  }

  lemma {:induction false} ParamOfTarget(req: string, route: string, query: string, name: string)
    requires RequestTarget(req) == Some(route + ['?'] + query)
    requires '?' !in route && '&' !in query
    ensures ExtractQueryParam(req, name) == FindParam([query], name)
  {
    FirstIndexAfter(route, '?', query);
    assert (route + ['?'] + query)[|route| + 1..] == query;
    SplitWhole(query, '&');
  }

  lemma {:induction false} OnePair(key: string, value: string, name: string)
    requires '=' !in key
    ensures FindParam([key + ['='] + value], name) == if name == key then Some(Decode(Query, value)) else None
  {
    var pair := key + ['='] + value;
    FirstIndexAfter(key, '=', value);
    assert pair[..|key|] == key && pair[|key| + 1..] == value;
    var pairs: seq<string> := [pair];
    assert |pairs[1..]| == 0;
  }

  predicate HasKey(pair: string, name: string) {
    name + "=" <= pair
  }

  lemma {:induction false} KeyIs(pair: string, name: string)
    requires '=' !in name
    ensures var n := FirstIndexOf(pair, '=');
      (n < |pair| && pair[..n] == name <==> HasKey(pair, name)) && (HasKey(pair, name) ==> n == |name|)
  {
    if HasKey(pair, name) {
      FirstIndexAfter(name, '=', pair[|name| + 1..]);
      assert pair == name + ['='] + pair[|name| + 1..];
    }
  }

  /** A parameter is found exactly when some pair has its name; the first such pair gives the value. */
  lemma {:induction false} ParamIff(pairs: seq<string>, name: string)
    requires '=' !in name
    ensures FindParam(pairs, name).Some? <==> exists k :: 0 <= k < |pairs| && HasKey(pairs[k], name)
    ensures forall k :: 0 <= k < |pairs| && HasKey(pairs[k], name) &&
                        (forall i :: 0 <= i < k ==> !HasKey(pairs[i], name)) ==>
              FindParam(pairs, name) == Some(Decode(Query, pairs[k][|name| + 1..]))
  {
    if pairs != [] {
      KeyIs(pairs[0], name);
      ParamIff(pairs[1..], name);
      forall k | 0 < k < |pairs| && HasKey(pairs[k], name) && (forall i :: 0 <= i < k ==> !HasKey(pairs[i], name))
        ensures FindParam(pairs, name) == Some(Decode(Query, pairs[k][|name| + 1..]))
      {
        assert pairs[1..][k - 1] == pairs[k] && !HasKey(pairs[0], name);
        assert forall i :: 0 <= i < k - 1 ==> pairs[1..][i] == pairs[i + 1];
      }
    }
  }

  /** On such a route the path parameter reads back as the very bytes, and no other parameter is there. */
  lemma {:induction false} PathReadBack(route: string, path: seq<Byte>, token: string, name: string)
    requires PlainRoute(route)
    ensures ExtractQueryParam(DaemonRequest(route, path, token), name) == if name == "path" then Some(path) else None
  {
    FirstLineOfRequest(route, path, token);
    QueryIsPlain(path);
    ParamOfTarget(DaemonRequest(route, path, token), route, PathQuery(path), name);
    OnePair("path", Encode(path), name);
    DecodeEncode(Query, path);
  }

  // ---- The token header --------------------------------------------------------------

  predicate NoCapitals(s: string) {
    forall i :: 0 <= i < |s| ==> !('A' <= s[i] <= 'Z')
  }

  lemma {:induction false} OwnHeaderMatches(name: string, value: string)
    requires NoCapitals(name)
    ensures name + ":" <= Lower(HeaderLine(name, value))
    ensures HeaderLine(name, value)[|name| + 1..] == [' '] + value
  {
    var line, prefix := HeaderLine(name, value), name + ":";
    forall i | 0 <= i < |prefix|
      ensures Lower(line)[i] == prefix[i]
    {
      assert line[i] == prefix[i];
      assert i < |name| ==> prefix[i] == name[i];
    }
  }

  lemma {:induction false} OtherLetter(line: string, name: string)
    requires name != "" && line != "" && LowerChar(line[0]) != name[0]
    ensures !(name + ":" <= Lower(line))
  {
    assert Lower(line)[0] == LowerChar(line[0]);
    assert (name + ":")[0] == name[0];
  }

  lemma {:induction false} ThirdHeader(lines: seq<string>, name: string, value: string)
    requires |lines| >= 3 && forall i :: 0 <= i < |lines| ==> '\n' !in lines[i]
    requires name != "" && NoCapitals(name) && name[0] == 'x'
    requires lines[0] != "" && lines[0][0] == 'G' && lines[1] != "" && lines[1][0] == 'H'
    requires lines[2] == HeaderLine(name, value)
    ensures FindHeader(lines, name + ":") == Some(Trim([' '] + value))
  {
    OtherLetter(lines[0], name);
    OtherLetter(lines[1], name);
    OwnHeaderMatches(name, value);
    var prefix, second, third := name + ":", lines[1..], lines[1..][1..];
    assert second[0] == lines[1] && third[0] == lines[2];
    assert FindHeader(lines, prefix) == FindHeader(second, prefix);
    assert FindHeader(second, prefix) == FindHeader(third, prefix);
  }

  lemma {:induction false} NewlineIsNoLetter(s: string)
    requires forall i :: 0 <= i < |s| ==> s[i] == '-' || 'a' <= s[i] <= 'z'
    ensures NoCapitals(s) && '\n' !in s
  {
    forall i | 0 <= i < |s|
      ensures s[i] != '\n' && !('A' <= s[i] <= 'Z')
    {
      assert s[i] == '-' || 'a' <= s[i] <= 'z';
    }
  }

  lemma {:induction false} HeaderLineIsPlain(name: string, value: string)
    requires '\n' !in name && '\n' !in value && (value == "" || value[|value| - 1] != '\r')
    ensures PlainLine(HeaderLine(name, value))
  {
    var line := HeaderLine(name, value);
    if value != "" {
      assert line[|line| - 1] == value[|value| - 1];
    }
  }

  lemma {:induction false} TokenHeaderIsLower()
    ensures NoCapitals(TOKEN_HEADER) && '\n' !in TOKEN_HEADER && TOKEN_HEADER[0] == 'x'
  {
    assert forall i :: 0 <= i < |TOKEN_HEADER| ==> TOKEN_HEADER[i] == '-' || 'a' <= TOKEN_HEADER[i] <= 'z';
    NewlineIsNoLetter(TOKEN_HEADER);
  }

  lemma {:induction false} OtherHeadersArePlain()
    ensures PlainLine(HeaderLine("Host", "127.0.0.1")) && PlainLine(HeaderLine("Connection", "close"))
  {
    HeaderLineIsPlain("Host", "127.0.0.1");
    HeaderLineIsPlain("Connection", "close");
  }

  lemma {:induction false} TokenLineIsPlain(token: string)
    requires '\n' !in Trim(token)
    ensures PlainLine(HeaderLine(TOKEN_HEADER, Trim(token)))
  {
    TokenHeaderIsLower();
    HeaderLineIsPlain(TOKEN_HEADER, Trim(token));
  }

  lemma {:induction false} LinesOfRequest(route: string, path: seq<Byte>, token: string)
    requires PlainRoute(route) && '\n' !in Trim(token)
    ensures Lines(DaemonRequest(route, path, token)) ==
            [RequestLine(route, path), HeaderLine("Host", "127.0.0.1"), HeaderLine(TOKEN_HEADER, Trim(token)),
             HeaderLine("Connection", "close"), ""]
  {
    RequestLineIsRead(route, path);
    OtherHeadersArePlain();
    TokenLineIsPlain(token);
    FiveLines(RequestLine(route, path), HeaderLine("Host", "127.0.0.1"), HeaderLine(TOKEN_HEADER, Trim(token)),
              HeaderLine("Connection", "close"), "");
  }

  /** And the token reads back, trimmed, exactly when no newline is left inside it. */
  lemma {:induction false} TokenReadBack(route: string, path: seq<Byte>, token: string)
    requires PlainRoute(route)
    ensures ExtractHeader(DaemonRequest(route, path, token), TOKEN_HEADER) == Some(Trim(token)) <==>
            '\n' !in Trim(token)
  {
    if '\n' !in Trim(token) {
      LinesOfRequest(route, path, token);
      TokenHeaderIsLower();
      RequestLineIsRead(route, path);
      ThirdHeader(Lines(DaemonRequest(route, path, token)), TOKEN_HEADER, Trim(token));
      TrimSpace(token);
    }
  }

  /** The line is a header of that name, whatever the case of either. */
  predicate IsHeader(line: string, name: string) {
    Lower(name + ":") <= Lower(line)
  }

  lemma {:induction false} LowerIsItself(s: string)
    requires NoCapitals(s)
    ensures Lower(s + ":") == s + ":"
  {
    forall i | 0 <= i < |s + ":"|
      ensures Lower(s + ":")[i] == (s + ":")[i]
    {
      assert i < |s| ==> (s + ":")[i] == s[i];
    }
  }

  /** For a name without capitals, case does not matter: the first line with that name gives the value. */
  lemma {:induction false} LowerNameIsFound(lines: seq<string>, name: string, k: nat)
    requires NoCapitals(name) && k < |lines| && IsHeader(lines[k], name)
    requires forall i :: 0 <= i < k ==> !IsHeader(lines[i], name)
    requires forall i :: 0 <= i < |lines| ==> '\n' !in lines[i]
    ensures FindHeader(lines, name + ":") == Some(Trim(lines[k][|name| + 1..]))
  {
    LowerIsItself(name);
    if k > 0 {
      assert !IsHeader(lines[0], name);
      LowerNameIsFound(lines[1..], name, k - 1);
    }
  }

  lemma {:induction false} NoLineIsHeader(lines: seq<string>, name: string)
    requires NoCapitals(name) && forall i :: 0 <= i < |lines| ==> !IsHeader(lines[i], name)
    requires forall i :: 0 <= i < |lines| ==> '\n' !in lines[i]
    ensures FindHeader(lines, name + ":") == None
  {
    LowerIsItself(name);
    if lines != [] {
      assert !IsHeader(lines[0], name);
      NoLineIsHeader(lines[1..], name);
    }
  }

  function FirstHeader(lines: seq<string>, name: string): (k: nat)
    ensures k <= |lines| && (k < |lines| ==> IsHeader(lines[k], name))
    ensures forall i :: 0 <= i < k ==> !IsHeader(lines[i], name)
  {
    if lines == [] || IsHeader(lines[0], name) then 0 else 1 + FirstHeader(lines[1..], name)
  }

  /** Names are matched against lower-cased lines, so one with a capital letter is never found. */
  lemma {:induction false} CapitalNameIsNeverFound(lines: seq<string>, name: string, i: nat)
    requires i < |name| && 'A' <= name[i] <= 'Z'
    requires forall k :: 0 <= k < |lines| ==> '\n' !in lines[k]
    ensures FindHeader(lines, name + ":") == None
  {
    if lines != [] {
      CapitalNameIsNeverFound(lines[1..], name, i);
      assert (name + ":")[i] == name[i];
      if i < |lines[0]| {
        assert Lower(lines[0])[i] != name[i];
      }
    }
  }

  /** Whether the search for a name ignores case: exactly when the name has no capitals. */
  lemma {:induction false} HeaderFoundIff(lines: seq<string>, name: string)
    requires forall k :: 0 <= k < |lines| ==> '\n' !in lines[k]
    ensures FindHeader(lines, name + ":").Some? <==>
            NoCapitals(name) && exists k :: 0 <= k < |lines| && IsHeader(lines[k], name)
    ensures NoCapitals(name) && FirstHeader(lines, name) < |lines| ==>
              FindHeader(lines, name + ":") == Some(Trim(lines[FirstHeader(lines, name)][|name| + 1..]))
  {
    if NoCapitals(name) {
      var k := FirstHeader(lines, name);
      if k < |lines| {
        LowerNameIsFound(lines, name, k);
      } else {
        NoLineIsHeader(lines, name);
      }
    } else {
      var i :| 0 <= i < |name| && 'A' <= name[i] <= 'Z';
      CapitalNameIsNeverFound(lines, name, i);
    }
  }
}
