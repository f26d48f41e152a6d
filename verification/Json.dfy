/** The JSON subset of the control protocol: escaping, and parsing of strings and arrays of strings.
    Parsers are functions of the text still to be read; a method reads the text at a position and is
    proved to do the same. The grammar they accept is given separately, by what a text is spelled
    from, and both directions are proved. A char stands for a byte. */
module Json {
  import opened Common

  datatype Parsed<T> = Fail | Done(value: T, rest: string)

  // ---------------------------------------------------------------- escaping

  function HexDigit(d: nat): char
    requires d < 16
  {
    if d < 10 then '0' + d as char else 'a' + (d - 10) as char
  }

  /** The escape of one byte. */
  function Escaped(c: char): string {
    if c == '\\' then "\\\\"
    else if c == '"' then "\\\""
    else if c == '\n' then "\\n"
    else if c == '\r' then "\\r"
    else if c == '\t' then "\\t"
    else if c < ' ' then "\\u00" + [HexDigit(c as int / 16), HexDigit(c as int % 16)]
    else [c]
  }

  function EscapedAll(s: string): string {
    if s == "" then "" else Escaped(s[0]) + EscapedAll(s[1..])
  }

  function Quoted(s: string): string {
    "\"" + EscapedAll(s) + "\""
  }

  lemma {:induction false} EscapedConcat(a: string, b: string)
    ensures EscapedAll(a + b) == EscapedAll(a) + EscapedAll(b)
    decreases |a|
  {
    if a == "" {
      assert a + b == b;
    } else {
      assert (a + b)[1..] == a[1..] + b;
      EscapedConcat(a[1..], b);
    }
  }

  lemma EscapedOneMore(s: string, i: nat)
    requires i < |s|
    ensures EscapedAll(s[..i + 1]) == EscapedAll(s[..i]) + Escaped(s[i])
  {
    hide Escaped;
    EscapedConcat(s[..i], [s[i]]);
    assert s[..i + 1] == s[..i] + [s[i]];
    assert EscapedAll([s[i]]) == Escaped(s[i]) + EscapedAll("");
  }

  method AppendEscaped(c: char, out: string) returns (out': string)
    ensures out' == out + Escaped(c)
  {
    if c == '\\' {
      out' := out + "\\\\";
    } else if c == '"' {
      out' := out + "\\\"";
    } else if c == '\n' {
      out' := out + "\\n";
    } else if c == '\r' {
      out' := out + "\\r";
    } else if c == '\t' {
      out' := out + "\\t";
    } else if c < ' ' {
      out' := out + ("\\u00" + [HexDigit(c as int / 16), HexDigit(c as int % 16)]);
    } else {
      out' := out + [c];
    }
  }

  /** json_escape, which appends to its output. */
  method JsonEscape(s: string, out: string) returns (out': string)
    ensures out' == out + Quoted(s)
  {
    hide Escaped, EscapedAll;
    out' := out + "\"";
    EscapedNone();
    for i := 0 to |s|
      invariant out' == out + ("\"" + EscapedAll(s[..i]))
    {
      EscapedOneMore(s, i);
      ghost var before := out';
      out' := AppendEscaped(s[i], out');
      assert before + Escaped(s[i]) == out + ("\"" + (EscapedAll(s[..i]) + Escaped(s[i])));
    }
    assert s[..|s|] == s;
    out' := out' + "\"";
  }

  lemma EscapedNone()
    ensures EscapedAll("") == ""
  {
  }

  // ---------------------------------------------------------------- parsing

  predicate IsWs(c: char) {
    c == ' ' || c == '\t' || c == '\n' || c == '\r'
  }

  function SkipWs(s: string): (r: string)
    ensures |r| <= |s|
  {
    if s != "" && IsWs(s[0]) then SkipWs(s[1..]) else s
  }

  predicate IsHex(c: char) {
    '0' <= c <= '9' || 'a' <= c <= 'f' || 'A' <= c <= 'F'
  }

  function HexValue(c: char): (v: nat)
    requires IsHex(c)
    ensures v < 16
  {
    if '0' <= c <= '9' then (c - '0') as int
    else if 'a' <= c <= 'f' then 10 + (c - 'a') as int
    else 10 + (c - 'A') as int
  }

  predicate AllHex(h: string) {
    forall i | 0 <= i < |h| :: IsHex(h[i])
  }

  function HexCode(h: string): (v: nat)
    requires |h| == 4 && AllHex(h)
    ensures v < 0x1_0000
  {
    ((HexValue(h[0]) * 16 + HexValue(h[1])) * 16 + HexValue(h[2])) * 16 + HexValue(h[3])
  }

  /** The bytes of a code point below 2^16, as in section 3 of RFC 3629 but surrogates included. */
  function Utf8(v: nat): string
    requires v < 0x1_0000
  {
    if v < 0x80 then [v as char]
    else if v < 0x800 then [(0xC0 + v / 0x40) as char, (0x80 + v % 0x40) as char]
    else [(0xE0 + v / 0x1000) as char, (0x80 + v / 0x40 % 0x40) as char, (0x80 + v % 0x40) as char]
  }

  predicate Continues(c: char) {
    0x80 <= c as int < 0xC0
  }

  /** The code point that one, two or three bytes stand for. */
  function FromUtf8(b: string): int
    requires 1 <= |b| <= 3
  {
    if |b| == 1 then b[0] as int
    else if |b| == 2 then (b[0] as int - 0xC0) * 0x40 + (b[1] as int - 0x80)
    else ((b[0] as int - 0xE0) * 0x40 + (b[1] as int - 0x80)) * 0x40 + (b[2] as int - 0x80)
  }

  /** The bytes decode to the code point, the first one says how many there are, and none is longer
      than it needs to be. */
  lemma Utf8Decodes(v: nat)
    requires v < 0x1_0000
    ensures var b := Utf8(v);
      && 1 <= |b| <= 3 && FromUtf8(b) == v && (forall i | 1 <= i < |b| :: Continues(b[i]))
      && (|b| == 1 <==> b[0] as int < 0x80) && (|b| == 2 <==> 0xC0 <= b[0] as int < 0xE0)
      && (|b| == 3 <==> 0xE0 <= b[0] as int < 0xF0)
      && (|b| == 2 ==> v >= 0x80) && (|b| == 3 ==> v >= 0x800)
  {
    assert v / 0x40 / 0x40 == v / 0x1000;
  }

  predicate IsShort(e: char) {
    e in "\"\\/nrtbf"
  }

  function ShortValue(e: char): char
    requires IsShort(e)
  {
    if e == 'n' then '\n' else if e == 'r' then '\r' else if e == 't' then '\t'
    else if e == 'b' then '\U{8}' else if e == 'f' then '\U{C}' else e
  }

  /** What follows a backslash. */
  function Unescape(s: string): (p: Parsed<string>)
    ensures p.Done? ==> |p.rest| < |s|
  {
    if s == "" then Fail
    else if IsShort(s[0]) then Done([ShortValue(s[0])], s[1..])
    else if s[0] != 'u' || |s| < 5 || !AllHex(s[1..5]) then Fail
    else Done(Utf8(HexCode(s[1..5])), s[5..])
  }

  function Prepend(chunk: string, p: Parsed<string>): (q: Parsed<string>)
    ensures q.Done? ==> p.Done? && q.rest == p.rest
  {
    if p.Fail? then Fail else Done(chunk + p.value, p.rest)
  }

  /** A string after its opening quote. */
  function ParseChars(s: string): (p: Parsed<string>)
    ensures p.Done? ==> |p.rest| < |s|
    decreases |s|
  {
    if s == "" then Fail
    else if s[0] == '"' then Done("", s[1..])
    else if s[0] != '\\' then Prepend([s[0]], ParseChars(s[1..]))
    else
      var u := Unescape(s[1..]);
      if u.Fail? then Fail else Prepend(u.value, ParseChars(u.rest))
  }

  function ParseString(s: string): (p: Parsed<string>)
    ensures p.Done? ==> |p.rest| < |s|
  {
    if s == "" || s[0] != '"' then Fail else ParseChars(s[1..])
  }

  /** The strings of an array after its opening bracket, given that there is one. */
  function ParseItems(s: string): (p: Parsed<seq<string>>)
    ensures p.Done? ==> |p.rest| < |s|
    decreases |s|
  {
    var v := ParseString(SkipWs(s));
    if v.Fail? then Fail
    else
      var r := SkipWs(v.rest);
      if r == "" then Fail
      else if r[0] == ',' then
        var more := ParseItems(r[1..]);
        if more.Fail? then Fail else Done([v.value] + more.value, more.rest)
      else if r[0] == ']' then Done([v.value], r[1..])
      else Fail
  }

  function ParseArray(s: string): (p: Parsed<seq<string>>)
    ensures p.Done? ==> |p.rest| < |s|
  {
    var r := SkipWs(s);
    if r == "" || r[0] != '[' then Fail
    else
      var r1 := SkipWs(r[1..]);
      if r1 != "" && r1[0] == ']' then Done([], r1[1..]) else ParseItems(r1)
  }

  // ---------------------------------------------------------------- the grammar of strings

  /** The units a JSON string is spelled from. */
  datatype Token = Plain(c: char) | Short(e: char) | Hex(h: string)

  predicate TokenOk(t: Token) {
    match t
    case Plain(c) => c != '"' && c != '\\'
    case Short(e) => IsShort(e)
    case Hex(h) => |h| == 4 && AllHex(h)
  }

  /** As section 7 of RFC 8259 wants it: no control characters outside escapes. */
  predicate Strict(t: Token) {
    TokenOk(t) && (t.Plain? ==> t.c >= ' ')
  }

  function TokenText(t: Token): string {
    match t
    case Plain(c) => [c]
    case Short(e) => ['\\', e]
    case Hex(h) => ['\\', 'u'] + h
  }

  function TokenValue(t: Token): string
    requires TokenOk(t)
  {
    match t
    case Plain(c) => [c]
    case Short(e) => [ShortValue(e)]
    case Hex(h) => Utf8(HexCode(h))
  }

  predicate TokensOk(ts: seq<Token>) {
    forall i | 0 <= i < |ts| :: TokenOk(ts[i])
  }

  function Text(ts: seq<Token>): string {
    if ts == [] then "" else TokenText(ts[0]) + Text(ts[1..])
  }

  function Value(ts: seq<Token>): string
    requires TokensOk(ts)
  {
    if ts == [] then "" else TokenValue(ts[0]) + Value(ts[1..])
  }

  /** A string literal. */
  function Literal(ts: seq<Token>): string {
    "\"" + Text(ts) + "\""
  }

  lemma PlainStep(c: char, s: string)
    requires c != '"' && c != '\\'
    ensures ParseChars([c] + s) == Prepend([c], ParseChars(s))
  {
    assert ([c] + s)[1..] == s;
  }

  lemma EscapeStep(u: string, value: string, s: string)
    requires Unescape(u + s) == Done(value, s)
    ensures ParseChars("\\" + u + s) == Prepend(value, ParseChars(s))
  {
    hide Unescape;
    assert ("\\" + u + s)[1..] == u + s;
  }

  lemma HexUnescapes(h: string, s: string)
    requires |h| == 4 && AllHex(h)
    ensures Unescape("u" + h + s) == Done(Utf8(HexCode(h)), s)
  {
    hide AllHex, HexCode, Utf8;
    var t := "u" + h + s;
    assert t[1..5] == h && t[5..] == s;
  }

  /** One token in front of anything is read as that token. */
  lemma TokenStep(t: Token, s: string)
    requires TokenOk(t)
    ensures ParseChars(TokenText(t) + s) == Prepend(TokenValue(t), ParseChars(s))
  {
    hide ParseChars, Prepend;
    match t
    case Plain(c) => PlainStep(c, s);
    case Short(e) =>
      assert ([e] + s)[1..] == s;
      assert TokenText(t) == "\\" + [e];
      EscapeStep([e], TokenValue(t), s);
    case Hex(h) =>
      HexUnescapes(h, s);
      assert TokenText(t) == "\\" + ("u" + h);
      EscapeStep("u" + h, TokenValue(t), s);
  }

  lemma QuoteStep(rest: string)
    ensures ParseChars("\"" + rest) == Done("", rest)
  {
    assert ("\"" + rest)[1..] == rest;
  }

  /** Whatever is spelled from tokens is read, as their value. */
  lemma {:induction false} CharsAreRead(ts: seq<Token>, rest: string)
    requires TokensOk(ts)
    ensures ParseChars(Text(ts) + ("\"" + rest)) == Done(Value(ts), rest)
    decreases |ts|
  {
    hide ParseChars, TokenText, TokenValue;
    var tail := "\"" + rest;
    if ts == [] {
      QuoteStep(rest);
      assert Text(ts) + tail == tail;
    } else {
      CharsAreRead(ts[1..], rest);
      TokenStep(ts[0], Text(ts[1..]) + tail);
      assert Text(ts) + tail == TokenText(ts[0]) + (Text(ts[1..]) + tail);
    }
  }

  lemma StringsAreRead(ts: seq<Token>, rest: string)
    requires TokensOk(ts)
    ensures ParseString(Literal(ts) + rest) == Done(Value(ts), rest)
  {
    hide ParseChars, Text, Value;
    CharsAreRead(ts, rest);
    var all := Literal(ts) + rest;
    assert all[0] == '"' && all[1..] == Text(ts) + ("\"" + rest);
  }

  /** Whatever is read was spelled from tokens. */
  lemma {:induction false} ReadsOnlyStrings(s: string) returns (ts: seq<Token>)
    requires ParseChars(s).Done?
    ensures TokensOk(ts) && s == Text(ts) + "\"" + ParseChars(s).rest && ParseChars(s).value == Value(ts)
    decreases |s|
  {
    hide ParseChars, TokenText, TokenValue;
    CharsRemain(s);
    if s[0] == '"' {
      ts := [];
      QuoteStep(s[1..]);
      assert s == "\"" + s[1..];
    } else {
      var t, r := FirstToken(s);
      var more := ReadsOnlyStrings(r);
      ts := [t] + more;
      TokenStep(t, r);
      assert ts[1..] == more;
      assert TokensOk(ts);
    }
  }

  lemma CharsRemain(s: string)
    requires ParseChars(s).Done?
    ensures s != ""
  {
  }

  lemma FirstToken(s: string) returns (t: Token, r: string)
    requires s != "" && ParseChars(s).Done? && s[0] != '"'
    ensures TokenOk(t) && s == TokenText(t) + r && |r| < |s| && ParseChars(r).Done?
  {
    if s[0] != '\\' {
      t, r := Plain(s[0]), s[1..];
    } else if IsShort(s[1]) {
      t, r := Short(s[1]), s[2..];
      assert s[1..][1..] == r;
    } else {
      t, r := Hex(s[2..6]), s[6..];
      assert s[1..][5..] == r && s[1..][1..5] == s[2..6];
    }
  }

  // ---------------------------------------------------------------- escaped text is such a string

  function EscapeToken(c: char): Token {
    if c == '\\' then Short('\\')
    else if c == '"' then Short('"')
    else if c == '\n' then Short('n')
    else if c == '\r' then Short('r')
    else if c == '\t' then Short('t')
    else if c < ' ' then Hex("00" + [HexDigit(c as int / 16), HexDigit(c as int % 16)])
    else Plain(c)
  }

  function EscapeTokens(s: string): (ts: seq<Token>)
    ensures |ts| == |s| && forall i | 0 <= i < |s| :: ts[i] == EscapeToken(s[i])
  {
    seq(|s|, i requires 0 <= i < |s| => EscapeToken(s[i]))
  }

  lemma DigitMeans(d: nat)
    requires d < 16
    ensures IsHex(HexDigit(d)) && HexValue(HexDigit(d)) == d
  {
  }

  lemma TwoDigits(a: nat, b: nat)
    requires a < 16 && b < 16
    ensures var h := "00" + [HexDigit(a), HexDigit(b)]; |h| == 4 && AllHex(h) && HexCode(h) == a * 16 + b
  {
    hide HexDigit;
    DigitMeans(a);
    DigitMeans(b);
    var h := "00" + [HexDigit(a), HexDigit(b)];
    assert h[0] == '0' && h[1] == '0' && h[2] == HexDigit(a) && h[3] == HexDigit(b);
    assert IsHex('0') && HexValue('0') == 0;
  }

  lemma EscapeTokenMeans(c: char)
    ensures Strict(EscapeToken(c))
    ensures TokenText(EscapeToken(c)) == Escaped(c) && TokenValue(EscapeToken(c)) == [c]
  {
    hide HexDigit, HexCode, AllHex;
    if c < ' ' {
      TwoDigits(c as int / 16, c as int % 16);
    }
  }

  /** Escaping spells exactly the string it was given, in strict JSON. */
  lemma {:induction false} EscapingSpells(s: string)
    ensures var ts := EscapeTokens(s);
      && (forall i | 0 <= i < |ts| :: Strict(ts[i])) && TokensOk(ts)
      && Text(ts) == EscapedAll(s) && Value(ts) == s
    decreases |s|
  {
    if s != "" {
      EscapeTokenMeans(s[0]);
      EscapingSpells(s[1..]);
      assert EscapeTokens(s)[1..] == EscapeTokens(s[1..]);
    }
  }

  /** Round trip: a quoted string is read back whole, whatever follows it. */
  lemma QuotedIsRead(s: string, rest: string)
    ensures ParseString(Quoted(s) + rest) == Done(s, rest)
  {
    EscapingSpells(s);
    StringsAreRead(EscapeTokens(s), rest);
  }

  // ---------------------------------------------------------------- UTF-8

  /** How many bytes follow a first byte, or -1 for a byte that cannot be one; section 4 of RFC 3629. */
  function Following(c: char): int {
    var b := c as int;
    if b < 0x80 then 0 else if 0xC2 <= b < 0xE0 then 1 else if 0xE0 <= b < 0xF0 then 2
    else if 0xF0 <= b < 0xF5 then 3 else -1
  }

  predicate SecondOk(first: char, second: char) {
    var a, b := first as int, second as int;
    && (a == 0xE0 ==> b >= 0xA0) && (a == 0xED ==> b < 0xA0)
    && (a == 0xF0 ==> b >= 0x90) && (a == 0xF4 ==> b < 0x90)
  }

  predicate StartsUtf8(s: string) {
    && s != ""
    && var n := Following(s[0]);
    && 0 <= n < |s| && (forall i | 1 <= i <= n :: Continues(s[i])) && (n > 0 ==> SecondOk(s[0], s[1]))
  }

  predicate IsUtf8(s: string) {
    s == "" || (StartsUtf8(s) && IsUtf8(s[Following(s[0]) + 1..]))
  }

  /** Of the bytes made from a \u escape: they are UTF-8 unless the escape is half of a surrogate pair,
      which section 3 of RFC 3629 prohibits and the reader encodes all the same. */
  lemma Utf8Exactly(v: nat)
    requires v < 0x1_0000
    ensures IsUtf8(Utf8(v)) <==> !(0xD800 <= v < 0xE000)
  {
    Utf8Decodes(v);
    var b := Utf8(v);
    assert b[|b|..] == "";
  }

  /** What section 3 of RFC 3629 encodes: code points that are not surrogates. */
  predicate Scalar(v: nat) {
    v < 0xD800 || 0xE000 <= v < 0x11_0000
  }

  function Encoding(v: nat): string
    requires Scalar(v)
  {
    if v < 0x1_0000 then Utf8(v)
    else [(0xF0 + v / 0x4_0000) as char, (0x80 + v / 0x1000 % 0x40) as char, (0x80 + v / 0x40 % 0x40) as char,
          (0x80 + v % 0x40) as char]
  }

  ghost predicate AllScalars(vs: seq<nat>) {
    forall i | 0 <= i < |vs| :: Scalar(vs[i])
  }

  function Encodings(vs: seq<nat>): string
    requires AllScalars(vs)
  {
    if vs == [] then "" else Encoding(vs[0]) + Encodings(vs[1..])
  }

  lemma EncodingStarts(v: nat)
    requires Scalar(v)
    ensures StartsUtf8(Encoding(v)) && |Encoding(v)| == Following(Encoding(v)[0]) + 1
  {
    if v < 0x1_0000 {
      Utf8Decodes(v);
    } else {
      assert v / 0x1000 / 0x40 == v / 0x4_0000;
    }
  }

  /** A number in base 64, and its digits. */
  lemma Digits64(a: nat, b: nat) returns (v: nat)
    requires b < 0x40
    ensures v == a * 0x40 + b && v / 0x40 == a && v % 0x40 == b
  {
    v := a * 0x40 + b;
  }

  lemma TwoBytes(s: string) returns (v: nat)
    requires StartsUtf8(s) && Following(s[0]) == 1
    ensures Scalar(v) && Encoding(v) == s[..2]
  {
    v := Digits64(s[0] as int - 0xC0, s[1] as int - 0x80);
  }

  lemma ThreeBytes(s: string) returns (v: nat)
    requires StartsUtf8(s) && Following(s[0]) == 2
    ensures Scalar(v) && Encoding(v) == s[..3]
  {
    var high := Digits64(s[0] as int - 0xE0, s[1] as int - 0x80);
    v := Digits64(high, s[2] as int - 0x80);
    assert v / 0x40 / 0x40 == v / 0x1000;
  }

  lemma FourBytes(s: string) returns (v: nat)
    requires StartsUtf8(s) && Following(s[0]) == 3
    ensures Scalar(v) && Encoding(v) == s[..4]
  {
    hide Utf8;
    var top := Digits64(s[0] as int - 0xF0, s[1] as int - 0x80);
    var high := Digits64(top, s[2] as int - 0x80);
    v := Digits64(high, s[3] as int - 0x80);
    assert v / 0x40 / 0x40 == v / 0x1000 && v / 0x40 / 0x40 / 0x40 == v / 0x4_0000;
  }

  /** The bytes that a first byte announces are the encoding of a code point. */
  lemma StartDecodes(s: string) returns (v: nat)
    requires StartsUtf8(s)
    ensures Scalar(v) && Encoding(v) == s[..Following(s[0]) + 1]
  {
    var n := Following(s[0]);
    if n == 1 {
      v := TwoBytes(s);
    } else if n == 2 {
      v := ThreeBytes(s);
    } else if n == 3 {
      v := FourBytes(s);
    } else {
      v := s[0] as int;
    }
  }

  lemma StartsWith(a: string, rest: string)
    requires StartsUtf8(a) && |a| == Following(a[0]) + 1
    ensures IsUtf8(a + rest) <==> IsUtf8(rest)
  {
    hide Following, Continues, SecondOk;
    assert (a + rest)[|a|..] == rest;
  }

  lemma {:induction false} EncodingsAreUtf8(vs: seq<nat>)
    requires AllScalars(vs)
    ensures IsUtf8(Encodings(vs))
    decreases |vs|
  {
    hide Encoding, StartsUtf8, Following;
    if vs != [] {
      EncodingsAreUtf8(vs[1..]);
      EncodingStarts(vs[0]);
      StartsWith(Encoding(vs[0]), Encodings(vs[1..]));
    }
  }

  lemma {:induction false} Utf8IsEncodings(s: string) returns (vs: seq<nat>)
    requires IsUtf8(s)
    ensures AllScalars(vs) && Encodings(vs) == s
    decreases |s|
  {
    hide Encoding, StartsUtf8, Following;
    if s == "" {
      vs := [];
    } else {
      StartBounds(s);
      var n := Following(s[0]) + 1;
      var v := StartDecodes(s);
      var rest := Utf8IsEncodings(s[n..]);
      vs := [v] + rest;
      assert vs[1..] == rest && s == s[..n] + s[n..];
    }
  }

  /** A byte string is UTF-8 if and only if it is the encoding of code points, one after the other. */
  lemma Utf8Means(s: string)
    ensures IsUtf8(s) <==> exists vs :: AllScalars(vs) && Encodings(vs) == s
  {
    hide IsUtf8, Encodings;
    if IsUtf8(s) {
      var vs := Utf8IsEncodings(s);
    } else if vs :| AllScalars(vs) && Encodings(vs) == s {
      EncodingsAreUtf8(vs);
    }
  }

  predicate High(c: char) {
    c as int >= 0x80
  }

  /** High bytes pass the escaping as they are. */
  lemma {:induction false} HighPasses(s: string, n: nat)
    requires n <= |s| && forall i | 0 <= i < n :: High(s[i])
    ensures EscapedAll(s) == s[..n] + EscapedAll(s[n..])
    decreases n
  {
    hide Escaped;
    if n == 0 {
      assert s[..0] + EscapedAll(s) == EscapedAll(s);
    } else {
      LowEscape(s[0]);
      HighPasses(s[1..], n - 1);
      assert s[1..][n - 1..] == s[n..] && s[..n] == [s[0]] + s[1..][..n - 1];
    }
  }

  /** And nothing else comes out as one. */
  lemma {:induction false} HighCame(s: string, n: nat)
    requires n <= |EscapedAll(s)| && forall i | 0 <= i < n :: High(EscapedAll(s)[i])
    ensures n <= |s| && forall i | 0 <= i < n :: s[i] == EscapedAll(s)[i]
    decreases n
  {
    hide Escaped;
    if n > 0 {
      var e := EscapedAll(s);
      LowEscape(s[0]);
      assert e[0] == Escaped(s[0])[0];
      assert High(s[0]) && e == [s[0]] + EscapedAll(s[1..]);
      assert forall i | 0 <= i < n - 1 :: EscapedAll(s[1..])[i] == e[i + 1];
      HighCame(s[1..], n - 1);
    }
  }

  lemma LowEscape(c: char)
    ensures Escaped(c) != "" && (High(c) <==> High(Escaped(c)[0])) && (High(c) ==> Escaped(c) == [c])
    ensures !High(c) ==> forall i | 0 <= i < |Escaped(c)| :: !High(Escaped(c)[i])
  {
  }

  lemma {:induction false} AsciiFirst(a: string, b: string)
    requires forall i | 0 <= i < |a| :: !High(a[i])
    ensures IsUtf8(a + b) == IsUtf8(b)
    decreases |a|
  {
    if a == "" {
      assert a + b == b;
    } else {
      var s := a + b;
      assert s[0] == a[0] && s[1..] == a[1..] + b;
      AsciiFirst(a[1..], b);
    }
  }

  lemma HighStart(s: string)
    requires s != "" && High(s[0])
    ensures StartsUtf8(s) <==> StartsUtf8(EscapedAll(s))
    ensures StartsUtf8(s) ==> var n := Following(s[0]) + 1;
      n <= |s| && EscapedAll(s)[0] == s[0] && n <= |EscapedAll(s)| && EscapedAll(s)[n..] == EscapedAll(s[n..])
  {
    hide EscapedAll, Escaped;
    var e, n := EscapedAll(s), Following(s[0]) + 1;
    HighPasses(s, 1);
    assert e[0] == s[0];
    if StartsUtf8(s) {
      HighPasses(s, n);
      assert e[..n] == s[..n];
      assert forall i | 0 <= i < n :: e[i] == e[..n][i] && s[i] == s[..n][i];
    } else if StartsUtf8(e) {
      HighCame(s, n);
    }
  }

  /** An escaped string is valid UTF-8 if and only if the string is. */
  lemma {:induction false} EscapingKeepsUtf8(s: string)
    ensures IsUtf8(EscapedAll(s)) <==> IsUtf8(s)
    decreases |s|
  {
    hide Escaped, StartsUtf8;
    if s != "" {
      if High(s[0]) {
        HighStart(s);
        if StartsUtf8(s) {
          StartBounds(s);
          EscapingKeepsUtf8(s[Following(s[0]) + 1..]);
        } else {
          HighPasses(s, 1);
        }
      } else {
        LowEscape(s[0]);
        AsciiFirst(Escaped(s[0]), EscapedAll(s[1..]));
        EscapingKeepsUtf8(s[1..]);
        AsciiFirst([s[0]], s[1..]);
        assert [s[0]] + s[1..] == s;
      }
    }
  }

  lemma StartBounds(s: string)
    requires StartsUtf8(s)
    ensures s != "" && 0 <= Following(s[0]) < |s|
  {
  }

  // ---------------------------------------------------------------- the grammar of arrays

  predicate Blank(w: string) {
    forall i | 0 <= i < |w| :: IsWs(w[i])
  }

  lemma {:induction false} SkipsBlanks(w: string, s: string)
    requires Blank(w)
    ensures SkipWs(w + s) == SkipWs(s)
    decreases |w|
  {
    if w == "" {
      assert w + s == s;
    } else {
      assert (w + s)[0] == w[0] && (w + s)[1..] == w[1..] + s;
      SkipsBlanks(w[1..], s);
    }
  }

  lemma SkipStep(s: string)
    ensures SkipWs(s) == if s != "" && IsWs(s[0]) then SkipWs(s[1..]) else s
  {
  }

  lemma {:induction false} SkippedBlanks(s: string) returns (w: string)
    ensures Blank(w) && s == w + SkipWs(s)
    decreases |s|
  {
    hide SkipWs;
    SkipStep(s);
    if s != "" && IsWs(s[0]) {
      var more := SkippedBlanks(s[1..]);
      w := [s[0]] + more;
      Regrouped([s[0]], more, SkipWs(s[1..]));
      assert s == [s[0]] + s[1..];
    } else {
      w := "";
      assert s == "" + s;
    }
  }

  /** A string in an array, with the blanks around it. */
  datatype Item = Item(before: string, ts: seq<Token>, after: string)

  predicate ItemOk(t: Item) {
    Blank(t.before) && TokensOk(t.ts) && Blank(t.after)
  }

  function ItemText(t: Item): string {
    t.before + Literal(t.ts) + t.after
  }

  predicate ItemsOk(ts: seq<Item>) {
    forall i | 0 <= i < |ts| :: ItemOk(ts[i])
  }

  function ItemsText(ts: seq<Item>): string {
    if ts == [] then "" else if |ts| == 1 then ItemText(ts[0]) else ItemText(ts[0]) + "," + ItemsText(ts[1..])
  }

  function ItemValues(ts: seq<Item>): seq<string>
    requires ItemsOk(ts)
  {
    if ts == [] then [] else [Value(ts[0].ts)] + ItemValues(ts[1..])
  }

  datatype Array = Array(lead: string, open: string, items: seq<Item>)

  predicate ArrayOk(a: Array) {
    Blank(a.lead) && Blank(a.open) && ItemsOk(a.items)
  }

  function ArrayText(a: Array): string {
    a.lead + "[" + a.open + ItemsText(a.items) + "]"
  }

  predicate Sep(c: char) {
    c == ',' || c == ']'
  }

  /** One item before a separator is read as that item. */
  lemma ItemStep(t: Item, sep: char, s: string)
    requires ItemOk(t) && Sep(sep)
    ensures var p := ParseString(SkipWs(ItemText(t) + ([sep] + s)));
      p.Done? && p.value == Value(t.ts) && SkipWs(p.rest) == [sep] + s
  {
    hide ParseString, Value, Text;
    var tail := t.after + ([sep] + s);
    assert ItemText(t) + ([sep] + s) == t.before + (Literal(t.ts) + tail);
    SkipsBlanks(t.before, Literal(t.ts) + tail);
    assert (Literal(t.ts) + tail)[0] == '"';
    StringsAreRead(t.ts, tail);
    SkipsBlanks(t.after, [sep] + s);
  }

  lemma LastItem(t: Item, s: string)
    requires ItemOk(t)
    ensures ParseItems(ItemText(t) + ("]" + s)) == Done([Value(t.ts)], s)
  {
    hide ParseString, SkipWs, ItemText, Value;
    ItemStep(t, ']', s);
    assert "]" + s == [']'] + s && ([']'] + s)[1..] == s;
  }

  lemma NextItem(t: Item, s: string)
    requires ItemOk(t)
    ensures ParseItems(s).Done? ==>
      ParseItems(ItemText(t) + ("," + s)) == Done([Value(t.ts)] + ParseItems(s).value, ParseItems(s).rest)
  {
    hide ParseString, SkipWs, ItemText, Value;
    ItemStep(t, ',', s);
    assert "," + s == [','] + s && ([','] + s)[1..] == s;
  }

  lemma {:induction false} ItemsAreRead(ts: seq<Item>, rest: string)
    requires ItemsOk(ts) && ts != []
    ensures ParseItems(ItemsText(ts) + ("]" + rest)) == Done(ItemValues(ts), rest)
    decreases |ts|
  {
    hide ParseItems, ItemText, Value;
    if |ts| == 1 {
      LastItem(ts[0], rest);
      assert ts[1..] == [] && [Value(ts[0].ts)] + [] == [Value(ts[0].ts)];
    } else {
      var more := ItemsText(ts[1..]) + ("]" + rest);
      ItemsAreRead(ts[1..], rest);
      NextItem(ts[0], more);
      assert ItemsText(ts) + ("]" + rest) == ItemText(ts[0]) + ("," + more);
    }
  }

  /** Whatever is spelled as an array is read, as the values of its items. */
  lemma ArraysAreRead(a: Array, rest: string)
    requires ArrayOk(a)
    ensures ParseArray(ArrayText(a) + rest) == Done(ItemValues(a.items), rest)
  {
    hide ParseString, ParseItems, ItemsText, ItemValues;
    var inner := ItemsText(a.items) + ("]" + rest);
    var body := "[" + (a.open + inner);
    assert ArrayText(a) + rest == a.lead + body;
    SkipsBlanks(a.lead, body);
    assert SkipWs(body) == body && body[1..] == a.open + inner;
    SkipsBlanks(a.open, inner);
    if a.items == [] {
      NoItems();
      assert inner == "]" + rest;
      assert SkipWs(inner) == inner;
    } else {
      ItemsStart(a.items, "]" + rest);
      ItemsAreRead(a.items, rest);
      LeadingBlanks(inner);
    }
  }

  lemma NoItems()
    ensures ItemsText([]) == "" && ItemValues([]) == []
  {
  }

  lemma ItemAssembled(t: Item, more: string)
    ensures ItemText(t) + more == t.before + (Literal(t.ts) + (t.after + more))
  {
    hide Literal;
  }

  lemma ItemsStart(ts: seq<Item>, s: string)
    requires ts != [] && ItemsOk(ts)
    ensures SkipWs(ItemsText(ts) + s) != "" && SkipWs(ItemsText(ts) + s)[0] == '"'
  {
    hide Text;
    var t := ts[0];
    var more := (if |ts| == 1 then "" else "," + ItemsText(ts[1..])) + s;
    var tail := Literal(t.ts) + (t.after + more);
    ItemAssembled(t, more);
    assert ItemsText(ts) + s == ItemText(t) + more;
    assert tail[0] == '"';
    SkipsBlanks(t.before, tail);
  }

  lemma LeadingBlanks(s: string)
    ensures ParseItems(SkipWs(s)) == ParseItems(s)
  {
  }

  /** Whatever is read as an array was spelled as one. */
  lemma ReadsOnlyArrays(s: string) returns (a: Array)
    requires ParseArray(s).Done?
    ensures ArrayOk(a) && s == ArrayText(a) + ParseArray(s).rest && ParseArray(s).value == ItemValues(a.items)
    ensures SkipWs(s) == s ==> a.lead == ""
  {
    hide ParseItems, SkipWs, Text, Value, ItemsText, ItemValues;
    var r := SkipWs(s);
    var lead := SkippedBlanks(s);
    var r1 := SkipWs(r[1..]);
    var open := SkippedBlanks(r[1..]);
    if r1 != "" && r1[0] == ']' {
      a := Array(lead, open, []);
      NoItems();
    } else {
      var items := ReadsOnlyItems(r1);
      a := Array(lead, open, items);
    }
    var rest := ParseArray(s).rest;
    assert r == "[" + (open + r1);
    assert r1 == ItemsText(a.items) + ("]" + rest);
    Assembled(lead, open, ItemsText(a.items), rest);
  }

  lemma Assembled(lead: string, open: string, x: string, rest: string)
    ensures lead + ("[" + (open + (x + ("]" + rest)))) == lead + "[" + open + x + "]" + rest
  {
  }

  lemma {:induction false} ReadsOnlyItems(s: string) returns (ts: seq<Item>)
    requires ParseItems(s).Done?
    ensures ItemsOk(ts) && ts != []
    ensures s == ItemsText(ts) + ("]" + ParseItems(s).rest) && ParseItems(s).value == ItemValues(ts)
    decreases |s|
  {
    hide SkipWs, Text, Value, ItemText, ParseItems;
    var t, r := FirstItem(s);
    if r[0] == ']' {
      ts := [t];
      assert ItemValues([t]) == [Value(t.ts)] + [];
      assert r == "]" + r[1..];
    } else {
      var more := ReadsOnlyItems(r[1..]);
      ts := [t] + more;
      assert ts[1..] == more;
      assert r == "," + r[1..];
    }
  }

  lemma FirstItem(s: string) returns (t: Item, r: string)
    requires ParseItems(s).Done?
    ensures ItemOk(t) && s == ItemText(t) + r && r != "" && r[0] in ",]" && |r| <= |s|
    ensures r[0] == ']' ==> ParseItems(s) == Done([Value(t.ts)], r[1..])
    ensures r[0] == ',' ==> var more := ParseItems(r[1..]);
      more.Done? && ParseItems(s) == Done([Value(t.ts)] + more.value, more.rest)
  {
    hide SkipWs, Text, Value, ParseChars;
    var s1 := SkipWs(s);
    var before := SkippedBlanks(s);
    var p := ParseString(s1);
    var ts := ReadsOnlyStrings(s1[1..]);
    var after := SkippedBlanks(p.rest);
    t, r := Item(before, ts, after), SkipWs(p.rest);
    assert s1 == Literal(ts) + p.rest;
  }
}
