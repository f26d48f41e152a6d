/** The control protocol: requests and responses as lines of JSON. What the decoders accept is given
    by a grammar of objects, and both directions are proved; the round trips follow. */
module ControlCodec {
  import opened Common
  import opened Json

  datatype Request = Request(op: string, args: seq<string>)
  datatype Response = Response(ok: bool, lines: seq<string>, error: string)

  // ---------------------------------------------------------------- encoding

  function Joined(ss: seq<string>): string {
    if ss == [] then "" else if |ss| == 1 then Quoted(ss[0]) else Quoted(ss[0]) + "," + Joined(ss[1..])
  }

  function RequestLine(r: Request): string {
    "{\"op\":" + Quoted(r.op) + ",\"args\":[" + Joined(r.args) + "]}"
  }

  function ResponseLine(r: Response): string {
    if r.ok then "{\"ok\":true,\"lines\":[" + Joined(r.lines) + "]}"
    else "{\"ok\":false,\"error\":" + Quoted(r.error) + "}"
  }

  // ---------------------------------------------------------------- decoding

  datatype Kind = Req | Resp

  /** The fields a decoder collects: a request's op and args, or a response's ok, lines and error. */
  datatype Fields = Fields(flag: bool, list: seq<string>, text: string, gotFlag: bool, gotList: bool, gotText: bool)

  datatype Raw = RStr(v: string) | RArr(vs: seq<string>) | RWord(w: string)

  /** What value a key takes. */
  datatype Shape = AString | AnArray | ABool | Skipped(words: bool)

  function TextKey(k: Kind): string {
    if k.Req? then "op" else "error"
  }

  function ListKey(k: Kind): string {
    if k.Req? then "args" else "lines"
  }

  function Wants(k: Kind, key: string): Shape {
    if key == TextKey(k) then AString
    else if key == ListKey(k) then AnArray
    else if k.Resp? && key == "ok" then ABool
    else Skipped(k.Resp?)
  }

  function Wrapped(p: Parsed<string>): Parsed<Raw> {
    if p.Fail? then Fail else Done(RStr(p.value), p.rest)
  }

  function WrappedArray(p: Parsed<seq<string>>): Parsed<Raw> {
    if p.Fail? then Fail else Done(RArr(p.value), p.rest)
  }

  function ParseWord(s: string, orNull: bool): (p: Parsed<Raw>)
    ensures p.Done? ==> |p.rest| <= |s|
  {
    if "true" <= s then Done(RWord("true"), s[4..])
    else if "false" <= s then Done(RWord("false"), s[5..])
    else if orNull && "null" <= s then Done(RWord("null"), s[4..])
    else Fail
  }

  function ParseValue(sh: Shape, s: string): (p: Parsed<Raw>)
    ensures p.Done? ==> |p.rest| <= |s|
  {
    match sh
    case AString => Wrapped(ParseString(s))
    case AnArray => WrappedArray(ParseArray(s))
    case ABool => ParseWord(s, false)
    case Skipped(words) =>
      if s != "" && s[0] == '"' then Wrapped(ParseString(s))
      else if s != "" && s[0] == '[' then WrappedArray(ParseArray(s))
      else if words then ParseWord(s, true)
      else Fail
  }

  function Put(k: Kind, f: Fields, key: string, raw: Raw): Fields {
    if key == TextKey(k) && raw.RStr? then f.(text := raw.v, gotText := true)
    else if key == ListKey(k) && raw.RArr? then f.(list := raw.vs, gotList := true)
    else if k.Resp? && key == "ok" then f.(flag := raw == RWord("true"), gotFlag := true)
    else f
  }

  /** A key, its colon and its value: the fields then, and the text behind the blanks after it. */
  function ParseMember(k: Kind, s: string, f: Fields): (p: Parsed<Fields>)
    ensures p.Done? ==> |p.rest| < |s|
  {
    var key := ParseString(SkipWs(s));
    if key.Fail? then Fail
    else
      var r := SkipWs(key.rest);
      if r == "" || r[0] != ':' then Fail
      else
        var v := ParseValue(Wants(k, key.value), SkipWs(r[1..]));
        if v.Fail? then Fail else Done(Put(k, f, key.value, v.value), SkipWs(v.rest))
  }

  /** The decoders' loop, after the opening brace. */
  function ParseFields(k: Kind, s: string, f: Fields): Option<Fields>
    decreases |s|
  {
    if s == "" then Some(f)
    else
      var r := SkipWs(s);
      if r != "" && r[0] == '}' then Some(f)
      else
        var m := ParseMember(k, s, f);
        if m.Fail? || m.rest == "" then None
        else if m.rest[0] == ',' then ParseFields(k, m.rest[1..], m.value)
        else if m.rest[0] == '}' then Some(m.value)
        else None
  }

  function NoFields(): Fields {
    Fields(false, [], "", false, false, false)
  }

  function ParseObject(k: Kind, s: string): Option<Fields> {
    var r := SkipWs(s);
    if r == "" || r[0] != '{' then None else ParseFields(k, r[1..], NoFields())
  }

  function Chopped(s: string, c: char): string {
    if s != "" && s[|s| - 1] == c then s[..|s| - 1] else s
  }

  /** Without its line end. */
  function Stripped(s: string): string {
    Chopped(Chopped(s, '\n'), '\r')
  }

  function AsRequest(f: Option<Fields>): Option<Request> {
    if f.Some? && f.value.gotText && f.value.gotList then Some(Request(f.value.text, f.value.list)) else None
  }

  function AsResponse(f: Option<Fields>): Option<Response> {
    if f.Some? && f.value.gotFlag then Some(Response(f.value.flag, f.value.list, f.value.text)) else None
  }

  function DecodedRequest(s: string): Option<Request> {
    AsRequest(ParseObject(Req, Stripped(s)))
  }

  function DecodedResponse(s: string): Option<Response> {
    AsResponse(ParseObject(Resp, Stripped(s)))
  }

  // ---------------------------------------------------------------- the grammar of objects

  datatype Val = VStr(ts: seq<Token>) | VArr(a: Array) | VWord(w: string)

  predicate ValOk(sh: Shape, v: Val) {
    match v
    case VStr(ts) => (sh.AString? || sh.Skipped?) && TokensOk(ts)
    case VArr(a) => (sh.AnArray? || sh.Skipped?) && ArrayOk(a) && a.lead == ""
    case VWord(w) => (sh.ABool? && w in {"true", "false"}) || (sh.Skipped? && sh.words && w in {"true", "false", "null"})
  }

  function ValText(v: Val): string {
    match v
    case VStr(ts) => Literal(ts)
    case VArr(a) => ArrayText(a)
    case VWord(w) => w
  }

  function RawOf(v: Val): Raw
    requires v.VStr? ==> TokensOk(v.ts)
    requires v.VArr? ==> ItemsOk(v.a.items)
  {
    match v
    case VStr(ts) => RStr(Value(ts))
    case VArr(a) => RArr(ItemValues(a.items))
    case VWord(w) => RWord(w)
  }

  datatype Member = Member(w0: string, key: seq<Token>, w1: string, w2: string, val: Val, w3: string)

  predicate MemberOk(k: Kind, m: Member) {
    && Blank(m.w0) && Blank(m.w1) && Blank(m.w2) && Blank(m.w3)
    && TokensOk(m.key) && ValOk(Wants(k, Value(m.key)), m.val)
  }

  function MemberText(m: Member): string {
    m.w0 + Literal(m.key) + m.w1 + ":" + m.w2 + ValText(m.val) + m.w3
  }

  function Meant(k: Kind, f: Fields, m: Member): Fields
    requires MemberOk(k, m)
  {
    Put(k, f, Value(m.key), RawOf(m.val))
  }

  /** After an opening brace or a comma: nothing at all, a closing brace and anything, or a member.
      (So a comma may stand before the closing brace, and the text may stop behind a comma.) */
  datatype Body =
    | Nothing
    | Close(w: string, rest: string)
    | Last(m: Member, rest: string)
    | More(m: Member, body: Body)

  predicate BodyOk(k: Kind, b: Body) {
    match b
    case Nothing => true
    case Close(w, _) => Blank(w)
    case Last(m, _) => MemberOk(k, m)
    case More(m, body) => MemberOk(k, m) && BodyOk(k, body)
  }

  function BodyText(b: Body): string {
    match b
    case Nothing => ""
    case Close(w, rest) => w + ("}" + rest)
    case Last(m, rest) => MemberText(m) + ("}" + rest)
    case More(m, body) => MemberText(m) + ("," + BodyText(body))
  }

  /** What an object says: its fields in order, later ones overriding earlier. */
  function Meaning(k: Kind, b: Body, f: Fields): Fields
    requires BodyOk(k, b)
  {
    match b
    case Nothing => f
    case Close(_, _) => f
    case Last(m, _) => Meant(k, f, m)
    case More(m, body) => Meaning(k, body, Meant(k, f, m))
  }

  // ---------------------------------------------------------------- what is spelled is read

  lemma ValuesAreRead(sh: Shape, v: Val, rest: string)
    requires ValOk(sh, v)
    ensures ParseValue(sh, ValText(v) + rest) == Done(RawOf(v), rest)
    ensures SkipWs(ValText(v) + rest) == ValText(v) + rest
  {
    hide ParseString, ParseArray, Value, ItemValues, Text, ItemsText;
    var s := ValText(v) + rest;
    match v
    case VStr(ts) =>
      StringsAreRead(ts, rest);
      assert s[0] == '"';
    case VArr(a) =>
      ArraysAreRead(a, rest);
      assert s[0] == '[';
    case VWord(w) =>
      WordsAreRead(w, rest);
  }

  lemma WordsAreRead(w: string, rest: string)
    requires w in {"true", "false", "null"}
    ensures ParseWord(w + rest, true) == Done(RWord(w), rest)
    ensures w != "null" ==> ParseWord(w + rest, false) == Done(RWord(w), rest)
    ensures w + rest != "" && (w + rest)[0] in "tfn"
  {
    var s := w + rest;
    assert s[..|w|] == w && s[|w|..] == rest && s[0] == w[0];
    assert "true" <= s ==> s[0] == "true"[0];
    assert "false" <= s ==> s[0] == "false"[0];
  }

  predicate Ends(sep: char) {
    sep == ',' || sep == '}'
  }

  /** One member before a separator is read as that member. */
  lemma MemberStep(k: Kind, m: Member, f: Fields, sep: char, s: string)
    requires MemberOk(k, m) && Ends(sep)
    ensures ParseMember(k, MemberText(m) + ([sep] + s), f) == Done(Meant(k, f, m), [sep] + s)
    ensures SkipWs(MemberText(m) + ([sep] + s)) != "" && SkipWs(MemberText(m) + ([sep] + s))[0] == '"'
  {
    hide ParseString, ParseValue, Wants, Put, Value, Text, ValText, ValOk, RawOf;
    var t3 := m.w3 + ([sep] + s);
    var t2 := ValText(m.val) + t3;
    var t1 := ":" + (m.w2 + t2);
    var t0 := Literal(m.key) + (m.w1 + t1);
    MemberAssembled(m, [sep] + s);
    SkipsBlanks(m.w0, t0);
    assert t0[0] == '"' && SkipWs(t0) == t0;
    StringsAreRead(m.key, m.w1 + t1);
    SkipsBlanks(m.w1, t1);
    assert SkipWs(t1) == t1 && t1[1..] == m.w2 + t2;
    SkipsBlanks(m.w2, t2);
    ValuesAreRead(Wants(k, Value(m.key)), m.val, t3);
    SkipsBlanks(m.w3, [sep] + s);
    assert SkipWs([sep] + s) == [sep] + s;
  }

  lemma MemberAssembled(m: Member, tail: string)
    ensures MemberText(m) + tail
         == m.w0 + (Literal(m.key) + (m.w1 + (":" + (m.w2 + (ValText(m.val) + (m.w3 + tail))))))
  {
    hide Literal, ValText;
  }

  /** Whatever is spelled as an object is read, as what it says. */
  lemma {:induction false} ObjectsAreRead(k: Kind, b: Body, f: Fields)
    requires BodyOk(k, b)
    ensures ParseFields(k, BodyText(b), f) == Some(Meaning(k, b, f))
    decreases b
  {
    hide ParseMember, MemberText, Meant;
    match b
    case Nothing =>
    case Close(w, rest) =>
      SkipsBlanks(w, "}" + rest);
    case Last(m, rest) =>
      MemberStep(k, m, f, '}', rest);
      assert "}" + rest == ['}'] + rest;
    case More(m, body) =>
      MemberStep(k, m, f, ',', BodyText(body));
      assert "," + BodyText(body) == [','] + BodyText(body);
      assert ([','] + BodyText(body))[1..] == BodyText(body);
      ObjectsAreRead(k, body, Meant(k, f, m));
  }

  // ---------------------------------------------------------------- what is read was spelled

  lemma {:induction false} SkipTwice(s: string)
    ensures SkipWs(SkipWs(s)) == SkipWs(s)
    decreases |s|
  {
    if s != "" && IsWs(s[0]) {
      SkipTwice(s[1..]);
    }
  }

  lemma ReadsOnlyLiterals(s: string) returns (ts: seq<Token>)
    requires ParseString(s).Done?
    ensures TokensOk(ts) && s == Literal(ts) + ParseString(s).rest && ParseString(s).value == Value(ts)
  {
    hide ParseChars, Text, Value;
    ts := ReadsOnlyStrings(s[1..]);
    assert s == "\"" + s[1..];
  }

  lemma ReadsOnlyValues(sh: Shape, s: string) returns (v: Val)
    requires ParseValue(sh, s).Done? && SkipWs(s) == s
    ensures ValOk(sh, v) && s == ValText(v) + ParseValue(sh, s).rest && ParseValue(sh, s).value == RawOf(v)
  {
    hide ParseString, ParseArray, Value, ItemValues, Text, ItemsText;
    var p := ParseValue(sh, s);
    match p.value
    case RStr(_) =>
      var ts := ReadsOnlyLiterals(s);
      v := VStr(ts);
    case RArr(_) =>
      var a := ReadsOnlyArrays(s);
      v := VArr(a);
    case RWord(w) =>
      v := VWord(w);
      assert s == w + s[|w|..];
  }

  lemma ReadsOnlyMembers(k: Kind, s: string, f: Fields) returns (m: Member)
    requires ParseMember(k, s, f).Done?
    ensures MemberOk(k, m) && s == MemberText(m) + ParseMember(k, s, f).rest
    ensures ParseMember(k, s, f).value == Meant(k, f, m)
  {
    hide ParseString, ParseValue, Wants, Put, Value, Text, ValText, ValOk, RawOf, SkipWs;
    var key := ParseString(SkipWs(s));
    var r := SkipWs(key.rest);
    var r1 := SkipWs(r[1..]);
    var v := ParseValue(Wants(k, key.value), r1);
    var w0 := SkippedBlanks(s);
    var ts := ReadsOnlyLiterals(SkipWs(s));
    var w1 := SkippedBlanks(key.rest);
    var w2 := SkippedBlanks(r[1..]);
    SkipTwice(r[1..]);
    var val := ReadsOnlyValues(Wants(k, key.value), r1);
    var w3 := SkippedBlanks(v.rest);
    m := Member(w0, ts, w1, w2, val, w3);
    MemberAssembled(m, SkipWs(v.rest));
    assert r == ":" + r[1..];
  }

  /** Whatever a decoder accepts is an object of the grammar, and the fields are what it says. */
  lemma {:induction false} ReadsOnlyObjects(k: Kind, s: string, f: Fields) returns (b: Body)
    requires ParseFields(k, s, f).Some?
    ensures BodyOk(k, b) && s == BodyText(b) && ParseFields(k, s, f).value == Meaning(k, b, f)
    decreases |s|
  {
    hide ParseMember, SkipWs, MemberText, Meant;
    if s == "" {
      b := Nothing;
    } else if SkipWs(s) != "" && SkipWs(s)[0] == '}' {
      var w := SkippedBlanks(s);
      b := Close(w, SkipWs(s)[1..]);
      assert SkipWs(s) == "}" + SkipWs(s)[1..];
    } else {
      var p := ParseMember(k, s, f);
      var m := ReadsOnlyMembers(k, s, f);
      assert p.rest == [p.rest[0]] + p.rest[1..];
      if p.rest[0] == '}' {
        b := Last(m, p.rest[1..]);
      } else {
        var body := ReadsOnlyObjects(k, p.rest[1..], p.value);
        b := More(m, body);
      }
    }
  }

  /** A text that spells an object. */
  predicate Spells(k: Kind, s: string, w: string, b: Body) {
    Blank(w) && BodyOk(k, b) && s == w + ("{" + BodyText(b))
  }

  lemma SpelledIsParsed(k: Kind, s: string, w: string, b: Body)
    requires Spells(k, s, w, b)
    ensures ParseObject(k, s) == Some(Meaning(k, b, NoFields()))
  {
    hide ParseFields, BodyText, BodyOk;
    var t := "{" + BodyText(b);
    SkipsBlanks(w, t);
    assert SkipWs(t) == t && t[1..] == BodyText(b);
    ObjectsAreRead(k, b, NoFields());
  }

  lemma ParsedIsSpelled(k: Kind, s: string) returns (w: string, b: Body)
    requires ParseObject(k, s).Some?
    ensures Spells(k, s, w, b)
  {
    hide ParseFields, BodyText, BodyOk, SkipWs;
    w := SkippedBlanks(s);
    b := ReadsOnlyObjects(k, SkipWs(s)[1..], NoFields());
    assert SkipWs(s) == "{" + SkipWs(s)[1..];
  }

  /** What decode_request accepts: exactly the lines that spell an object with an op and an args, and
      the request is what they say. */
  lemma RequestsExactly(s: string, r: Request)
    ensures DecodedRequest(s) == Some(r) <==>
      exists w, b :: Spells(Req, Stripped(s), w, b) && AsRequest(Some(Meaning(Req, b, NoFields()))) == Some(r)
  {
    hide ParseObject, Spells, Stripped;
    if DecodedRequest(s) == Some(r) {
      var w, b := ParsedIsSpelled(Req, Stripped(s));
      SpelledIsParsed(Req, Stripped(s), w, b);
      SpellsOk(Req, Stripped(s), w, b);
    }
    forall w, b | Spells(Req, Stripped(s), w, b)
      ensures BodyOk(Req, b) && ParseObject(Req, Stripped(s)) == Some(Meaning(Req, b, NoFields()))
    {
      SpellsOk(Req, Stripped(s), w, b);
      SpelledIsParsed(Req, Stripped(s), w, b);
    }
  }

  /** What decode_response accepts: exactly the lines that spell an object with an ok. */
  lemma ResponsesExactly(s: string, r: Response)
    ensures DecodedResponse(s) == Some(r) <==>
      exists w, b :: Spells(Resp, Stripped(s), w, b) && AsResponse(Some(Meaning(Resp, b, NoFields()))) == Some(r)
  {
    hide ParseObject, Spells, Stripped;
    if DecodedResponse(s) == Some(r) {
      var w, b := ParsedIsSpelled(Resp, Stripped(s));
      SpelledIsParsed(Resp, Stripped(s), w, b);
      SpellsOk(Resp, Stripped(s), w, b);
    }
    forall w, b | Spells(Resp, Stripped(s), w, b)
      ensures BodyOk(Resp, b) && ParseObject(Resp, Stripped(s)) == Some(Meaning(Resp, b, NoFields()))
    {
      SpellsOk(Resp, Stripped(s), w, b);
      SpelledIsParsed(Resp, Stripped(s), w, b);
    }
  }

  lemma SpellsOk(k: Kind, s: string, w: string, b: Body)
    requires Spells(k, s, w, b)
    ensures BodyOk(k, b)
  {
  }

  // ---------------------------------------------------------------- round trips

  function PlainTokens(s: string): (ts: seq<Token>)
    ensures |ts| == |s| && forall i | 0 <= i < |s| :: ts[i] == Plain(s[i])
  {
    seq(|s|, i requires 0 <= i < |s| => Plain(s[i]))
  }

  lemma {:induction false} PlainSpells(s: string)
    requires forall i | 0 <= i < |s| :: s[i] != '"' && s[i] != '\\'
    ensures var ts := PlainTokens(s); TokensOk(ts) && Text(ts) == s && Value(ts) == s
    decreases |s|
  {
    if s != "" {
      PlainSpells(s[1..]);
      assert PlainTokens(s)[1..] == PlainTokens(s[1..]);
    }
  }

  function QuotedItems(ss: seq<string>): (ts: seq<Item>)
    ensures |ts| == |ss| && forall i | 0 <= i < |ss| :: ts[i] == Item("", EscapeTokens(ss[i]), "")
  {
    seq(|ss|, i requires 0 <= i < |ss| => Item("", EscapeTokens(ss[i]), ""))
  }

  lemma {:induction false} JoinedSpells(ss: seq<string>)
    ensures var ts := QuotedItems(ss); ItemsOk(ts) && ItemsText(ts) == Joined(ss) && ItemValues(ts) == ss
    decreases |ss|
  {
    hide Text, Value, TokensOk, EscapedAll;
    if ss != [] {
      var ts := QuotedItems(ss);
      EscapingSpells(ss[0]);
      JoinedSpells(ss[1..]);
      assert ts[1..] == QuotedItems(ss[1..]);
      assert ItemText(ts[0]) == Quoted(ss[0]);
    }
  }

  function PlainMember(key: string, val: Val): Member {
    Member("", PlainTokens(key), "", "", val, "")
  }

  lemma PlainMemberText(k: Kind, key: string, val: Val)
    requires forall i | 0 <= i < |key| :: key[i] != '"' && key[i] != '\\'
    requires ValOk(Wants(k, key), val)
    ensures MemberText(PlainMember(key, val)) == "\"" + key + "\":" + ValText(val)
    ensures MemberOk(k, PlainMember(key, val)) && Value(PlainTokens(key)) == key
  {
    hide ValText, ValOk, Wants, Text, Value;
    PlainSpells(key);
  }

  function ListVal(ss: seq<string>): Val {
    VArr(Array("", "", QuotedItems(ss)))
  }

  lemma ListValText(ss: seq<string>)
    ensures ValOk(AnArray, ListVal(ss)) && ValText(ListVal(ss)) == "[" + Joined(ss) + "]"
    ensures RawOf(ListVal(ss)) == RArr(ss)
  {
    hide Joined, ItemsText;
    JoinedSpells(ss);
  }

  lemma StringValText(s: string)
    ensures ValOk(AString, VStr(EscapeTokens(s))) && ValText(VStr(EscapeTokens(s))) == Quoted(s)
    ensures RawOf(VStr(EscapeTokens(s))) == RStr(s)
  {
    EscapingSpells(s);
  }

  function RequestBody(r: Request): Body {
    More(PlainMember("op", VStr(EscapeTokens(r.op))), Last(PlainMember("args", ListVal(r.args)), ""))
  }

  lemma RequestSpelled(r: Request)
    ensures Spells(Req, RequestLine(r), "", RequestBody(r))
    ensures AsRequest(Some(Meaning(Req, RequestBody(r), NoFields()))) == Some(r)
  {
    hide ValText, RawOf, Value, MemberText, Quoted, Joined, EscapeTokens, QuotedItems, PlainTokens, Meaning, BodyText;
    var op, args := VStr(EscapeTokens(r.op)), ListVal(r.args);
    StringValText(r.op);
    ListValText(r.args);
    PlainMemberText(Req, "op", op);
    PlainMemberText(Req, "args", args);
    TwoMembers(Req, PlainMember("op", op), PlainMember("args", args));
    TwoMeant(Req, "op", op, "args", args);
    RequestText(Quoted(r.op), Joined(r.args));
  }

  lemma RequestText(x: string, y: string)
    ensures "{" + ("\"" + "op" + "\":" + x) + "," + ("\"" + "args" + "\":" + ("[" + y + "]")) + "}"
         == "{\"op\":" + x + ",\"args\":[" + y + "]}"
  {
  }

  function ResponseBody(r: Response): Body {
    More(PlainMember("ok", VWord(if r.ok then "true" else "false")),
         Last(if r.ok then PlainMember("lines", ListVal(r.lines)) else PlainMember("error", VStr(EscapeTokens(r.error))), ""))
  }

  /** What travels: an error is sent without lines, a success without an error. */
  function Sent(r: Response): Response {
    if r.ok then r.(error := "") else r.(lines := [])
  }

  lemma ResponseSpelled(r: Response)
    ensures Spells(Resp, ResponseLine(r), "", ResponseBody(r))
    ensures AsResponse(Some(Meaning(Resp, ResponseBody(r), NoFields()))) == Some(Sent(r))
  {
    if r.ok {
      SuccessSpelled(r);
    } else {
      ErrorSpelled(r);
    }
  }

  lemma SuccessSpelled(r: Response)
    requires r.ok
    ensures Spells(Resp, ResponseLine(r), "", ResponseBody(r))
    ensures AsResponse(Some(Meaning(Resp, ResponseBody(r), NoFields()))) == Some(Sent(r))
  {
    hide ValText, RawOf, Value, MemberText, Quoted, Joined, EscapeTokens, QuotedItems, PlainTokens, Meaning, BodyText;
    var ok, lines := VWord("true"), ListVal(r.lines);
    WordText("true");
    ListValText(r.lines);
    PlainMemberText(Resp, "ok", ok);
    PlainMemberText(Resp, "lines", lines);
    TwoMembers(Resp, PlainMember("ok", ok), PlainMember("lines", lines));
    TwoMeant(Resp, "ok", ok, "lines", lines);
    SuccessText(Joined(r.lines));
  }

  lemma SuccessText(x: string)
    ensures "{" + ("\"" + "ok" + "\":" + "true") + "," + ("\"" + "lines" + "\":" + ("[" + x + "]")) + "}"
         == "{\"ok\":true,\"lines\":[" + x + "]}"
  {
  }

  lemma TwoMeant(k: Kind, key1: string, v1: Val, key2: string, v2: Val)
    requires MemberOk(k, PlainMember(key1, v1)) && MemberOk(k, PlainMember(key2, v2))
    requires Value(PlainTokens(key1)) == key1 && Value(PlainTokens(key2)) == key2
    ensures var b := More(PlainMember(key1, v1), Last(PlainMember(key2, v2), ""));
      BodyOk(k, b) && Meaning(k, b, NoFields()) == Put(k, Put(k, NoFields(), key1, RawOf(v1)), key2, RawOf(v2))
  {
    hide RawOf, Value, PlainTokens, Put, MemberOk;
    var last := Last(PlainMember(key2, v2), "");
    assert BodyOk(k, last);
  }

  lemma ErrorSpelled(r: Response)
    requires !r.ok
    ensures Spells(Resp, ResponseLine(r), "", ResponseBody(r))
    ensures AsResponse(Some(Meaning(Resp, ResponseBody(r), NoFields()))) == Some(Sent(r))
  {
    hide ValText, RawOf, Value, MemberText, Quoted, Joined, EscapeTokens, QuotedItems, PlainTokens, Meaning, BodyText;
    var ok, error := VWord("false"), VStr(EscapeTokens(r.error));
    WordText("false");
    StringValText(r.error);
    PlainMemberText(Resp, "ok", ok);
    PlainMemberText(Resp, "error", error);
    TwoMembers(Resp, PlainMember("ok", ok), PlainMember("error", error));
    TwoMeant(Resp, "ok", ok, "error", error);
    ErrorText(Quoted(r.error));
  }

  lemma ErrorText(x: string)
    ensures "{" + ("\"" + "ok" + "\":" + "false") + "," + ("\"" + "error" + "\":" + x) + "}"
         == "{\"ok\":false,\"error\":" + x + "}"
  {
  }

  lemma TwoMembers(k: Kind, a: Member, b: Member)
    requires MemberOk(k, a) && MemberOk(k, b)
    ensures Spells(k, "{" + MemberText(a) + "," + MemberText(b) + "}", "", More(a, Last(b, "")))
  {
    hide MemberOk, MemberText;
    var body := BodyText(More(a, Last(b, "")));
    assert BodyText(Last(b, "")) == MemberText(b) + ("}" + "");
    assert BodyOk(k, Last(b, ""));
    assert "{" + body == "{" + MemberText(a) + "," + MemberText(b) + "}";
    assert "" + ("{" + body) == "{" + body;
  }

  lemma WordText(w: string)
    ensures ValText(VWord(w)) == w && RawOf(VWord(w)) == RWord(w)
  {
  }

  lemma LineStripped(line: string)
    requires line != "" && line[|line| - 1] == '}'
    ensures Stripped(line) == line && Stripped(line + "\n") == line && Stripped(line + "\r\n") == line
  {
    assert (line + "\n")[..|line|] == line;
    assert (line + "\r\n")[..|line| + 1] == line + "\r" && (line + "\r")[..|line|] == line;
  }

  /** Round trip of requests, with or without the line end. */
  lemma RequestRoundTrip(r: Request)
    ensures DecodedRequest(RequestLine(r) + "\n") == Some(r) == DecodedRequest(RequestLine(r))
  {
    hide ParseObject, BodyText, Meaning, BodyOk;
    LineStripped(RequestLine(r));
    RequestSpelled(r);
    SpelledIsParsed(Req, RequestLine(r), "", RequestBody(r));
  }

  /** Round trip of responses, up to the field that is not sent. */
  lemma ResponseRoundTrip(r: Response)
    ensures DecodedResponse(ResponseLine(r) + "\n") == Some(Sent(r)) == DecodedResponse(ResponseLine(r))
  {
    hide ParseObject, BodyText, Meaning, BodyOk;
    LineStripped(ResponseLine(r));
    ResponseSpelled(r);
    SpelledIsParsed(Resp, ResponseLine(r), "", ResponseBody(r));
  }

  // ---------------------------------------------------------------- one line each

  lemma {:induction false} NoControls(s: string)
    ensures forall c | c in EscapedAll(s) :: c >= ' '
    decreases |s|
  {
    if s != "" {
      NoControls(s[1..]);
      assert forall c | c in Escaped(s[0]) :: c >= ' ';
    }
  }

  lemma {:induction false} JoinedNoControls(ss: seq<string>)
    ensures forall c | c in Joined(ss) :: c >= ' '
    decreases |ss|
  {
    if ss != [] {
      NoControls(ss[0]);
      JoinedNoControls(ss[1..]);
    }
  }

  /** No control character, so no line end either, appears inside an encoded message. */
  lemma OneLine(q: Request, p: Response)
    ensures forall c | c in RequestLine(q) :: c >= ' '
    ensures forall c | c in ResponseLine(p) :: c >= ' '
  {
    hide EscapedAll, Joined;
    NoControls(q.op);
    JoinedNoControls(q.args);
    JoinedNoControls(p.lines);
    NoControls(p.error);
  }
}
