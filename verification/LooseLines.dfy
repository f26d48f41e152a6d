/** Which of the lines the decoders accept are JSON objects as RFC 8259 has them. The decoders also take
    a comma before the closing brace, text that stops behind a comma, anything behind the closing brace,
    control characters inside strings, and bytes that are not UTF-8. Where their loop stops tells the
    first three apart; a scan of the line finds the others. */
module LooseLines {
  import opened Common
  import opened Json
  import opened JsonText
  import opened ControlCodec

  // ---------------------------------------------------------------- where the loop stops

  datatype Stop = RanOut | AtBrace(behindComma: bool, rest: string)

  /** Where the decoders' loop stops, given whether it has just passed a comma. */
  function StopOf(k: Kind, s: string, f: Fields, comma: bool): Stop
    decreases |s|
  {
    if s == "" then RanOut
    else
      var r := SkipWs(s);
      if r != "" && r[0] == '}' then AtBrace(comma, r[1..])
      else
        var m := ParseMember(k, s, f);
        if m.Fail? || m.rest == "" then RanOut
        else if m.rest[0] == ',' then StopOf(k, m.rest[1..], m.value, true)
        else if m.rest[0] == '}' then AtBrace(false, m.rest[1..])
        else RanOut
  }

  predicate Clean(e: Stop) {
    e.AtBrace? && !e.behindComma && Blank(e.rest)
  }

  /** The loop stops at a brace that closes a member, or the whole object, with only blanks behind. */
  predicate StopsCleanly(k: Kind, s: string) {
    var r := SkipWs(s);
    r != "" && r[0] == '{' && Clean(StopOf(k, r[1..], NoFields(), false))
  }

  /** The same, read off the spelling. */
  function BodyStop(b: Body, comma: bool): Stop {
    match b
    case Nothing => RanOut
    case Close(_, rest) => AtBrace(comma, rest)
    case Last(_, rest) => AtBrace(false, rest)
    case More(_, body) => BodyStop(body, true)
  }

  lemma {:induction false} StopIsSpelled(k: Kind, b: Body, f: Fields, comma: bool)
    requires BodyOk(k, b)
    ensures StopOf(k, BodyText(b), f, comma) == BodyStop(b, comma)
    decreases b
  {
    hide ParseMember, MemberText, Meant;
    match b
    case Nothing =>
    case Close(w, rest) =>
      SkipsBlanks(w, "}" + rest);
      assert ("}" + rest)[1..] == rest;
    case Last(m, rest) =>
      MemberStep(k, m, f, '}', rest);
      assert "}" + rest == ['}'] + rest && (['}'] + rest)[1..] == rest;
    case More(m, body) =>
      MemberStep(k, m, f, ',', BodyText(body));
      assert "," + BodyText(body) == [','] + BodyText(body);
      assert ([','] + BodyText(body))[1..] == BodyText(body);
      StopIsSpelled(k, body, Meant(k, f, m), true);
  }

  lemma StopsAsSpelled(k: Kind, s: string, w: string, b: Body)
    requires Spells(k, s, w, b)
    ensures StopsCleanly(k, s) <==> Clean(BodyStop(b, false))
  {
    hide StopOf, BodyText, BodyOk, Clean, BodyStop;
    var t := "{" + BodyText(b);
    SkipsBlanks(w, t);
    assert SkipWs(t) == t && t[1..] == BodyText(b);
    SpellsOk(k, s, w, b);
    StopIsSpelled(k, b, NoFields(), false);
  }

  // ---------------------------------------------------------------- clean lines are objects

  function FromItems(ts: seq<Item>): JItems {
    if ts == [] then NoItems else AnItem(ts[0].before, JString(ts[0].ts), ts[0].after, FromItems(ts[1..]))
  }

  function FromVal(v: Val): JValue {
    match v
    case VStr(ts) => JString(ts)
    case VArr(a) => JArray(a.open, FromItems(a.items))
    case VWord(w) => JWord(w)
  }

  /** The members of a spelling. */
  function FromBody(b: Body): JMembers {
    match b
    case Nothing => NoMembers
    case Close(_, _) => NoMembers
    case Last(m, _) => AMember(m.w0, m.key, m.w1, m.w2, FromVal(m.val), m.w3, NoMembers)
    case More(m, body) => AMember(m.w0, m.key, m.w1, m.w2, FromVal(m.val), m.w3, FromBody(body))
  }

  lemma {:induction false} ItemsSpelled(ts: seq<Item>, rest: string)
    requires ItemsOk(ts)
    ensures JItemsOk(FromItems(ts)) && ItemsText(ts) + rest == SpelledItems(FromItems(ts), rest)
    decreases |ts|
  {
    hide Literal, Blank, TokensOk;
    if ts == [] {
      assert ItemsText(ts) + rest == rest;
    } else {
      var t := ts[0];
      assert forall i | 1 <= i < |ts| :: ts[i] == ts[1..][i - 1];
      ItemsSpelled(ts[1..], rest);
      ItemSpelled(t.before, Literal(t.ts), t.after, if |ts| == 1 then rest else "," + (ItemsText(ts[1..]) + rest));
      if |ts| > 1 {
        Regrouped(ItemText(t) + ",", ItemsText(ts[1..]), rest);
        Regrouped(ItemText(t), ",", ItemsText(ts[1..]) + rest);
      }
    }
  }

  lemma ItemSpelled(a: string, b: string, c: string, rest: string)
    ensures (a + b + c) + rest == a + (b + (c + rest))
  {
  }

  lemma ValSpelled(sh: Shape, v: Val, rest: string)
    requires ValOk(sh, v)
    ensures ValueOk(FromVal(v)) && ValText(v) + rest == Spelled(FromVal(v), rest)
  {
    hide ItemsText, SpelledItems, Literal, TokensOk;
    if v.VArr? {
      ItemsSpelled(v.a.items, "]" + rest);
      ArraySpelled(v.a.open, ItemsText(v.a.items), rest);
    }
  }

  lemma ArraySpelled(open: string, items: string, rest: string)
    ensures ("" + "[" + open + items + "]") + rest == "[" + (open + (items + ("]" + rest)))
  {
  }

  lemma {:induction false} BodySpelled(k: Kind, b: Body, comma: bool)
    requires BodyOk(k, b) && Clean(BodyStop(b, comma))
    ensures JMembersOk(FromBody(b)) && (FromBody(b).NoMembers? ==> b.Close? && !comma)
    ensures BodyText(b) == (if b.Close? then b.w else "") + SpelledMembers(FromBody(b), "}" + BodyStop(b, comma).rest)
    decreases b
  {
    hide Literal, ValText, ValOk, Blank, TokensOk, MemberText;
    var end := "}" + BodyStop(b, comma).rest;
    match b
    case Close(_, _) =>
    case Last(m, _) =>
      MemberAssembled(m, end);
      ValSpelled(Wants(k, Value(m.key)), m.val, m.w3 + end);
    case More(m, body) =>
      BodySpelled(k, body, true);
      assert "" + SpelledMembers(FromBody(body), end) == SpelledMembers(FromBody(body), end);
      MemberAssembled(m, "," + BodyText(body));
      ValSpelled(Wants(k, Value(m.key)), m.val, m.w3 + ("," + BodyText(body)));
  }

  lemma CleanIsObject(k: Kind, s: string, w: string, b: Body)
    requires Spells(k, s, w, b) && Clean(BodyStop(b, false))
    ensures SpellsObject(s, w, JObject(if b.Close? then b.w else "", FromBody(b)), BodyStop(b, false).rest)
  {
    hide BodyText, SpelledMembers, BodyStop;
    SpellsOk(k, s, w, b);
    BodySpelled(k, b, false);
  }

  // ---------------------------------------------------------------- accepted objects stop cleanly

  /** An array of anything, once it is read as an array of strings, has been read to its end. */
  lemma {:induction false} ItemsReadWhole(items: JItems, rest: string)
    requires items.AnItem? && JItemsOk(items) && ParseItems(SpelledItems(items, "]" + rest)).Done?
    ensures ParseItems(SpelledItems(items, "]" + rest)).rest == rest
    decreases items
  {
    hide ParseString, Literal, Spelled, Value;
    var tail := if items.more.NoItems? then "]" + rest else "," + SpelledItems(items.more, "]" + rest);
    var val := Spelled(items.value, items.after + tail);
    SkipsBlanks(items.before, val);
    ValueStart(items.value, items.after + tail);
    OnlyAfterQuote(val);
    StringInFront(items.value, items.after + tail);
    SkipsBlanks(items.after, tail);
    assert SkipWs(tail) == tail;
    assert ("]" + rest)[1..] == rest;
    if items.more.AnItem? {
      assert tail[1..] == SpelledItems(items.more, "]" + rest);
      ItemsReadWhole(items.more, rest);
    }
  }

  lemma OnlyAfterQuote(s: string)
    ensures ParseString(s).Done? ==> s != "" && s[0] == '"'
  {
  }

  lemma StringInFront(v: JValue, rest: string)
    requires ValueOk(v)
    ensures v.JString? ==> ParseString(Spelled(v, rest)).Done? && ParseString(Spelled(v, rest)).rest == rest
  {
    if v.JString? {
      StringsAreRead(v.ts, rest);
    }
  }

  lemma ArrayReadWhole(open: string, items: JItems, rest: string)
    requires Blank(open) && JItemsOk(items)
    ensures var s := Spelled(JArray(open, items), rest); ParseArray(s).Done? ==> ParseArray(s).rest == rest
  {
    hide ParseItems, Spelled;
    var s, inside := Spelled(JArray(open, items), rest), SpelledItems(items, "]" + rest);
    assert s == "[" + (open + inside) by { ArraySpells(open, items, rest); }
    assert SkipWs(s) == s && s[1..] == open + inside;
    SkipsBlanks(open, inside);
    LeadingBlanks(inside);
    if items.NoItems? {
      assert SkipWs(inside) == inside && inside[1..] == rest;
    } else {
      var tail := if items.more.NoItems? then "]" + rest else "," + SpelledItems(items.more, "]" + rest);
      SkipsBlanks(items.before, Spelled(items.value, items.after + tail));
      ValueStart(items.value, items.after + tail);
      if ParseItems(inside).Done? {
        ItemsReadWhole(items, rest);
      }
    }
  }

  lemma ArraySpells(open: string, items: JItems, rest: string)
    ensures Spelled(JArray(open, items), rest) == "[" + (open + SpelledItems(items, "]" + rest))
  {
  }

  /** So has any value that the decoders take. */
  lemma ValueReadWhole(sh: Shape, v: JValue, rest: string)
    requires ValueOk(v)
    ensures var p := ParseValue(sh, Spelled(v, rest)); p.Done? ==> p.rest == rest
  {
    hide ParseString, ParseArray, Spelled, ValueOk;
    var s := Spelled(v, rest);
    ValueStart(v, rest);
    StringInFront(v, rest);
    OnlyAfterQuote(s);
    OnlyAfterBracket(s);
    OnlyWords(s);
    if v.JArray? {
      ArrayParts(v);
      ArrayReadWhole(v.open, v.items, rest);
    } else if v.JWord? {
      WordInFront(v, rest);
    }
  }

  lemma ArrayParts(v: JValue)
    requires v.JArray? && ValueOk(v)
    ensures Blank(v.open) && JItemsOk(v.items)
  {
  }

  lemma OnlyAfterBracket(s: string)
    requires SkipWs(s) == s
    ensures ParseArray(s).Done? ==> s != "" && s[0] == '['
  {
    hide ParseItems;
  }

  lemma OnlyWords(s: string)
    ensures ParseWord(s, true).Done? || ParseWord(s, false).Done? ==> s != "" && s[0] in "tfn"
  {
    assert "true" <= s ==> s[0] == "true"[0];
    assert "false" <= s ==> s[0] == "false"[0];
    assert "null" <= s ==> s[0] == "null"[0];
  }

  lemma WordInFront(v: JValue, rest: string)
    requires v.JWord? && ValueOk(v)
    ensures var p := ParseWord(Spelled(v, rest), true); p.Done? && p.rest == rest
    ensures var p := ParseWord(Spelled(v, rest), false); p.Done? ==> p.rest == rest
  {
    WordsAreRead(v.w, rest);
    var s := v.w + rest;
    assert s[0] == v.w[0];
    assert "true" <= s ==> s[0] == "true"[0];
    assert "false" <= s ==> s[0] == "false"[0];
  }

  /** And any member. */
  lemma MemberReadWhole(k: Kind, ms: JMembers, f: Fields, rest: string)
    requires ms.AMember? && JMembersOk(ms) && rest != "" && rest[0] == '}'
    ensures var s := SpelledMembers(ms, rest);
      var tail := if ms.more.NoMembers? then rest else "," + SpelledMembers(ms.more, rest);
      && s != "" && SkipWs(s) != "" && SkipWs(s)[0] == '"'
      && (ParseMember(k, s, f).Done? ==> ParseMember(k, s, f).rest == tail)
  {
    hide ParseString, ParseValue, Spelled, Wants, Put, Value, Text, ValueOk;
    var tail := if ms.more.NoMembers? then rest else "," + SpelledMembers(ms.more, rest);
    var val := Spelled(ms.value, ms.w3 + tail);
    var t1 := ":" + (ms.w2 + val);
    var t0 := Literal(ms.key) + (ms.w1 + t1);
    SkipsBlanks(ms.w0, t0);
    assert t0[0] == '"' && SkipWs(t0) == t0;
    StringsAreRead(ms.key, ms.w1 + t1);
    SkipsBlanks(ms.w1, t1);
    assert SkipWs(t1) == t1 && t1[1..] == ms.w2 + val;
    SkipsBlanks(ms.w2, val);
    ValueStart(ms.value, ms.w3 + tail);
    ValueReadWhole(Wants(k, Value(ms.key)), ms.value, ms.w3 + tail);
    SkipsBlanks(ms.w3, tail);
    assert SkipWs(tail) == tail;
  }

  lemma {:induction false} MembersStop(k: Kind, ms: JMembers, f: Fields, comma: bool, trail: string)
    requires ms.AMember? && JMembersOk(ms) && ParseFields(k, SpelledMembers(ms, "}" + trail), f).Some?
    ensures StopOf(k, SpelledMembers(ms, "}" + trail), f, comma) == AtBrace(false, trail)
    decreases ms
  {
    hide ParseMember, Spelled, Literal, Blank, ValueOk;
    var s := SpelledMembers(ms, "}" + trail);
    MemberReadWhole(k, ms, f, "}" + trail);
    assert ("}" + trail)[1..] == trail;
    if ms.more.AMember? {
      var more := SpelledMembers(ms.more, "}" + trail);
      assert ("," + more)[1..] == more;
      MembersStop(k, ms.more, ParseMember(k, s, f).value, true, trail);
    }
  }

  lemma ObjectStops(k: Kind, s: string, lead: string, o: JValue, trail: string)
    requires SpellsObject(s, lead, o, trail) && ParseObject(k, s).Some?
    ensures StopsCleanly(k, s)
  {
    hide ParseFields, StopOf, SpelledMembers;
    var open, ms := o.open, o.members;
    var inside := SpelledMembers(ms, "}" + trail);
    var t := "{" + (open + inside);
    SkipsBlanks(lead, t);
    assert SkipWs(t) == t && t[1..] == open + inside;
    if ms.NoMembers? {
      EmptyStops(k, open, trail);
      assert inside == "}" + trail by { NoMembersText("}" + trail); }
    } else {
      var ms' := ms.(w0 := open + ms.w0);
      OpenJoins(ms, open, "}" + trail);
      MembersStop(k, ms', NoFields(), false, trail);
    }
  }

  lemma NoMembersText(rest: string)
    ensures SpelledMembers(NoMembers, rest) == rest
  {
  }

  lemma EmptyStops(k: Kind, open: string, trail: string)
    requires Blank(open)
    ensures StopOf(k, open + ("}" + trail), NoFields(), false) == AtBrace(false, trail)
  {
    var s := open + ("}" + trail);
    SkipsBlanks(open, "}" + trail);
    assert |s| > 0 && SkipWs("}" + trail) == "}" + trail && ("}" + trail)[1..] == trail;
  }

  lemma OpenJoins(ms: JMembers, open: string, rest: string)
    requires ms.AMember? && JMembersOk(ms) && Blank(open)
    ensures var ms' := ms.(w0 := open + ms.w0);
      JMembersOk(ms') && SpelledMembers(ms', rest) == open + SpelledMembers(ms, rest)
  {
    hide Spelled, Literal;
    var tail := if ms.more.NoMembers? then rest else "," + SpelledMembers(ms.more, rest);
    Regrouped(open, ms.w0, Literal(ms.key) + (ms.w1 + (":" + (ms.w2 + Spelled(ms.value, ms.w3 + tail)))));
  }

  /** Of the lines that are accepted, exactly those are JSON objects at which the loop stops cleanly, with
      no control character inside a string, and in UTF-8. */
  lemma CleanLinesAreObjects(k: Kind, s: string)
    requires ParseObject(k, s).Some?
    ensures IsJsonObject(s) <==> StopsCleanly(k, s) && Quiet(s) && IsUtf8(s)
  {
    hide StopsCleanly, ParseObject, Quiet, IsUtf8, SpellsObject, StrictValue;
    var w, b := ParsedIsSpelled(k, s);
    StopsAsSpelled(k, s, w, b);
    if StopsCleanly(k, s) && Quiet(s) {
      var o := JObject(if b.Close? then b.w else "", FromBody(b));
      CleanIsObject(k, s, w, b);
      QuietText(s, w, o, BodyStop(b, false).rest);
    }
    forall lead, o, trail | SpellsObject(s, lead, o, trail) && StrictValue(o)
      ensures StopsCleanly(k, s) && Quiet(s)
    {
      ObjectStops(k, s, lead, o, trail);
      QuietText(s, lead, o, trail);
    }
  }

  // ---------------------------------------------------------------- what the encoders write

  /** An ASCII character ends whatever UTF-8 is in front of it. */
  lemma {:induction false} Utf8Between(a: string, c: char, b: string)
    requires !High(c)
    ensures IsUtf8(a + ([c] + b)) <==> IsUtf8(a) && IsUtf8(b)
    decreases |a|
  {
    hide IsUtf8, StartsUtf8, Following;
    var s := a + ([c] + b);
    if a == "" {
      assert s == [c] + b;
      AsciiFirst([c], b);
      EmptyUtf8();
    } else {
      Utf8Step(a);
      Utf8Step(s);
      StartsAlike(a, c, b);
      if StartsUtf8(a) {
        StartBounds(a);
        var n := Following(a[0]) + 1;
        assert s[0] == a[0] && s[n..] == a[n..] + ([c] + b);
        Utf8Between(a[n..], c, b);
      }
    }
  }

  lemma Utf8Step(s: string)
    requires s != ""
    ensures IsUtf8(s) <==> StartsUtf8(s) && 0 <= Following(s[0]) < |s| && IsUtf8(s[Following(s[0]) + 1..])
  {
  }

  lemma StartsAlike(a: string, c: char, b: string)
    requires a != "" && !High(c)
    ensures StartsUtf8(a + ([c] + b)) <==> StartsUtf8(a)
  {
    hide SecondOk;
    var s, n := a + ([c] + b), Following(a[0]);
    assert s[0] == a[0] && s[|a|] == c;
    assert forall i | 0 <= i < |a| :: s[i] == a[i];
    if n >= |a| {
      assert !Continues(s[|a|]);
    }
  }

  lemma QuotedUtf8(x: string, rest: string)
    ensures IsUtf8(Quoted(x) + rest) <==> IsUtf8(x) && IsUtf8(rest)
  {
    hide IsUtf8, EscapedAll;
    var e := EscapedAll(x);
    assert Quoted(x) + rest == "\"" + (e + (['"'] + rest));
    AsciiFirst("\"", e + (['"'] + rest));
    Utf8Between(e, '"', rest);
    EscapingKeepsUtf8(x);
  }

  lemma {:induction false} JoinedUtf8(ss: seq<string>, rest: string)
    ensures IsUtf8(Joined(ss) + rest) <==> (forall i | 0 <= i < |ss| :: IsUtf8(ss[i])) && IsUtf8(rest)
    decreases |ss|
  {
    hide IsUtf8, Quoted;
    if ss == [] {
      assert Joined(ss) + rest == rest;
    } else if |ss| == 1 {
      QuotedUtf8(ss[0], rest);
    } else {
      var more := Joined(ss[1..]) + rest;
      JoinedUtf8(ss[1..], rest);
      AsciiFirst(",", more);
      QuotedUtf8(ss[0], "," + more);
      assert Joined(ss) + rest == Quoted(ss[0]) + ("," + more);
      assert forall i | 1 <= i < |ss| :: ss[i] == ss[1..][i - 1];
    }
  }

  lemma RequestUtf8(r: Request)
    ensures IsUtf8(RequestLine(r)) <==> IsUtf8(r.op) && forall i | 0 <= i < |r.args| :: IsUtf8(r.args[i])
  {
    hide IsUtf8, Quoted, Joined;
    var end := Joined(r.args) + "]}";
    assert RequestLine(r) == "{\"op\":" + (Quoted(r.op) + (",\"args\":[" + end));
    AsciiFirst("{\"op\":", Quoted(r.op) + (",\"args\":[" + end));
    QuotedUtf8(r.op, ",\"args\":[" + end);
    AsciiFirst(",\"args\":[", end);
    JoinedUtf8(r.args, "]}");
    AsciiFirst("]}", "");
    EmptyUtf8();
    assert "]}" + "" == "]}";
  }

  lemma ResponseUtf8(r: Response)
    ensures IsUtf8(ResponseLine(r)) <==>
      if r.ok then forall i | 0 <= i < |r.lines| :: IsUtf8(r.lines[i]) else IsUtf8(r.error)
  {
    hide IsUtf8, Quoted, Joined;
    EmptyUtf8();
    if r.ok {
      var end := Joined(r.lines) + "]}";
      assert ResponseLine(r) == "{\"ok\":true,\"lines\":[" + end;
      AsciiFirst("{\"ok\":true,\"lines\":[", end);
      JoinedUtf8(r.lines, "]}");
      AsciiFirst("]}", "");
      assert "]}" + "" == "]}";
    } else {
      assert ResponseLine(r) == "{\"ok\":false,\"error\":" + (Quoted(r.error) + "}");
      AsciiFirst("{\"ok\":false,\"error\":", Quoted(r.error) + "}");
      QuotedUtf8(r.error, "}");
      AsciiFirst("}", "");
      assert "}" + "" == "}";
    }
  }

  lemma EmptyUtf8()
    ensures IsUtf8("")
  {
  }

  lemma TwoMembersStop(a: Member, b: Member)
    ensures Clean(BodyStop(More(a, Last(b, "")), false))
  {
    assert BodyStop(Last(b, ""), true) == AtBrace(false, "");
  }

  /** What the encoders write is a JSON object if and only if the strings in it are UTF-8. */
  lemma EncodedLinesAreObjects(q: Request, p: Response)
    ensures IsJsonObject(RequestLine(q)) <==> IsUtf8(q.op) && forall i | 0 <= i < |q.args| :: IsUtf8(q.args[i])
    ensures IsJsonObject(ResponseLine(p)) <==>
      if p.ok then forall i | 0 <= i < |p.lines| :: IsUtf8(p.lines[i]) else IsUtf8(p.error)
  {
    hide ParseObject, StopsCleanly, IsUtf8, RequestLine, ResponseLine, Quiet, IsJsonObject, Spells, Meaning, Clean, BodyStop;
    OneLine(q, p);
    RequestSpelled(q);
    SpelledIsParsed(Req, RequestLine(q), "", RequestBody(q));
    TwoMembersStop(RequestBody(q).m, RequestBody(q).body.m);
    StopsAsSpelled(Req, RequestLine(q), "", RequestBody(q));
    LineIsQuiet(RequestLine(q));
    CleanLinesAreObjects(Req, RequestLine(q));
    RequestUtf8(q);
    ResponseSpelled(p);
    SpelledIsParsed(Resp, ResponseLine(p), "", ResponseBody(p));
    TwoMembersStop(ResponseBody(p).m, ResponseBody(p).body.m);
    StopsAsSpelled(Resp, ResponseLine(p), "", ResponseBody(p));
    LineIsQuiet(ResponseLine(p));
    CleanLinesAreObjects(Resp, ResponseLine(p));
    ResponseUtf8(p);
  }

  lemma LineIsQuiet(s: string)
    requires forall c | c in s :: c >= ' '
    ensures Quiet(s)
  {
    hide Quiet;
    assert forall i | 0 <= i < |s| :: s[i] in s;
    NoControlIsQuiet(s);
  }

  // ---------------------------------------------------------------- lines that are not objects

  /** The members of a request, without the braces. */
  function Inside(r: Request): string {
    "\"op\":" + Quoted(r.op) + ",\"args\":[" + Joined(r.args) + "]"
  }

  function OpMember(r: Request): Member {
    PlainMember("op", VStr(EscapeTokens(r.op)))
  }

  function ArgsMember(r: Request): Member {
    PlainMember("args", ListVal(r.args))
  }

  lemma InsideSpelled(r: Request)
    ensures MemberOk(Req, OpMember(r)) && MemberOk(Req, ArgsMember(r))
    ensures MemberText(OpMember(r)) + ("," + MemberText(ArgsMember(r))) == Inside(r)
    ensures AsRequest(Some(Meant(Req, Meant(Req, NoFields(), OpMember(r)), ArgsMember(r)))) == Some(r)
  {
    hide ValText, RawOf, Value, MemberText, Quoted, Joined, EscapeTokens, QuotedItems, PlainTokens;
    StringValText(r.op);
    ListValText(r.args);
    PlainMemberText(Req, "op", VStr(EscapeTokens(r.op)));
    PlainMemberText(Req, "args", ListVal(r.args));
    InsideText(Quoted(r.op), Joined(r.args));
  }

  lemma InsideText(x: string, y: string)
    ensures ("\"" + "op" + "\":" + x) + ("," + ("\"" + "args" + "\":" + ("[" + y + "]")))
         == "\"op\":" + x + ",\"args\":[" + y + "]"
  {
  }

  lemma BodySaysRequest(r: Request, tail: Body, text: string)
    requires tail.Nothing? || tail.Close?
    requires BodyOk(Req, tail) && text == "{" + (Inside(r) + ("," + BodyText(tail)))
    ensures var b := More(OpMember(r), More(ArgsMember(r), tail));
      Spells(Req, text, "", b) && AsRequest(ParseObject(Req, text)) == Some(r)
  {
    hide MemberOk, MemberText, ParseObject, Inside, Meant;
    InsideSpelled(r);
    var args := More(ArgsMember(r), tail);
    var b := More(OpMember(r), args);
    assert BodyText(args) == MemberText(ArgsMember(r)) + ("," + BodyText(tail));
    assert BodyText(b) == Inside(r) + ("," + BodyText(tail));
    assert "" + ("{" + BodyText(b)) == text;
    assert BodyOk(Req, args);
    assert Meaning(Req, args, Meant(Req, NoFields(), OpMember(r)))
        == Meant(Req, Meant(Req, NoFields(), OpMember(r)), ArgsMember(r));
    SpelledIsParsed(Req, text, "", b);
  }

  /** A line that ends in none of the characters a line end is made of is read as it is. */
  lemma NotStripped(s: string)
    requires s != "" && s[|s| - 1] != '\n' && s[|s| - 1] != '\r'
    ensures Stripped(s) == s
  {
  }

  /** Every request is also accepted with a comma before the closing brace. */
  lemma CommaBeforeBrace(r: Request)
    ensures var s := "{" + (Inside(r) + ",}");
      DecodedRequest(s) == Some(r) && !StopsCleanly(Req, s) && !IsJsonObject(s)
  {
    hide Inside, ParseObject, StopsCleanly, IsJsonObject;
    var s := "{" + (Inside(r) + ",}");
    assert "," + BodyText(Close("", "")) == ",}";
    BodySaysRequest(r, Close("", ""), s);
    NotStripped(s);
    StopsAsSpelled(Req, s, "", More(OpMember(r), More(ArgsMember(r), Close("", ""))));
    NotClean(OpMember(r), ArgsMember(r));
    CleanLinesAreObjects(Req, s);
  }

  /** And with nothing at all behind that comma. */
  lemma CutBehindComma(r: Request)
    ensures var s := "{" + (Inside(r) + ",");
      DecodedRequest(s) == Some(r) && !StopsCleanly(Req, s) && !IsJsonObject(s)
  {
    hide Inside, ParseObject, StopsCleanly, IsJsonObject;
    var s := "{" + (Inside(r) + ",");
    assert "," + BodyText(Nothing) == ",";
    BodySaysRequest(r, Nothing, s);
    NotStripped(s);
    StopsAsSpelled(Req, s, "", More(OpMember(r), More(ArgsMember(r), Nothing)));
    NotClean(OpMember(r), ArgsMember(r));
    CleanLinesAreObjects(Req, s);
  }

  lemma NotClean(a: Member, b: Member)
    ensures !Clean(BodyStop(More(a, More(b, Close("", ""))), false))
    ensures !Clean(BodyStop(More(a, More(b, Nothing)), false))
  {
    assert BodyStop(More(b, Close("", "")), true) == BodyStop(Close("", ""), true);
    assert BodyStop(More(b, Nothing), true) == BodyStop(Nothing, true);
  }

  /** And with anything behind the closing brace; unless that is blank, the line is no object. */
  lemma AnythingBehindBrace(r: Request, junk: string)
    ensures var s := RequestLine(r) + junk;
      && AsRequest(ParseObject(Req, s)) == Some(r)
      && (StopsCleanly(Req, s) <==> Blank(junk)) && (!Blank(junk) ==> !IsJsonObject(s))
  {
    hide Inside, ParseObject, StopsCleanly, MemberOk, MemberText, Meant, RequestLine, Blank, IsJsonObject;
    var s, args := RequestLine(r) + junk, Last(ArgsMember(r), junk);
    var b := More(OpMember(r), args);
    InsideSpelled(r);
    LineIsInside(r);
    assert BodyText(args) == MemberText(ArgsMember(r)) + ("}" + junk);
    assert BodyText(b) == Inside(r) + ("}" + junk);
    assert "" + ("{" + BodyText(b)) == s;
    assert BodyOk(Req, args);
    assert Blank("") by { NoneBlank(); }
    assert Spells(Req, s, "", b);
    assert Meaning(Req, args, Meant(Req, NoFields(), OpMember(r)))
        == Meant(Req, Meant(Req, NoFields(), OpMember(r)), ArgsMember(r));
    SpelledIsParsed(Req, s, "", b);
    StopsAsSpelled(Req, s, "", b);
    assert BodyStop(args, true) == AtBrace(false, junk);
    CleanLinesAreObjects(Req, s);
  }

  lemma NoneBlank()
    ensures Blank("")
  {
  }

  lemma LineIsInside(r: Request)
    ensures RequestLine(r) == "{" + Inside(r) + "}"
  {
    hide Quoted, Joined;
  }

  /** A request whose op is spelled with these tokens. */
  function RawOp(ts: seq<Token>): string {
    "{\"op\":" + Literal(ts) + ",\"args\":[]}"
  }

  lemma RawText(x: string, y: string)
    requires y == ""
    ensures "{\"op\":" + x + ",\"args\":[]}"
         == "" + ("{" + (("\"" + "op" + "\":" + x) + ("," + (("\"" + "args" + "\":" + ("[" + y + "]")) + ("}" + "")))))
  {
  }

  /** Whatever its op is spelled with, it is accepted and the loop stops cleanly. */
  lemma RawOpAccepted(ts: seq<Token>)
    requires TokensOk(ts)
    ensures var s := RawOp(ts);
      && DecodedRequest(s) == Some(Request(Value(ts), [])) && ParseObject(Req, s).Some? && StopsCleanly(Req, s)
  {
    hide Text, Value, Literal, ParseObject, StopsCleanly, MemberText, MemberOk, BodyStop, Clean, PlainTokens, Meant;
    var s := RawOp(ts);
    var op, args := PlainMember("op", VStr(ts)), PlainMember("args", ListVal([]));
    var b := More(op, Last(args, ""));
    ListValText([]);
    PlainMemberText(Req, "op", VStr(ts));
    PlainMemberText(Req, "args", ListVal([]));
    assert BodyText(Last(args, "")) == MemberText(args) + ("}" + "");
    assert BodyText(b) == MemberText(op) + ("," + (MemberText(args) + ("}" + "")));
    RawText(Literal(ts), Joined([]));
    assert BodyOk(Req, Last(args, ""));
    NoneBlank();
    SpelledIsParsed(Req, s, "", b);
    MeansRequest(ts, op, args);
    TwoMembersStop(op, args);
    StopsAsSpelled(Req, s, "", b);
    NotStripped(s);
  }

  lemma MeansRequest(ts: seq<Token>, op: Member, args: Member)
    requires TokensOk(ts) && MemberOk(Req, op) && MemberOk(Req, args)
    requires Value(op.key) == "op" && op.val == VStr(ts) && Value(args.key) == "args" && RawOf(args.val) == RArr([])
    ensures AsRequest(Some(Meaning(Req, More(op, Last(args, "")), NoFields()))) == Some(Request(Value(ts), []))
  {
    hide Value;
    assert Meaning(Req, Last(args, ""), Meant(Req, NoFields(), op)) == Meant(Req, Meant(Req, NoFields(), op), args);
  }

  /** A raw control character inside a string is accepted, and no JSON. */
  lemma ControlInString(c: char)
    requires c < ' '
    ensures var s := RawOp([Plain(c)]);
      DecodedRequest(s) == Some(Request([c], [])) && StopsCleanly(Req, s) && !Quiet(s) && !IsJsonObject(s)
  {
    hide DecodedRequest, ParseObject, StopsCleanly, IsJsonObject;
    var ts := [Plain(c)];
    RawOpAccepted(ts);
    assert Value(ts) == [c];
    RawOpQuiet(ts);
    CleanLinesAreObjects(Req, RawOp(ts));
  }

  lemma RawOpQuiet(ts: seq<Token>)
    requires TokensOk(ts)
    ensures Quiet(RawOp(ts)) <==> AllStrict(ts)
  {
    hide Quiet, Literal, AllStrict;
    var end := ",\"args\":[]}";
    var op := [Plain('o'), Plain('p')];
    OpLiteral(Literal(ts) + end);
    assert RawOp(ts) == "{\"op\":" + (Literal(ts) + end);
    QuietBefore("{", Literal(op) + (":" + (Literal(ts) + end)));
    QuietLiteral(op, ":" + (Literal(ts) + end));
    QuietBefore(":", Literal(ts) + end);
    QuietLiteral(ts, end);
    NoControlIsQuiet(end);
  }

  lemma OpLiteral(rest: string)
    ensures var op := [Plain('o'), Plain('p')];
      "{\"op\":" + rest == "{" + (Literal(op) + (":" + rest)) && AllStrict(op) && TokensOk(op)
  {
    var op := [Plain('o'), Plain('p')];
    assert op[1..] == [Plain('p')] && op[1..][1..] == [];
    assert Text(op) == "o" + ("p" + "");
    assert Literal(op) == "\"op\"";
  }

  /** So is a byte that cannot begin a UTF-8 character. */
  lemma BadByteInString(c: char)
    requires Following(c) < 0
    ensures var s := RawOp([Plain(c)]);
      && DecodedRequest(s) == Some(Request([c], [])) && StopsCleanly(Req, s) && Quiet(s)
      && !IsUtf8(s) && !IsJsonObject(s)
  {
    hide DecodedRequest, ParseObject, StopsCleanly;
    var ts := [Plain(c)];
    RawOpAccepted(ts);
    assert Value(ts) == [c];
    RawOpQuiet(ts);
    var end := "\",\"args\":[]}";
    assert ts[1..] == [] && Text(ts) == [c] + "" == [c];
    assert RawOp(ts) == "{\"op\":\"" + ([c] + end);
    AsciiFirst("{\"op\":\"", [c] + end);
    assert ([c] + end)[0] == c;
  }
}
