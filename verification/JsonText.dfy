/** Objects as RFC 8259 defines them, on bytes: the grammar of its sections 2 to 7, and the encoding of
    section 8.1. A value is spelled in front of a rest, which makes texts nest to the right. */
module JsonText {
  import opened Common
  import opened Json

  datatype JValue =
    | JString(ts: seq<Token>)
    | JNumber(sign: string, whole: string, frac: string, exp: string)
    | JWord(w: string)
    | JArray(open: string, items: JItems)
    | JObject(open: string, members: JMembers)

  datatype JItems = NoItems | AnItem(before: string, value: JValue, after: string, more: JItems)

  datatype JMembers =
    | NoMembers
    | AMember(w0: string, key: seq<Token>, w1: string, w2: string, value: JValue, w3: string, more: JMembers)

  function Spelled(v: JValue, rest: string): string {
    match v
    case JString(ts) => Literal(ts) + rest
    case JNumber(sign, whole, frac, exp) => sign + (whole + (frac + (exp + rest)))
    case JWord(w) => w + rest
    case JArray(open, items) => "[" + (open + SpelledItems(items, "]" + rest))
    case JObject(open, members) => "{" + (open + SpelledMembers(members, "}" + rest))
  }

  function SpelledItems(items: JItems, rest: string): string {
    match items
    case NoItems => rest
    case AnItem(before, value, after, more) =>
      before + Spelled(value, after + (if more.NoItems? then rest else "," + SpelledItems(more, rest)))
  }

  function SpelledMembers(members: JMembers, rest: string): string {
    match members
    case NoMembers => rest
    case AMember(w0, key, w1, w2, value, w3, more) =>
      w0 + (Literal(key) + (w1 + (":" + (w2 + Spelled(value,
        w3 + (if more.NoMembers? then rest else "," + SpelledMembers(more, rest)))))))
  }

  predicate IsDigit(c: char) {
    '0' <= c <= '9'
  }

  predicate Digits(s: string) {
    s != "" && forall i | 0 <= i < |s| :: IsDigit(s[i])
  }

  /** Section 6: no leading zeros, and digits wherever a point or an exponent announces them. */
  predicate NumberOk(sign: string, whole: string, frac: string, exp: string) {
    && (sign == "" || sign == "-")
    && Digits(whole) && (|whole| > 1 ==> whole[0] != '0')
    && (frac == "" || (frac[0] == '.' && Digits(frac[1..])))
    && (exp == "" || (exp[0] in "eE" && (Digits(exp[1..]) || (|exp| > 1 && exp[1] in "+-" && Digits(exp[2..])))))
  }

  /** The grammar but for control characters in strings. */
  predicate ValueOk(v: JValue) {
    match v
    case JString(ts) => TokensOk(ts)
    case JNumber(sign, whole, frac, exp) => NumberOk(sign, whole, frac, exp)
    case JWord(w) => w in {"true", "false", "null"}
    case JArray(open, items) => Blank(open) && JItemsOk(items)
    case JObject(open, members) => Blank(open) && JMembersOk(members)
  }

  predicate JItemsOk(items: JItems) {
    items.AnItem? ==>
      Blank(items.before) && ValueOk(items.value) && Blank(items.after) && JItemsOk(items.more)
  }

  predicate JMembersOk(members: JMembers) {
    members.AMember? ==>
      && Blank(members.w0) && Blank(members.w1) && Blank(members.w2) && Blank(members.w3)
      && TokensOk(members.key) && ValueOk(members.value) && JMembersOk(members.more)
  }

  predicate AllStrict(ts: seq<Token>) {
    forall i | 0 <= i < |ts| :: Strict(ts[i])
  }

  /** Section 7: every string is spelled without control characters. */
  predicate StrictValue(v: JValue) {
    match v
    case JString(ts) => AllStrict(ts)
    case JArray(_, items) => StrictItems(items)
    case JObject(_, members) => StrictMembers(members)
    case _ => true
  }

  predicate StrictItems(items: JItems) {
    items.AnItem? ==> StrictValue(items.value) && StrictItems(items.more)
  }

  predicate StrictMembers(members: JMembers) {
    members.AMember? ==> AllStrict(members.key) && StrictValue(members.value) && StrictMembers(members.more)
  }

  /** s is an object with blanks around it. */
  ghost predicate SpellsObject(s: string, lead: string, o: JValue, trail: string) {
    o.JObject? && ValueOk(o) && Blank(lead) && Blank(trail) && s == lead + Spelled(o, trail)
  }

  /** s is a JSON text that is an object. */
  ghost predicate IsJsonObject(s: string) {
    IsUtf8(s) && exists lead, o, trail :: SpellsObject(s, lead, o, trail) && StrictValue(o)
  }

  // ---------------------------------------------------------------- control characters in strings

  /** Reading s from outside any string, no control character is met inside one. */
  predicate Quiet(s: string)
    decreases |s|
  {
    s != "" ==> if s[0] == '"' then QuietString(s[1..]) else Quiet(s[1..])
  }

  predicate QuietString(s: string)
    decreases |s|
  {
    s != "" ==>
      if s[0] == '"' then Quiet(s[1..])
      else if s[0] == '\\' then |s| > 1 ==> QuietString(s[2..])
      else s[0] >= ' ' && QuietString(s[1..])
  }

  predicate Quoteless(w: string) {
    forall i | 0 <= i < |w| :: w[i] != '"'
  }

  lemma {:induction false} QuietBefore(w: string, s: string)
    requires Quoteless(w)
    ensures Quiet(w + s) <==> Quiet(s)
    decreases |w|
  {
    if w == "" {
      assert w + s == s;
    } else {
      QuietBefore(w[1..], s);
      assert (w + s)[0] == w[0] && (w + s)[1..] == w[1..] + s;
    }
  }

  lemma BlankIsQuoteless(w: string)
    requires Blank(w)
    ensures Quoteless(w)
  {
  }

  lemma {:induction false} PlainInString(h: string, s: string)
    requires AllHex(h)
    ensures QuietString(h + s) <==> QuietString(s)
    decreases |h|
  {
    if h == "" {
      assert h + s == s;
    } else {
      PlainInString(h[1..], s);
      assert IsHex(h[0]);
      assert (h + s)[0] == h[0] && (h + s)[1..] == h[1..] + s;
    }
  }

  lemma QuietToken(t: Token, s: string)
    requires TokenOk(t)
    ensures QuietString(TokenText(t) + s) <==> Strict(t) && QuietString(s)
  {
    hide AllHex;
    var all := TokenText(t) + s;
    match t
    case Plain(c) =>
      assert all[0] == c && all[1..] == s;
    case Short(e) =>
      assert all[0] == '\\' && all[2..] == s;
    case Hex(h) =>
      assert all[0] == '\\' && all[2..] == h + s;
      PlainInString(h, s);
  }

  lemma {:induction false} QuietTokens(ts: seq<Token>, s: string)
    requires TokensOk(ts)
    ensures QuietString(Text(ts) + s) <==> AllStrict(ts) && QuietString(s)
    decreases |ts|
  {
    hide QuietString, TokenText, TokenOk, Strict;
    if ts == [] {
      assert Text(ts) + s == s;
    } else {
      QuietToken(ts[0], Text(ts[1..]) + s);
      QuietTokens(ts[1..], s);
      Regrouped(TokenText(ts[0]), Text(ts[1..]), s);
      assert forall i | 1 <= i < |ts| :: ts[i] == ts[1..][i - 1];
    }
  }

  lemma QuietLiteral(ts: seq<Token>, s: string)
    requires TokensOk(ts)
    ensures Quiet(Literal(ts) + s) <==> AllStrict(ts) && Quiet(s)
  {
    hide AllStrict, Text;
    QuietTokens(ts, "\"" + s);
    assert (Literal(ts) + s)[1..] == Text(ts) + ("\"" + s);
    assert ("\"" + s)[1..] == s;
  }

  lemma QuietNumber(v: JValue, s: string)
    requires v.JNumber? && ValueOk(v)
    ensures Quiet(Spelled(v, s)) <==> Quiet(s)
  {
    hide Quiet;
    NumberIsQuoteless(v.sign, v.whole, v.frac, v.exp);
    QuietBefore(v.exp, s);
    QuietBefore(v.frac, v.exp + s);
    QuietBefore(v.whole, v.frac + (v.exp + s));
    QuietBefore(v.sign, v.whole + (v.frac + (v.exp + s)));
  }

  lemma NumberIsQuoteless(sign: string, whole: string, frac: string, exp: string)
    requires NumberOk(sign, whole, frac, exp)
    ensures Quoteless(sign) && Quoteless(whole) && Quoteless(frac) && Quoteless(exp)
  {
    assert forall i | 1 <= i < |frac| :: frac[i] == frac[1..][i - 1];
    assert forall i | 1 <= i < |exp| :: exp[i] == exp[1..][i - 1];
    assert forall i | 2 <= i < |exp| :: exp[i] == exp[2..][i - 2];
  }

  /** A text is quiet if and only if every string of the value in front is strict and the rest is
      quiet. */
  lemma {:induction false} QuietValue(v: JValue, s: string)
    requires ValueOk(v)
    ensures Quiet(Spelled(v, s)) <==> StrictValue(v) && Quiet(s)
    decreases v
  {
    hide Quiet, AllStrict, Literal, NumberOk;
    match v
    case JString(ts) => QuietLiteral(ts, s);
    case JNumber(_, _, _, _) => QuietNumber(v, s);
    case JWord(w) => QuietBefore(w, s);
    case JArray(open, items) =>
      QuietBefore("]", s);
      QuietItems(items, "]" + s);
      BlankIsQuoteless(open);
      QuietBefore(open, SpelledItems(items, "]" + s));
      QuietBefore("[", open + SpelledItems(items, "]" + s));
    case JObject(open, members) =>
      QuietBefore("}", s);
      QuietMembers(members, "}" + s);
      BlankIsQuoteless(open);
      QuietBefore(open, SpelledMembers(members, "}" + s));
      QuietBefore("{", open + SpelledMembers(members, "}" + s));
  }

  lemma {:induction false} QuietItems(items: JItems, s: string)
    requires JItemsOk(items)
    ensures Quiet(SpelledItems(items, s)) <==> StrictItems(items) && Quiet(s)
    decreases items
  {
    hide Quiet;
    if items.AnItem? {
      var tail := if items.more.NoItems? then s else "," + SpelledItems(items.more, s);
      QuietItems(items.more, s);
      QuietBefore(",", SpelledItems(items.more, s));
      BlankIsQuoteless(items.after);
      QuietBefore(items.after, tail);
      QuietValue(items.value, items.after + tail);
      BlankIsQuoteless(items.before);
      QuietBefore(items.before, Spelled(items.value, items.after + tail));
    }
  }

  lemma {:induction false} QuietMembers(ms: JMembers, s: string)
    requires JMembersOk(ms)
    ensures Quiet(SpelledMembers(ms, s)) <==> StrictMembers(ms) && Quiet(s)
    decreases ms
  {
    hide Quiet, AllStrict, Literal, Blank, Quoteless;
    if ms.AMember? {
      var tail := if ms.more.NoMembers? then s else "," + SpelledMembers(ms.more, s);
      var val := Spelled(ms.value, ms.w3 + tail);
      BlanksAreQuoteless(ms);
      QuietMembers(ms.more, s);
      QuietBefore(",", SpelledMembers(ms.more, s));
      QuietBefore(ms.w3, tail);
      QuietValue(ms.value, ms.w3 + tail);
      QuietBefore(ms.w2, val);
      QuietBefore(":", ms.w2 + val);
      QuietBefore(ms.w1, ":" + (ms.w2 + val));
      QuietLiteral(ms.key, ms.w1 + (":" + (ms.w2 + val)));
      QuietBefore(ms.w0, Literal(ms.key) + (ms.w1 + (":" + (ms.w2 + val))));
    }
  }

  lemma BlanksAreQuoteless(ms: JMembers)
    requires ms.AMember? && JMembersOk(ms)
    ensures Quoteless(ms.w0) && Quoteless(ms.w1) && Quoteless(ms.w2) && Quoteless(ms.w3)
    ensures Quoteless(",") && Quoteless(":")
  {
  }

  lemma QuietText(s: string, lead: string, o: JValue, trail: string)
    requires SpellsObject(s, lead, o, trail)
    ensures Quiet(s) <==> StrictValue(o)
  {
    hide Quiet, Spelled, ValueOk, StrictValue;
    BlankIsQuoteless(lead);
    BlankIsQuoteless(trail);
    QuietValue(o, trail);
    QuietBefore(lead, Spelled(o, trail));
    QuietBefore(trail, "");
    assert trail + "" == trail;
    NothingIsQuiet();
  }

  lemma NothingIsQuiet()
    ensures Quiet("")
  {
  }

  predicate NoControl(s: string) {
    forall i | 0 <= i < |s| :: s[i] >= ' '
  }

  /** Without control characters there are none in strings. */
  lemma {:induction false} NoControlIsQuiet(s: string)
    requires NoControl(s)
    ensures Quiet(s) && QuietString(s)
    decreases |s|
  {
    if s != "" {
      NoControlIsQuiet(s[1..]);
      if |s| > 1 {
        NoControlIsQuiet(s[2..]);
      }
    }
  }

  // ---------------------------------------------------------------- how values begin

  /** The first character tells the kinds of values apart, and is no blank. */
  lemma ValueStart(v: JValue, rest: string)
    requires ValueOk(v)
    ensures var s := Spelled(v, rest);
      && s != "" && !IsWs(s[0]) && SkipWs(s) == s && s[0] != ']'
      && (s[0] == '"' <==> v.JString?) && (s[0] == '[' <==> v.JArray?) && (s[0] in "tfn" <==> v.JWord?)
  {
    hide Text, SpelledItems, SpelledMembers;
    var s := Spelled(v, rest);
    match v
    case JString(ts) => assert s[0] == '"';
    case JNumber(sign, whole, _, _) =>
      assert IsDigit(whole[0]);
      assert s[0] == if sign == "" then whole[0] else '-';
    case JWord(w) => assert s[0] == w[0];
    case JArray(_, _) =>
    case JObject(_, _) =>
  }
}
