/** The readers as the code writes them, at a position in the text. Each is proved to do what the
    parser of the same name does on the text from that position. */
module JsonReader {
  import opened Json

  /** skip_ws */
  method SkipAt(s: string, pos: nat) returns (pos': nat)
    requires pos <= |s|
    ensures pos <= pos' <= |s| && s[pos'..] == SkipWs(s[pos..])
  {
    pos' := pos;
    while pos' < |s| && (s[pos'] == ' ' || s[pos'] == '\t' || s[pos'] == '\n' || s[pos'] == '\r')
      invariant pos <= pos' <= |s| && SkipWs(s[pos'..]) == SkipWs(s[pos..])
    {
      assert s[pos'..][1..] == s[pos' + 1..];
      pos' := pos' + 1;
    }
  }

  lemma Behind(s: string, pos: nat)
    requires pos < |s|
    ensures s[pos..][0] == s[pos] && s[pos..][1..] == s[pos + 1..]
  {
  }

  function Leading(h: string, n: nat): nat
    requires AllHex(h) && n <= |h|
  {
    if n == 0 then 0 else Leading(h, n - 1) * 16 + HexValue(h[n - 1])
  }

  lemma LeadingFour(h: string)
    requires |h| == 4 && AllHex(h)
    ensures Leading(h, 4) == HexCode(h)
  {
    assert Leading(h, 1) == Leading(h, 0) * 16 + HexValue(h[0]) == HexValue(h[0]);
    assert Leading(h, 2) == Leading(h, 1) * 16 + HexValue(h[1]);
    assert Leading(h, 3) == Leading(h, 2) * 16 + HexValue(h[2]);
    assert Leading(h, 4) == Leading(h, 3) * 16 + HexValue(h[3]);
  }

  /** The four digits of a \u escape. */
  method HexAt(s: string, pos: nat) returns (ok: bool, v: nat)
    requires pos + 4 <= |s|
    ensures ok == AllHex(s[pos..pos + 4])
    ensures ok ==> v == HexCode(s[pos..pos + 4])
  {
    ghost var h := s[pos..pos + 4];
    v := 0;
    for i := 0 to 4
      invariant AllHex(h[..i]) && v == Leading(h[..i], i)
    {
      var hc := s[pos + i];
      assert hc == h[i];
      var d: nat := 0;
      if '0' <= hc <= '9' {
        d := (hc - '0') as int;
      } else if 'a' <= hc <= 'f' {
        d := 10 + (hc - 'a') as int;
      } else if 'A' <= hc <= 'F' {
        d := 10 + (hc - 'A') as int;
      } else {
        return false, 0;
      }
      LeadingStep(h, i);
      v := v * 16 + d;
    }
    assert h[..4] == h;
    LeadingFour(h);
    ok := true;
  }

  lemma LeadingStep(h: string, i: nat)
    requires i < |h| && AllHex(h[..i]) && IsHex(h[i])
    ensures AllHex(h[..i + 1]) && Leading(h[..i + 1], i + 1) == Leading(h[..i], i) * 16 + HexValue(h[i])
  {
    SameLeading(h[..i + 1], h[..i], i);
  }

  lemma {:induction false} SameLeading(a: string, b: string, n: nat)
    requires AllHex(a) && AllHex(b) && n <= |a| && n <= |b| && forall i | 0 <= i < n :: a[i] == b[i]
    ensures Leading(a, n) == Leading(b, n)
  {
    if n > 0 {
      SameLeading(a, b, n - 1);
    }
  }

  /** The escape after a backslash. */
  method UnescapeAt(s: string, pos: nat) returns (ok: bool, pos': nat, out: string)
    requires pos <= |s|
    ensures ok == Unescape(s[pos..]).Done?
    ensures ok ==> pos < pos' <= |s| && Unescape(s[pos..]) == Done(out, s[pos'..])
  {
    hide AllHex, HexCode, Utf8;
    ok, pos', out := false, pos, "";
    if pos >= |s| {
      return;
    }
    var esc := s[pos];
    Behind(s, pos);
    if esc == '"' || esc == '\\' || esc == '/' {
      ok, pos', out := true, pos + 1, [esc];
    } else if esc == 'n' {
      ok, pos', out := true, pos + 1, "\n";
    } else if esc == 'r' {
      ok, pos', out := true, pos + 1, "\r";
    } else if esc == 't' {
      ok, pos', out := true, pos + 1, "\t";
    } else if esc == 'b' {
      ok, pos', out := true, pos + 1, ['\U{8}'];
    } else if esc == 'f' {
      ok, pos', out := true, pos + 1, ['\U{C}'];
    } else if esc == 'u' {
      if pos + 5 > |s| {
        return;
      }
      var hex, v := HexAt(s, pos + 1);
      assert s[pos..][1..5] == s[pos + 1..pos + 5] && s[pos..][5..] == s[pos + 5..];
      if hex {
        ok, pos', out := true, pos + 5, Utf8(v);
      }
    }
  }

  /** parse_string */
  method ParseStringAt(s: string, pos: nat) returns (ok: bool, pos': nat, out: string)
    requires pos <= |s|
    ensures ok == ParseString(s[pos..]).Done?
    ensures ok ==> pos < pos' <= |s| && ParseString(s[pos..]) == Done(out, s[pos'..])
  {
    hide ParseChars, Unescape;
    ok, pos', out := false, pos, "";
    if pos >= |s| || s[pos] != '"' {
      return;
    }
    assert s[pos..][1..] == s[pos + 1..];
    pos' := pos + 1;
    PrependNone(ParseChars(s[pos'..]));
    while pos' < |s|
      invariant pos < pos' <= |s|
      invariant ParseChars(s[pos + 1..]) == Prepend(out, ParseChars(s[pos'..]))
      decreases |s| - pos'
    {
      CharsStep(s, pos');
      var c := s[pos'];
      pos' := pos' + 1;
      if c == '"' {
        assert out + "" == out;
        ok := true;
        return;
      }
      var chunk := [c];
      if c == '\\' {
        var good, p, u := UnescapeAt(s, pos');
        if !good {
          return;
        }
        pos', chunk := p, u;
      }
      PrependTwice(out, chunk, ParseChars(s[pos'..]));
      out := out + chunk;
    }
    CharsEnd();
  }

  lemma PrependNone(p: Parsed<string>)
    ensures Prepend("", p) == p
  {
    assert p.Done? ==> "" + p.value == p.value;
  }

  lemma PrependTwice(a: string, b: string, p: Parsed<string>)
    ensures Prepend(a, Prepend(b, p)) == Prepend(a + b, p)
  {
    if p.Done? {
      assert a + (b + p.value) == (a + b) + p.value;
    }
  }

  lemma CharsEnd()
    ensures ParseChars("") == Fail
  {
  }

  lemma CharsStep(s: string, pos: nat)
    requires pos < |s|
    ensures s[pos] == '"' ==> ParseChars(s[pos..]) == Done("", s[pos + 1..])
    ensures s[pos] != '"' && s[pos] != '\\' ==> ParseChars(s[pos..]) == Prepend([s[pos]], ParseChars(s[pos + 1..]))
    ensures s[pos] == '\\' ==>
      var u := Unescape(s[pos + 1..]);
      ParseChars(s[pos..]) == if u.Fail? then Fail else Prepend(u.value, ParseChars(u.rest))
  {
    assert s[pos..][1..] == s[pos + 1..];
  }

  /** parse_string_array */
  method ParseArrayAt(s: string, pos: nat) returns (ok: bool, pos': nat, out: seq<string>)
    requires pos <= |s|
    ensures ok == ParseArray(s[pos..]).Done?
    ensures ok ==> pos < pos' <= |s| && ParseArray(s[pos..]) == Done(out, s[pos'..])
  {
    hide ParseString, ParseItems, SkipWs;
    ok, out := false, [];
    pos' := SkipAt(s, pos);
    if pos' >= |s| || s[pos'] != '[' {
      return;
    }
    Behind(s, pos');
    pos' := SkipAt(s, pos' + 1);
    if pos' < |s| && s[pos'] == ']' {
      Behind(s, pos');
      ok, pos' := true, pos' + 1;
      return;
    }
    ok, pos', out := ParseItemsAt(s, pos');
  }

  /** The loop of parse_string_array. */
  method ParseItemsAt(s: string, pos: nat) returns (ok: bool, pos': nat, out: seq<string>)
    requires pos <= |s|
    ensures ok == ParseItems(s[pos..]).Done?
    ensures ok ==> pos < pos' <= |s| && ParseItems(s[pos..]) == Done(out, s[pos'..])
  {
    hide ParseString, ParseItems, SkipWs, PrependItems;
    ok, pos', out := false, pos, [];
    ItemsNone(ParseItems(s[pos..]));
    while true
      invariant pos <= pos' <= |s|
      invariant ParseItems(s[pos..]) == PrependItems(out, ParseItems(s[pos'..]))
      decreases |s| - pos'
    {
      ghost var here := pos';
      pos' := SkipAt(s, pos');
      var good, p, tmp := ParseStringAt(s, pos');
      ItemsStep(s[here..]);
      Prepended(out, ParseItems(s[here..]));
      if !good {
        return;
      }
      pos' := SkipAt(s, p);
      if pos' >= |s| {
        return;
      }
      Behind(s, pos');
      if s[pos'] == ',' {
        ItemsTwice(out, tmp, ParseItems(s[pos' + 1..]));
        out, pos' := out + [tmp], pos' + 1;
        continue;
      }
      out := out + [tmp];
      if s[pos'] == ']' {
        ok, pos' := true, pos' + 1;
      }
      return;
    }
  }

  function PrependItems(a: seq<string>, p: Parsed<seq<string>>): Parsed<seq<string>> {
    if p.Fail? then Fail else Done(a + p.value, p.rest)
  }

  lemma Prepended(a: seq<string>, p: Parsed<seq<string>>)
    ensures PrependItems(a, p) == if p.Fail? then Fail else Done(a + p.value, p.rest)
  {
  }

  lemma ItemsNone(p: Parsed<seq<string>>)
    ensures PrependItems([], p) == p
  {
    assert p.Done? ==> [] + p.value == p.value;
  }

  lemma ItemsTwice(a: seq<string>, v: string, p: Parsed<seq<string>>)
    ensures PrependItems(a, PrependItems([v], p)) == PrependItems(a + [v], p)
  {
    if p.Done? {
      assert a + ([v] + p.value) == (a + [v]) + p.value;
    }
  }

  lemma ItemsStep(s: string)
    ensures var v := ParseString(SkipWs(s));
      && (v.Fail? ==> ParseItems(s) == Fail)
      && (v.Done? ==>
            var r := SkipWs(v.rest);
            ParseItems(s) == if r == "" then Fail
                             else if r[0] == ',' then PrependItems([v.value], ParseItems(r[1..]))
                             else if r[0] == ']' then Done([v.value], r[1..])
                             else Fail)
  {
  }
}
