/** The encoders and decoders of the control protocol as the code writes them, each proved to compute
    what ControlCodec says. */
module ControlMessages {
  import opened Common
  import opened Json
  import opened JsonReader
  import opened ControlCodec

  lemma {:induction false} JoinedOneMore(ss: seq<string>, i: nat)
    requires i < |ss|
    ensures Joined(ss[..i + 1]) == Joined(ss[..i]) + (if i == 0 then "" else ",") + Quoted(ss[i])
    decreases i
  {
    hide Quoted;
    if i > 0 {
      JoinedOneMore(ss[1..], i - 1);
      assert ss[..i + 1][1..] == ss[1..][..i] && ss[..i][1..] == ss[1..][..i - 1];
    }
  }

  /** The strings of an array, appended to a message. */
  method AppendJoined(ss: seq<string>, out: string) returns (out': string)
    ensures out' == out + Joined(ss)
  {
    hide Quoted, Joined;
    out' := out;
    var first := true;
    JoinedNone();
    assert ss[..0] == [];
    for i := 0 to |ss|
      invariant first == (i == 0) && out' == out + Joined(ss[..i])
    {
      JoinedOneMore(ss, i);
      if !first {
        out' := out' + ",";
      }
      first := false;
      out' := JsonEscape(ss[i], out');
    }
    assert ss[..|ss|] == ss;
  }

  lemma JoinedNone()
    ensures Joined([]) == ""
  {
  }

  /** encode_request */
  method EncodeRequest(r: Request) returns (out: string)
    ensures out == RequestLine(r) + "\n"
  {
    hide Quoted, Joined;
    out := "{\"op\":";
    out := JsonEscape(r.op, out);
    out := out + ",\"args\":[";
    out := AppendJoined(r.args, out);
    out := out + "]}\n";
  }

  /** encode_response */
  method EncodeResponse(r: Response) returns (out: string)
    ensures out == ResponseLine(r) + "\n"
  {
    hide Quoted, Joined;
    if r.ok {
      out := AppendJoined(r.lines, "{\"ok\":true,\"lines\":[");
      out := out + "]}\n";
    } else {
      out := JsonEscape(r.error, "{\"ok\":false,\"error\":");
      out := out + "}\n";
    }
  }

  /** The value of a key no decoder knows, or of a response's ok: read and dropped. */
  method SkipValueAt(s: string, pos: nat, words: bool) returns (ok: bool, pos': nat)
    requires pos <= |s|
    ensures ok == ParseValue(Skipped(words), s[pos..]).Done?
    ensures ok ==> pos <= pos' <= |s| && s[pos'..] == ParseValue(Skipped(words), s[pos..]).rest
  {
    hide ParseString, ParseArray;
    ok, pos' := false, pos;
    if pos < |s| && s[pos] == '"' {
      var ignored;
      ok, pos', ignored := ParseStringAt(s, pos);
    } else if pos < |s| && s[pos] == '[' {
      var ignored;
      ok, pos', ignored := ParseArrayAt(s, pos);
    } else if words {
      var w;
      ok, pos', w := WordAt(s, pos, true);
    }
  }

  method WordAt(s: string, pos: nat, orNull: bool) returns (ok: bool, pos': nat, w: string)
    requires pos <= |s|
    ensures ok == ParseWord(s[pos..], orNull).Done?
    ensures ok ==> pos <= pos' <= |s| && ParseWord(s[pos..], orNull) == Done(RWord(w), s[pos'..])
  {
    ok, pos', w := true, pos, "";
    if "true" <= s[pos..] {
      pos', w := pos + 4, "true";
    } else if "false" <= s[pos..] {
      pos', w := pos + 5, "false";
    } else if orNull && "null" <= s[pos..] {
      pos', w := pos + 4, "null";
    } else {
      ok := false;
    }
  }

  /** The key of a member and its colon; the value starts at pos'. */
  method KeyAt(s: string, pos: nat) returns (ok: bool, pos': nat, key: string)
    requires pos <= |s|
    ensures ok == (var p := ParseString(SkipWs(s[pos..]));
                   p.Done? && SkipWs(p.rest) != "" && SkipWs(p.rest)[0] == ':')
    ensures ok ==>
      var p := ParseString(SkipWs(s[pos..]));
      pos < pos' <= |s| && p.value == key && s[pos'..] == SkipWs(SkipWs(p.rest)[1..])
  {
    hide ParseString, SkipWs;
    ok := false;
    pos' := SkipAt(s, pos);
    var good, p, k := ParseStringAt(s, pos');
    key := k;
    if !good {
      return;
    }
    pos' := SkipAt(s, p);
    if pos' >= |s| || s[pos'] != ':' {
      return;
    }
    assert s[pos'..][1..] == s[pos' + 1..];
    pos' := SkipAt(s, pos' + 1);
    ok := true;
  }

  /** What the loop does behind a member. */
  lemma FieldsStep(k: Kind, s: string, pos: nat, f: Fields)
    requires pos < |s|
    ensures var t := s[pos..];
      && (SkipWs(t) != "" && SkipWs(t)[0] == '}' ==> ParseFields(k, t, f) == Some(f))
      && (!(SkipWs(t) != "" && SkipWs(t)[0] == '}') ==>
            var m := ParseMember(k, t, f);
            ParseFields(k, t, f) ==
              if m.Fail? || m.rest == "" then None
              else if m.rest[0] == ',' then ParseFields(k, m.rest[1..], m.value)
              else if m.rest[0] == '}' then Some(m.value)
              else None)
  {
  }

  /** One member of a request. */
  method RequestMemberAt(s: string, pos: nat, r: Request, gotOp: bool, gotArgs: bool)
      returns (ok: bool, pos': nat, r': Request, gotOp': bool, gotArgs': bool)
    requires pos <= |s|
    ensures ok == ParseMember(Req, s[pos..], RequestFields(r, gotOp, gotArgs)).Done?
    ensures ok ==>
      && pos < pos' <= |s|
      && ParseMember(Req, s[pos..], RequestFields(r, gotOp, gotArgs))
         == Done(RequestFields(r', gotOp', gotArgs'), s[pos'..])
  {
    hide ParseString, ParseArray, SkipWs;
    r', gotOp', gotArgs' := r, gotOp, gotArgs;
    var good, p, key := KeyAt(s, pos);
    if !good {
      return false, pos, r, gotOp, gotArgs;
    }
    if key == "op" {
      var op;
      ok, pos', op := ParseStringAt(s, p);
      r', gotOp' := r.(op := op), true;
    } else if key == "args" {
      var args;
      ok, pos', args := ParseArrayAt(s, p);
      r', gotArgs' := r.(args := args), true;
    } else {
      ok, pos' := SkipValueAt(s, p, false);
    }
    if ok {
      pos' := SkipAt(s, pos');
    }
  }

  function RequestFields(r: Request, gotOp: bool, gotArgs: bool): Fields {
    Fields(false, r.args, r.op, false, gotArgs, gotOp)
  }

  method StripAt(sIn: string) returns (s: string)
    ensures s == Stripped(sIn)
  {
    s := sIn;
    if s != "" && s[|s| - 1] == '\n' {
      s := s[..|s| - 1];
    }
    if s != "" && s[|s| - 1] == '\r' {
      s := s[..|s| - 1];
    }
  }

  /** decode_request */
  method DecodeRequest(sIn: string) returns (ok: bool, r: Request)
    ensures DecodedRequest(sIn) == if ok then Some(r) else None
  {
    hide ParseFields, ParseMember, SkipWs, Stripped;
    ok, r := false, Request("", []);
    var s := StripAt(sIn);
    var pos := SkipAt(s, 0);
    assert s[0..] == s;
    if pos >= |s| || s[pos] != '{' {
      return;
    }
    assert s[pos..][1..] == s[pos + 1..];
    pos := pos + 1;
    var gotOp, gotArgs := false, false;
    while pos < |s|
      invariant pos <= |s|
      invariant ParseObject(Req, s) == ParseFields(Req, s[pos..], RequestFields(r, gotOp, gotArgs))
      decreases |s| - pos
    {
      FieldsStep(Req, s, pos, RequestFields(r, gotOp, gotArgs));
      var at := SkipAt(s, pos);
      if at < |s| && s[at] == '}' {
        return gotOp && gotArgs, r;
      }
      var good;
      good, pos, r, gotOp, gotArgs := RequestMemberAt(s, pos, r, gotOp, gotArgs);
      if !good {
        return;
      }
      if pos < |s| && s[pos] == ',' {
        assert s[pos..][1..] == s[pos + 1..];
        pos := pos + 1;
        continue;
      }
      if pos < |s| && s[pos] == '}' {
        return gotOp && gotArgs, r;
      }
      return;
    }
    assert s[pos..] == "";
    FieldsEnd(Req, RequestFields(r, gotOp, gotArgs));
    return gotOp && gotArgs, r;
  }

  function ResponseFields(r: Response, gotOk: bool, gotLines: bool, gotError: bool): Fields {
    Fields(r.ok, r.lines, r.error, gotOk, gotLines, gotError)
  }

  /** One member of a response. The decoder keeps no track of lines and error having been there, so
      gotLines and gotError are ghost. */
  method ResponseMemberAt(s: string, pos: nat, r: Response, gotOk: bool, ghost gotLines: bool, ghost gotError: bool)
      returns (ok: bool, pos': nat, r': Response, gotOk': bool, ghost gotLines': bool, ghost gotError': bool)
    requires pos <= |s|
    ensures ok == ParseMember(Resp, s[pos..], ResponseFields(r, gotOk, gotLines, gotError)).Done?
    ensures ok ==>
      && pos < pos' <= |s|
      && ParseMember(Resp, s[pos..], ResponseFields(r, gotOk, gotLines, gotError))
         == Done(ResponseFields(r', gotOk', gotLines', gotError'), s[pos'..])
  {
    hide ParseString, ParseArray, SkipWs, ParseWord;
    r', gotOk', gotLines', gotError' := r, gotOk, gotLines, gotError;
    var good, p, key := KeyAt(s, pos);
    if !good {
      ok, pos' := false, pos;
      return;
    }
    if key == "ok" {
      var w;
      ok, pos', w := WordAt(s, p, false);
      r', gotOk' := r.(ok := w == "true"), true;
    } else if key == "lines" {
      var lines;
      ok, pos', lines := ParseArrayAt(s, p);
      r', gotLines' := r.(lines := lines), true;
    } else if key == "error" {
      var error;
      ok, pos', error := ParseStringAt(s, p);
      r', gotError' := r.(error := error), true;
    } else {
      ok, pos' := SkipValueAt(s, p, true);
    }
    if ok {
      pos' := SkipAt(s, pos');
    }
  }

  /** decode_response */
  method DecodeResponse(sIn: string) returns (ok: bool, r: Response)
    ensures DecodedResponse(sIn) == if ok then Some(r) else None
  {
    hide ParseFields, ParseMember, SkipWs, Stripped;
    ok, r := false, Response(false, [], "");
    var s := StripAt(sIn);
    var pos := SkipAt(s, 0);
    assert s[0..] == s;
    if pos >= |s| || s[pos] != '{' {
      return;
    }
    assert s[pos..][1..] == s[pos + 1..];
    pos := pos + 1;
    var gotOk := false;
    ghost var gotLines, gotError := false, false;
    while pos < |s|
      invariant pos <= |s|
      invariant ParseObject(Resp, s) == ParseFields(Resp, s[pos..], ResponseFields(r, gotOk, gotLines, gotError))
      decreases |s| - pos
    {
      FieldsStep(Resp, s, pos, ResponseFields(r, gotOk, gotLines, gotError));
      var at := SkipAt(s, pos);
      if at < |s| && s[at] == '}' {
        return gotOk, r;
      }
      var good;
      good, pos, r, gotOk, gotLines, gotError := ResponseMemberAt(s, pos, r, gotOk, gotLines, gotError);
      if !good {
        return;
      }
      if pos < |s| && s[pos] == ',' {
        assert s[pos..][1..] == s[pos + 1..];
        pos := pos + 1;
        continue;
      }
      if pos < |s| && s[pos] == '}' {
        return gotOk, r;
      }
      return;
    }
    assert s[pos..] == "";
    FieldsEnd(Resp, ResponseFields(r, gotOk, gotLines, gotError));
    return gotOk, r;
  }

  lemma FieldsEnd(k: Kind, f: Fields)
    ensures ParseFields(k, "", f) == Some(f)
  {
  }
}
