/** The monitor's side of a control connection: whatever pieces the bytes arrive in, they are cut into
    lines, each line is answered in order, and the rest is kept for the next read. The operations
    behind the protocol are a parameter. */
module ControlServer {
  import opened Common
  import opened ControlCodec
  import opened ControlMessages

  const LIMIT: nat := 0x10_0000
  const READ_SIZE: nat := 4096

  // ---------------------------------------------------------------- lines

  /** The place of the first line end, or the length. */
  function Eol(s: string): (i: nat)
    ensures i <= |s| && (i < |s| ==> s[i] == '\n') && forall k | 0 <= k < i :: s[k] != '\n'
  {
    if s == "" || s[0] == '\n' then 0
    else
      var i := Eol(s[1..]);
      assert forall k | 1 <= k < 1 + i :: s[k] == s[1..][k - 1];
      1 + i
  }

  function Lines(s: string): seq<string>
    decreases |s|
  {
    var i := Eol(s);
    if i == |s| then [] else [s[..i]] + Lines(s[i + 1..])
  }

  /** What is left behind the last line end. */
  function Tail(s: string): (t: string)
    ensures |t| <= |s| && Eol(t) == |t|
    decreases |s|
  {
    var i := Eol(s);
    if i == |s| then s else Tail(s[i + 1..])
  }

  lemma EolOf(s: string, i: nat)
    requires i < |s| && s[i] == '\n' && forall k | 0 <= k < i :: s[k] != '\n'
    ensures Eol(s) == i
  {
  }

  /** Cutting can be done in pieces. */
  lemma {:induction false} CutInPieces(a: string, b: string)
    ensures Lines(a + b) == Lines(a) + Lines(Tail(a) + b)
    ensures Tail(a + b) == Tail(Tail(a) + b)
    decreases |a|
  {
    hide Eol, Lines, Tail;
    var i := Eol(a);
    CutOnce(a);
    if i == |a| {
      assert [] + Lines(a + b) == Lines(a + b);
    } else {
      var rest := a[i + 1..];
      CutInPieces(rest, b);
      EolOf(a + b, i);
      CutOnce(a + b);
      assert (a + b)[..i] == a[..i] && (a + b)[i + 1..] == rest + b;
    }
  }

  // ---------------------------------------------------------------- answers

  datatype Outcome<S> = Outcome(state: S, response: Response)
  datatype Served<S> = Served(state: S, out: string)

  function Answer<S>(dispatch: (S, Request) -> Outcome<S>, st: S, line: string): Outcome<S> {
    var r := DecodedRequest(line);
    if r.None? then Outcome(st, Response(false, [], "malformed request")) else dispatch(st, r.value)
  }

  /** The lines answered one after the other. */
  function AnswerAll<S>(dispatch: (S, Request) -> Outcome<S>, st: S, lines: seq<string>): Served<S> {
    if lines == [] then Served(st, "")
    else
      var o := Answer(dispatch, st, lines[0]);
      var more := AnswerAll(dispatch, o.state, lines[1..]);
      Served(more.state, ResponseLine(o.response) + "\n" + more.out)
  }

  lemma {:induction false} AnswersInPieces<S>(dispatch: (S, Request) -> Outcome<S>, st: S, a: seq<string>, b: seq<string>)
    ensures var first := AnswerAll(dispatch, st, a);
      var second := AnswerAll(dispatch, first.state, b);
      AnswerAll(dispatch, st, a + b) == Served(second.state, first.out + second.out)
    decreases |a|
  {
    hide Answer, ResponseLine;
    if a == [] {
      assert a + b == b;
    } else {
      var o := Answer(dispatch, st, a[0]);
      AnswersInPieces(dispatch, o.state, a[1..], b);
      assert (a + b)[0] == a[0] && (a + b)[1..] == a[1..] + b;
      var x, y := ResponseLine(o.response) + "\n", AnswerAll(dispatch, o.state, a[1..]);
      var z := AnswerAll(dispatch, y.state, b);
      assert x + (y.out + z.out) == (x + y.out) + z.out;
    }
  }

  // ---------------------------------------------------------------- the connection

  class Connection {
    var buf: string

    constructor ()
      ensures buf == ""
    {
      buf := "";
    }

    /** What drain_ctl_conn does with the bytes of one read. */
    method Feed<S>(chunk: string, st: S, dispatch: (S, Request) -> Outcome<S>) returns (alive: bool, st': S, out: string)
      modifies this
      ensures Link(buf, st', out, alive) == Fed(dispatch, Link(old(buf), st, "", true), chunk)
    {
      hide Lines, Tail, Answer, ResponseLine, DecodedRequest;
      st', out := st, "";
      buf := buf + chunk;
      ghost var all := buf;
      if |buf| > LIMIT {
        return false, st', out;
      }
      ghost var done: seq<string> := [];
      while true
        invariant Lines(all) == done + Lines(buf) && Tail(all) == Tail(buf)
        invariant AnswerAll(dispatch, st, done) == Served(st', out)
        decreases |buf|
      {
        var eol := FindEol(buf);
        CutOnce(buf);
        if eol == |buf| {
          break;
        }
        var line := buf[..eol];
        buf := buf[eol + 1..];
        var ok, req := DecodeRequest(line);
        var o := if ok then dispatch(st', req) else Outcome(st', Response(false, [], "malformed request"));
        assert o == Answer(dispatch, st', line) by { AnswerIs(dispatch, st', line); }
        AnswersInPieces(dispatch, st, done, [line]);
        AnswerOne(dispatch, st', line);
        var text := EncodeResponse(o.response);
        st', out := o.state, out + text;
        done := done + [line];
      }
      assert done + [] == done;
      return true, st', out;
    }
  }

  method FindEol(s: string) returns (i: nat)
    ensures i == Eol(s)
  {
    i := 0;
    while i < |s| && s[i] != '\n'
      invariant i <= |s| && forall k | 0 <= k < i :: s[k] != '\n'
    {
      i := i + 1;
    }
  }

  lemma CutOnce(s: string)
    ensures Eol(s) == |s| ==> Lines(s) == [] && Tail(s) == s
    ensures Eol(s) < |s| ==> Lines(s) == [s[..Eol(s)]] + Lines(s[Eol(s) + 1..]) && Tail(s) == Tail(s[Eol(s) + 1..])
  {
    hide Eol;
  }

  lemma AnswerIs<S>(dispatch: (S, Request) -> Outcome<S>, st: S, line: string)
    ensures var r := DecodedRequest(line);
      Answer(dispatch, st, line) ==
        if r.None? then Outcome(st, Response(false, [], "malformed request")) else dispatch(st, r.value)
  {
  }

  lemma AnswerOne<S>(dispatch: (S, Request) -> Outcome<S>, st: S, line: string)
    ensures var o := Answer(dispatch, st, line);
      AnswerAll(dispatch, st, [line]) == Served(o.state, ResponseLine(o.response) + "\n")
  {
    hide Answer, ResponseLine;
    var o := Answer(dispatch, st, line);
    assert AnswerAll(dispatch, o.state, []) == Served(o.state, "");
    assert [line][1..] == [];
  }

  // ---------------------------------------------------------------- runs

  /** A connection with the state behind it and everything written so far. */
  datatype Link<S> = Link(buf: string, state: S, out: string, alive: bool)

  /** One read's worth of bytes. */
  function Fed<S>(dispatch: (S, Request) -> Outcome<S>, l: Link<S>, chunk: string): Link<S> {
    var all := l.buf + chunk;
    if !l.alive then l
    else if |all| > LIMIT then l.(buf := all, alive := false)
    else
      var served := AnswerAll(dispatch, l.state, Lines(all));
      Link(Tail(all), served.state, l.out + served.out, true)
  }

  function FedAll<S>(dispatch: (S, Request) -> Outcome<S>, l: Link<S>, chunks: seq<string>): Link<S>
    decreases |chunks|
  {
    if chunks == [] then l else FedAll(dispatch, Fed(dispatch, l, chunks[0]), chunks[1..])
  }

  function Concat(chunks: seq<string>): string {
    if chunks == [] then "" else chunks[0] + Concat(chunks[1..])
  }

  /** The same bytes in one piece, without the limit. */
  function Whole<S>(dispatch: (S, Request) -> Outcome<S>, l: Link<S>, bytes: string): Link<S> {
    var served := AnswerAll(dispatch, l.state, Lines(l.buf + bytes));
    Link(Tail(l.buf + bytes), served.state, l.out + served.out, true)
  }

  lemma {:induction false} DeadStaysDead<S>(dispatch: (S, Request) -> Outcome<S>, l: Link<S>, chunks: seq<string>)
    requires !l.alive
    ensures FedAll(dispatch, l, chunks) == l
    decreases |chunks|
  {
    if chunks != [] {
      DeadStaysDead(dispatch, l, chunks[1..]);
    }
  }

  lemma WholeInPieces<S>(dispatch: (S, Request) -> Outcome<S>, l: Link<S>, a: string, b: string)
    ensures Whole(dispatch, Whole(dispatch, l, a), b) == Whole(dispatch, l, a + b)
  {
    hide Lines, Tail, AnswerAll;
    var one := AnswerAll(dispatch, l.state, Lines(l.buf + a));
    CutInPieces(l.buf + a, b);
    assert l.buf + (a + b) == (l.buf + a) + b;
    AnswersInPieces(dispatch, l.state, Lines(l.buf + a), Lines(Tail(l.buf + a) + b));
    var two := AnswerAll(dispatch, one.state, Lines(Tail(l.buf + a) + b));
    assert l.out + (one.out + two.out) == (l.out + one.out) + two.out;
  }

  /** However the bytes are cut into reads, a connection that survives has answered, in order, exactly
      the lines in them, and keeps exactly what follows the last one. */
  lemma {:induction false} ReadsDoNotMatter<S>(dispatch: (S, Request) -> Outcome<S>, l: Link<S>, chunks: seq<string>)
    requires FedAll(dispatch, l, chunks).alive && l.alive && Eol(l.buf) == |l.buf|
    ensures FedAll(dispatch, l, chunks) == Whole(dispatch, l, Concat(chunks))
    decreases |chunks|
  {
    hide Lines, Tail, Answer;
    if chunks == [] {
      assert l.buf + "" == l.buf && l.out + "" == l.out;
      CutOnce(l.buf);
    } else {
      var l1 := Fed(dispatch, l, chunks[0]);
      if !l1.alive {
        DeadStaysDead(dispatch, l1, chunks[1..]);
      }
      assert l1 == Whole(dispatch, l, chunks[0]);
      ReadsDoNotMatter(dispatch, l1, chunks[1..]);
      WholeInPieces(dispatch, l, chunks[0], Concat(chunks[1..]));
    }
  }

  // ---------------------------------------------------------------- the limit

  /** No line, nor the unfinished one at the end, is longer than n. */
  ghost predicate LinesWithin(s: string, n: nat) {
    (forall i | 0 <= i < |Lines(s)| :: |Lines(s)[i]| <= n) && |Tail(s)| <= n
  }

  /** The reads of a stream: none longer than the buffer they are made with. */
  predicate Reads(chunks: seq<string>) {
    forall i | 0 <= i < |chunks| :: |chunks[i]| <= READ_SIZE
  }

  /** What is kept between reads is never longer than some line of the stream. */
  lemma {:induction false} KeptIsShort(a: string, b: string, n: nat)
    requires LinesWithin(a + b, n)
    ensures |Tail(a)| <= n
  {
    hide Lines, Tail, Eol;
    CutInPieces(a, b);
    var t := Tail(a);
    CutOnce(t + b);
    var i := Eol(t + b);
    assert forall k | 0 <= k < |t| :: (t + b)[k] == t[k] != '\n';
    if i < |t + b| {
      assert Lines(a + b)[|Lines(a)|] == (t + b)[..i];
    }
  }

  /** A stream whose lines leave room for one read is never cut off. */
  lemma {:induction false} NeverCutOff<S>(dispatch: (S, Request) -> Outcome<S>, l: Link<S>, before: string, chunks: seq<string>)
    requires l.alive && l.buf == Tail(before) && Reads(chunks)
    requires LinesWithin(before + Concat(chunks), LIMIT - READ_SIZE)
    ensures FedAll(dispatch, l, chunks).alive
    decreases |chunks|
  {
    hide Lines, Tail, Eol, AnswerAll;
    if chunks != [] {
      var c, rest := chunks[0], chunks[1..];
      KeptIsShort(before, Concat(chunks), LIMIT - READ_SIZE);
      CutInPieces(before, c);
      assert before + Concat(chunks) == (before + c) + Concat(rest);
      NeverCutOff(dispatch, Fed(dispatch, l, c), before + c, rest);
    }
  }

  // ---------------------------------------------------------------- requests through the wire

  function Encoded(rs: seq<Request>): string {
    if rs == [] then "" else RequestLine(rs[0]) + "\n" + Encoded(rs[1..])
  }

  function RequestLines(rs: seq<Request>): (ls: seq<string>)
    ensures |ls| == |rs| && forall i | 0 <= i < |rs| :: ls[i] == RequestLine(rs[i])
  {
    seq(|rs|, i requires 0 <= i < |rs| => RequestLine(rs[i]))
  }

  /** The lines of encoded requests are these requests. */
  lemma {:induction false} EncodedLines(rs: seq<Request>)
    ensures Lines(Encoded(rs)) == RequestLines(rs) && Tail(Encoded(rs)) == ""
    decreases |rs|
  {
    hide RequestLine, Lines, Tail;
    CutOnce("");
    if rs != [] {
      var line, more := RequestLine(rs[0]), Encoded(rs[1..]);
      OneLine(rs[0], Response(false, [], ""));
      var all := Encoded(rs);
      assert all[|line|] == '\n' && all[..|line|] == line && all[|line| + 1..] == more;
      forall k | 0 <= k < |line|
        ensures all[k] != '\n'
      {
        assert all[k] == line[k] && line[k] in line;
      }
      EolOf(all, |line|);
      CutOnce(all);
      EncodedLines(rs[1..]);
      assert RequestLines(rs) == [line] + RequestLines(rs[1..]);
    }
  }

  /** Requests performed one after the other. */
  function Perform<S>(dispatch: (S, Request) -> Outcome<S>, st: S, rs: seq<Request>): Served<S> {
    if rs == [] then Served(st, "")
    else
      var o := dispatch(st, rs[0]);
      var more := Perform(dispatch, o.state, rs[1..]);
      Served(more.state, ResponseLine(o.response) + "\n" + more.out)
  }

  lemma {:induction false} LinesPerform<S>(dispatch: (S, Request) -> Outcome<S>, st: S, rs: seq<Request>)
    ensures AnswerAll(dispatch, st, RequestLines(rs)) == Perform(dispatch, st, rs)
    decreases |rs|
  {
    hide RequestLine, ResponseLine, DecodedRequest;
    if rs != [] {
      RequestRoundTrip(rs[0]);
      assert RequestLines(rs)[1..] == RequestLines(rs[1..]);
      LinesPerform(dispatch, dispatch(st, rs[0]).state, rs[1..]);
    }
  }

  /** End to end: requests a client encodes, arriving in reads of any size, are performed in order,
      each answered by one line, and nothing is left over. */
  lemma RequestsArePerformed<S>(dispatch: (S, Request) -> Outcome<S>, st: S, rs: seq<Request>, chunks: seq<string>)
    requires Reads(chunks) && Concat(chunks) == Encoded(rs)
    requires forall i | 0 <= i < |rs| :: |RequestLine(rs[i])| <= LIMIT - READ_SIZE
    ensures var done := Perform(dispatch, st, rs);
      FedAll(dispatch, Link("", st, "", true), chunks) == Link("", done.state, done.out, true)
  {
    hide Lines, Tail, Eol, AnswerAll, RequestLine, FedAll, Perform;
    var l := Link("", st, "", true);
    EncodedLines(rs);
    CutOnce("");
    assert "" + Concat(chunks) == Encoded(rs);
    NeverCutOff(dispatch, l, "", chunks);
    ReadsDoNotMatter(dispatch, l, chunks);
    LinesPerform(dispatch, st, rs);
    var done := Perform(dispatch, st, rs);
    assert "" + done.out == done.out;
  }
}
