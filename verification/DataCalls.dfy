/** What shm_send and shm_recv report, call by call, in every run of the system in DataPlane, and that a
    call comes to its end by its own steps whenever it can. */
module DataCalls {
  import opened Common
  import opened Modular
  import opened DataPlane
  import R = RingProtocol

  // ---------------------------------------------------------------- sends

  /** The send in progress, if there is one. */
  function Sending(p: Producer): Option<SendCall> {
    match p
    case PLoop(call) => Some(call)
    case PCopying(call) => Some(call)
    case PBump(PLoop(call)) => Some(call)
    case PWake(PLoop(call)) => Some(call)
    case _ => None
  }

  /** The same call, later: what it has put out is what it has counted. */
  predicate SameCall(a: SendCall, b: SendCall) {
    b.buf == a.buf && b.start == a.start && b.nonblock == a.nonblock && b.total >= a.total
  }

  lemma InvOf(s0: State, es: seq<Event>)
    requires Init(s0) && Legal(s0, es)
    ensures Inv(After(s0, es))
  {
    hide Inv, Legal, After;
    InitInv(s0);
    RunKeeps(s0, es);
  }

  lemma CallCounts(s: State)
    requires Inv(s) && Sending(s.producer).Some?
    ensures var call := Sending(s.producer).value;
      && call.total <= |call.buf| && call.start + call.total == |s.ring.published|
      && s.ring.published[call.start..] == call.buf[..call.total]
  {
    hide R.Inv, R.Indices, ClosedOk, LogSound, LogComplete, ConsumerOk, WakeDue, SentOk, Paced, NoTurn;
  }

  /** A load that finds the ring full, or finds room. */
  lemma SendLoadEnds(s: State, v: nat)
    requires Inv(s) && PEnabled(s, SendLoad(v))
    ensures var call, s' := s.producer.call, PNext(s, SendLoad(v));
      if R.Room(s.ring, v) > 0 then s'.producer == PCopying(call)
      else if call.nonblock then s'.producer.PIdle? && s'.sent == Sent(call.buf, call.start, call.total)
      else s'.producer == s.producer
    ensures R.Room(s.ring, v) >= 0 && PNext(s, SendLoad(v)).ring.published == s.ring.published
  {
    hide Place, ClosedOk, LogSound, LogComplete, ConsumerOk, WakeDue, SentOk, Paced, NoTurn;
    R.FreeIsExact(s.ring, v);
  }

  lemma PublishCounts(s: State)
    requires Inv(s) && PEnabled(s, SendPublish)
    ensures var call, s' := s.producer.call, PNext(s, SendPublish);
      && |s.ring.sender.buf| > 0 && s'.ring.published == s.ring.published + s.ring.sender.buf
      && s'.producer == PBump(PLoop(call.(total := call.total + |s.ring.sender.buf|)))
  {
    hide Place, R.Inv, R.Indices, ClosedOk, LogSound, LogComplete, ConsumerOk, WakeDue, SentOk, Paced, NoTurn;
  }

  /** In every run, a send that is under way goes on, with every byte that it puts out counted, until it
      returns or its process crashes. It returns with its whole buffer sent, or, if it is not to block,
      when it finds the ring full; and it reports all that it has sent. */
  lemma SendEndsExactly(s0: State, es: seq<Event>, e: PEvent)
    requires Init(s0) && Legal(s0, es) && PEnabled(After(s0, es), e) && Sending(After(s0, es).producer).Some?
    ensures var s := After(s0, es); var s', call := PNext(s, e), Sending(s.producer).value;
      && (Sending(s'.producer).None? <==>
            || e.Crash? || (s.producer.PLoop? && call.total == |call.buf|)
            || (e.SendLoad? && call.nonblock && R.Room(s.ring, e.v) == 0))
      && (Sending(s'.producer).Some? ==>
            SameCall(call, Sending(s'.producer).value) && s'.sent == s.sent)
      && (Sending(s'.producer).None? && !e.Crash? ==>
            && s'.producer.PIdle? && s'.sent == Sent(call.buf, call.start, call.total)
            && call.start + call.total == |s'.ring.published|
            && (call.total < |call.buf| ==> call.nonblock && e.SendLoad? && R.Room(s.ring, e.v) == 0))
  {
    hide Legal, After, Inv, R.Next, R.Enabled;
    InvOf(s0, es);
    var s := After(s0, es);
    CallCounts(s);
    if e.SendLoad? {
      SendLoadEnds(s, e.v);
    } else if e.SendPublish? {
      PublishCounts(s);
    }
  }

  /** The consumer and the watchdog touch neither the send nor its report. */
  lemma ConsumerSendsNothing(s: State, e: CEvent)
    requires CEnabled(s, e)
    ensures CNext(s, e).sent == s.sent && CNext(s, e).producer == s.producer
  {
    hide CNext, CEnabled;
    if Early(e) || e.LoadTail? || e.RecvRelease? { EarlySendsNothing(s, e); } else { ParkingSendsNothing(s, e); }
  }

  lemma EarlySendsNothing(s: State, e: CEvent)
    requires CEnabled(s, e) && (Early(e) || e.LoadTail? || e.RecvRelease?)
    ensures CNext(s, e).sent == s.sent && CNext(s, e).producer == s.producer
  {
    hide R.Next, R.Enabled, R.Avail, CanObserve, CloseView, Gone;
  }

  lemma ParkingSendsNothing(s: State, e: CEvent)
    requires CEnabled(s, e) && !Early(e) && !e.LoadTail? && !e.RecvRelease?
    ensures CNext(s, e).sent == s.sent && CNext(s, e).producer == s.producer
  {
    hide R.Next, R.Enabled, R.Avail, CanObserve, CloseView, Visible, TailAt, ClosedAt, Wrap32;
  }

  lemma WatchdogTouchesNeither(s: State, e: WEvent)
    requires WEnabled(s, e)
    ensures var s' := WNext(s, e);
      && s'.sent == s.sent && s'.producer == s.producer
      && s'.answer == s.answer && s'.eof == s.eof && s'.ring.received == s.ring.received
      && s'.ring.published == s.ring.published
  {
  }

  lemma OthersSendNothing(s: State, e: Event)
    requires Enabled(s, e) && !e.P?
    ensures Next(s, e).sent == s.sent && Next(s, e).producer == s.producer
  {
    hide CNext, CEnabled, WNext, WEnabled;
    match e
    case C(c) => ConsumerSendsNothing(s, c);
    case W(w) => WatchdogTouchesNeither(s, w);
  }

  /** Event i of the run began the send that is under way, and no other began since. */
  ghost predicate BeganAt(s0: State, es: seq<Event>, call: SendCall, i: nat)
    requires Legal(s0, es)
  {
    && i < |es| && es[i] == P(Send(call.buf, call.nonblock))
    && (forall j | i < j < |es| :: es[j].P? ==> !es[j].p.Send?)
    && Legal(s0, es[..i]) && |After(s0, es[..i]).ring.published| == call.start
  }

  lemma {:induction false} Prefix(s0: State, es: seq<Event>, n: nat)
    requires Legal(s0, es) && n <= |es|
    ensures Legal(s0, es[..n]) && Legal(After(s0, es[..n]), es[n..])
    ensures After(After(s0, es[..n]), es[n..]) == After(s0, es)
    decreases n
  {
    hide Next, Enabled;
    if n == 0 {
      assert es[..0] == [] && es[0..] == es;
    } else {
      Prefix(Next(s0, es[0]), es[1..], n - 1);
      assert es[..n][1..] == es[1..][..n - 1] && es[n..] == es[1..][n - 1..];
    }
  }

  lemma LastStep(s0: State, es: seq<Event>)
    requires Legal(s0, es) && es != []
    ensures var n := |es| - 1;
      && Legal(s0, es[..n]) && Enabled(After(s0, es[..n]), es[n]) && After(s0, es) == Next(After(s0, es[..n]), es[n])
  {
    hide Next, Enabled;
    var n := |es| - 1;
    Prefix(s0, es, n);
    assert es[n..] == [es[n]] && [es[n]][1..] == [];
  }

  lemma BeganMore(s0: State, es: seq<Event>, call: SendCall, i: nat)
    requires Legal(s0, es) && es != [] && Legal(s0, es[..|es| - 1]) && BeganAt(s0, es[..|es| - 1], call, i)
    requires es[|es| - 1].P? ==> !es[|es| - 1].p.Send?
    ensures BeganAt(s0, es, call, i)
  {
    hide Legal, After;
    var es' := es[..|es| - 1];
    assert es'[..i] == es[..i];
    assert forall j | 0 <= j < |es'| :: es'[j] == es[j];
  }

  /** Every send that is under way was begun by a call that found the stream at its start. */
  lemma {:induction false} SendBegan(s0: State, es: seq<Event>) returns (i: nat)
    requires Init(s0) && Legal(s0, es) && Sending(After(s0, es).producer).Some?
    ensures BeganAt(s0, es, Sending(After(s0, es).producer).value, i)
    decreases |es|
  {
    hide Next, Enabled, BeganAt, Legal, After, Init;
    NotAtStart(s0, es);
    LastStep(s0, es);
    var n := |es| - 1;
    var s, e := After(s0, es[..n]), es[n];
    if e.P? && e.p.Send? {
      i := n;
      BeginsHere(s0, es);
    } else {
      SendOnly(s0, es);
      i := SendBegan(s0, es[..n]);
      assert Sending(s.producer).value.buf == Sending(After(s0, es).producer).value.buf;
      BeganMore(s0, es, Sending(s.producer).value, i);
      SameBegin(s0, es, Sending(s.producer).value, Sending(After(s0, es).producer).value, i);
    }
  }

  lemma NotAtStart(s0: State, es: seq<Event>)
    requires Init(s0) && Legal(s0, es) && Sending(After(s0, es).producer).Some?
    ensures es != []
  {
  }

  lemma BeginsHere(s0: State, es: seq<Event>)
    requires Legal(s0, es) && es != [] && es[|es| - 1].P? && es[|es| - 1].p.Send?
    requires Sending(After(s0, es).producer).Some?
    ensures BeganAt(s0, es, Sending(After(s0, es).producer).value, |es| - 1)
  {
    hide Legal, After;
    LastStep(s0, es);
  }

  /** A send under way after a step that began none was under way before. */
  lemma SendOnly(s0: State, es: seq<Event>)
    requires Init(s0) && Legal(s0, es) && es != [] && Sending(After(s0, es).producer).Some?
    requires es[|es| - 1].P? ==> !es[|es| - 1].p.Send?
    ensures Legal(s0, es[..|es| - 1])
    ensures var s := After(s0, es[..|es| - 1]);
      Sending(s.producer).Some? && SameCall(Sending(s.producer).value, Sending(After(s0, es).producer).value)
  {
    hide Legal, After, Next, Inv, Init, PNext, PEnabled;
    LastStep(s0, es);
    var n := |es| - 1;
    var s, e := After(s0, es[..n]), es[n];
    if !e.P? {
      OthersSendNothing(s, e);
    } else {
      NextOfP(s, e.p);
      InvOf(s0, es[..n]);
      OnlySendBegins(s, e.p);
      SendEndsExactly(s0, es[..n], e.p);
    }
  }

  lemma NextOfP(s: State, e: PEvent)
    requires Enabled(s, P(e))
    ensures PEnabled(s, e) && Next(s, P(e)) == PNext(s, e)
  {
    hide PNext;
  }

  lemma OnlySendBegins(s: State, e: PEvent)
    requires Inv(s) && PEnabled(s, e) && !e.Send? && Sending(PNext(s, e).producer).Some?
    ensures Sending(s.producer).Some?
  {
    hide R.Next, R.Enabled, R.Inv, R.Indices, ClosedOk, LogSound, LogComplete, ConsumerOk, WakeDue, SentOk, Paced, NoTurn;
  }

  lemma SameBegin(s0: State, es: seq<Event>, a: SendCall, b: SendCall, i: nat)
    requires Legal(s0, es) && BeganAt(s0, es, a, i) && SameCall(a, b)
    ensures BeganAt(s0, es, b, i)
  {
    hide Legal, After;
  }

  /** What a send reports is what it did. In every run, at the step that ends a send: the report is about
      the buffer of the call that began it, which found `start` bytes published; all that was published
      since is its own, the first k bytes of that buffer; a blocking send has sent the whole of it, and
      one that is not to block is short only if it has just found the ring full. */
  lemma SendReportsWhatItSent(s0: State, es: seq<Event>, e: PEvent) returns (i: nat)
    requires Init(s0) && Legal(s0, es) && PEnabled(After(s0, es), e) && !e.Crash?
    requires var s := After(s0, es); Sending(s.producer).Some? && Sending(PNext(s, e).producer).None?
    ensures i < |es| && es[i].P? && es[i].p.Send? && Legal(s0, es[..i])
    ensures forall j | i < j < |es| :: es[j].P? ==> !es[j].p.Send?
    ensures var s := After(s0, es); var s' := PNext(s, e); var r := s'.sent;
      && r.Sent? && r.buf == es[i].p.buf && r.start == |After(s0, es[..i]).ring.published|
      && r.k <= |r.buf| && r.start + r.k == |s'.ring.published|
      && s'.ring.published[r.start..] == r.buf[..r.k]
      && (r.k < |r.buf| ==> es[i].p.nonblock && e.SendLoad? && R.Room(s.ring, e.v) == 0)
  {
    hide Legal, After, Inv, Init, PNext, PEnabled, R.Room;
    var s := After(s0, es);
    InvOf(s0, es);
    CallCounts(s);
    SendEndsExactly(s0, es, e);
    EndPublishesNothing(s, e);
    i := SendBegan(s0, es);
  }

  lemma EndPublishesNothing(s: State, e: PEvent)
    requires Inv(s) && PEnabled(s, e) && Sending(s.producer).Some? && Sending(PNext(s, e).producer).None?
    ensures PNext(s, e).ring.published == s.ring.published
  {
    hide R.Next, R.Enabled, R.Inv, R.Indices, ClosedOk, LogSound, LogComplete, ConsumerOk, WakeDue, SentOk, Paced, NoTurn;
    if e.SendLoad? {
      SendLoadEnds(s, e.v);
    }
  }

  /** The send comes to an end, or goes on, by its own steps: from the top of its loop, reading the head
      in memory, it puts out what fits, counts it, and is back at the top. */
  lemma SendGoesOn(s: State) returns (es: seq<Event>)
    requires Inv(s) && s.producer.PLoop? && s.producer.call.total < |s.producer.call.buf|
    ensures Legal(s, es) && forall e | e in es :: e.P?
    ensures var t, call := After(s, es), s.producer.call;
      var n := Min(|call.buf| - call.total, R.Room(s.ring, |s.ring.received|));
      && R.Room(s.ring, |s.ring.received|) >= 0
      && (n > 0 ==>
            && t.producer == PLoop(call.(total := call.total + n)) && |t.log| == |s.log| + 1
            && t.ring.published == s.ring.published + call.buf[call.total..call.total + n])
      && (n == 0 ==> t.ring.published == s.ring.published)
      && (n == 0 && call.nonblock ==> t.producer.PIdle? && t.sent == Sent(call.buf, call.start, call.total))
      && (n == 0 && !call.nonblock ==> t.producer == s.producer)
  {
    hide Legal, After, Inv, R.Inv, Place, R.Free, R.Room, R.Next, R.Enabled, CNext, CEnabled, WNext, WEnabled;
    var v := |s.ring.received|;
    LoadsAllowed(s);
    NoSteps(s);
    OneMore(s, [], s, P(SendLoad(v)));
    StepKeeps(s, P(SendLoad(v)));
    es := [] + [P(SendLoad(v))];
    var t := Next(s, P(SendLoad(v)));
    LoadedBuf(s, v);
    if !t.producer.PCopying? {
      return;
    }
    es, t := CopyAll(s, es, t);
    es, t := PutOut(s, es, t);
  }

  /** The store, the increment and the wake behind the copies. */
  lemma PutOut(s: State, es: seq<Event>, t: State) returns (es': seq<Event>, t': State)
    requires Legal(s, es) && After(s, es) == t && Inv(t) && PEnabled(t, SendPublish) && forall e | e in es :: e.P?
    ensures Legal(s, es') && After(s, es') == t' && forall e | e in es' :: e.P?
    ensures var call, buf := t.producer.call, t.ring.sender.buf;
      && t'.producer == PLoop(call.(total := call.total + |buf|)) && |t'.log| == |t.log| + 1
      && t'.ring.published == t.ring.published + buf
  {
    hide Legal, After, Inv, R.Inv, R.Next, R.Enabled, Wrap32, CNext, CEnabled, WNext, WEnabled;
    OneMore(s, es, t, P(SendPublish));
    PublishCounts(t);
    es', t' := es + [P(SendPublish)], Next(t, P(SendPublish));
    OneMore(s, es', t', P(Bump));
    es', t' := es' + [P(Bump)], Next(t', P(Bump));
    OneMore(s, es', t', P(Wake));
    es', t' := es' + [P(Wake)], Next(t', P(Wake));
  }

  /** A whole send into a ring with room for it: it puts out its buffer, reports it all, and returns. */
  lemma SendGoesThrough(s: State, buf: seq<Byte>, nonblock: bool) returns (es: seq<Event>)
    requires Inv(s) && s.producer.PIdle? && 0 < |buf| <= R.Room(s.ring, |s.ring.received|)
    ensures Legal(s, es) && forall e | e in es :: e.P?
    ensures var t := After(s, es);
      && t.producer.PIdle? && t.ring.published == s.ring.published + buf
      && t.sent == Sent(buf, |s.ring.published|, |buf|)
  {
    hide Legal, After, Inv, R.Inv, Place, R.Free, R.Room;
    var call := SendCall(buf, 0, |s.ring.published|, nonblock);
    var first := P(Send(buf, nonblock));
    NoSteps(s);
    OneMore(s, [], s, first);
    StepKeeps(s, first);
    var t := Next(s, first);
    var more := SendGoesOn(t);
    Begins(s, first, more);
    es := [first] + more;
    t := After(t, more);
    assert buf[0..|buf|] == buf;
    OneMore(s, es, t, P(SendReturn));
    es := es + [P(SendReturn)];
  }

  lemma LoadsAllowed(s: State)
    requires Inv(s) && s.producer.PLoop? && s.producer.call.total < |s.producer.call.buf|
    ensures PEnabled(s, SendLoad(|s.ring.received|))
  {
  }

  lemma LoadedBuf(s: State, v: nat)
    requires Inv(s) && PEnabled(s, SendLoad(v))
    ensures var s', call, room := PNext(s, SendLoad(v)), s.producer.call, R.Room(s.ring, v);
      && room >= 0 && s'.ring.published == s.ring.published && s'.log == s.log
      && (room > 0 ==>
            && s'.producer == PCopying(call) && s'.ring.sender.SCopying?
            && s'.ring.sender.buf == call.buf[call.total..call.total + Min(|call.buf| - call.total, room)])
      && (room == 0 ==>
            if call.nonblock then s'.producer.PIdle? && s'.sent == Sent(call.buf, call.start, call.total)
            else s'.producer == s.producer)
  {
    hide Place, ClosedOk, LogSound, LogComplete, ConsumerOk, WakeDue, SentOk, Paced, NoTurn;
    R.FreeIsExact(s.ring, v);
    SendLoadEnds(s, v);
    var call, n := s.producer.call, Min(|s.producer.call.buf| - s.producer.call.total, R.Room(s.ring, v));
    assert call.buf[call.total..][..n] == call.buf[call.total..call.total + n];
  }

  lemma CopyOne(t: State, i: nat)
    requires Inv(t) && t.producer.PCopying? && t.ring.sender.SCopying? && i < |t.ring.sender.buf|
    ensures Enabled(t, P(SendByte(i))) && Inv(Next(t, P(SendByte(i))))
    ensures var u, sender := Next(t, P(SendByte(i))), t.ring.sender;
      u == t.(ring := t.ring.(data := u.ring.data, sender := sender.(done := sender.done + {i})))
  {
    hide Inv, R.Inv, Place;
    RingOf(t);
    R.SlotInside(t.ring, i);
    StepKeeps(t, P(SendByte(i)));
  }

  /** The memcpys of send_some. */
  lemma CopyAll(s: State, es: seq<Event>, t: State) returns (es': seq<Event>, t': State)
    requires Legal(s, es) && After(s, es) == t && Inv(t) && t.producer.PCopying? && t.ring.sender.SCopying?
    requires forall e | e in es :: e.P?
    ensures Legal(s, es') && After(s, es') == t' && Inv(t') && forall e | e in es' :: e.P?
    ensures t' == t.(ring := t.ring.(data := t'.ring.data, sender := t'.ring.sender))
    ensures t'.ring.sender.SCopying? && t'.ring.sender.buf == t.ring.sender.buf && PEnabled(t', SendPublish)
  {
    hide Legal, After, Inv, Next, Enabled, PNext;
    es', t' := es, t;
    var i := 0;
    while i < |t.ring.sender.buf|
      invariant i <= |t.ring.sender.buf| && Legal(s, es') && After(s, es') == t' && Inv(t') && forall e | e in es' :: e.P?
      invariant t' == t.(ring := t.ring.(data := t'.ring.data, sender := t'.ring.sender))
      invariant t'.ring.sender.SCopying? && t'.ring.sender.buf == t.ring.sender.buf
      invariant forall k: nat | k < i :: k in t'.ring.sender.done
    {
      CopyOne(t', i);
      OneMore(s, es', t', P(SendByte(i)));
      es', t', i := es' + [P(SendByte(i))], Next(t', P(SendByte(i))), i + 1;
    }
  }

  lemma RingOf(s: State)
    requires Inv(s)
    ensures R.Inv(s.ring)
  {
  }

  // ---------------------------------------------------------------- receives

  /** In every run, a recv that is under way ends exactly when it has taken bytes, when it finds the tail
      at what it has received on a ring it has seen closed, or when it is not to block and found nothing.
      It returns the bytes it took, which are the next ones of the stream and no more than asked for; end
      of file; or EAGAIN. Until then it takes nothing. */
  lemma RecvEndsExactly(s0: State, es: seq<Event>, e: CEvent)
    requires Init(s0) && Legal(s0, es) && CEnabled(After(s0, es), e) && !After(s0, es).consumer.CIdle?
    ensures var s := After(s0, es); var s', call := CNext(s, e), s.consumer.call;
      && (s'.consumer.CIdle? <==>
            e.RecvRelease? || (e.LoadTail? && e.v == |s.ring.received|) || (e.Decide? && call.nonblock))
      && (!s'.consumer.CIdle? ==>
            && s'.consumer.call.len == call.len && s'.consumer.call.nonblock == call.nonblock
            && s'.ring.received == s.ring.received && s'.answer == s.answer && s'.eof == s.eof)
      && (e.RecvRelease? ==>
            && s'.answer.Got? && 0 < |s'.answer.bytes| <= call.len && s'.eof == s.eof
            && s'.ring.received == s.ring.received + s'.answer.bytes <= s.ring.published)
      && (e.LoadTail? && e.v == |s.ring.received| ==>
            s'.answer.EndOfFile? && s'.eof && s.ring.closed && s'.ring.received == s.ring.received == s.ring.published)
      && (e.Decide? && call.nonblock ==>
            s'.answer.WouldBlock? && s'.eof == s.eof && s'.ring.received == s.ring.received)
  {
    hide Legal, After, Inv;
    InvOf(s0, es);
    var s := After(s0, es);
    if e.RecvRelease? {
      ReleaseTakes(s);
    } else if e.LoadTail? {
      TailTells(s, e.v);
      if e.v == |s.ring.received| {
        StepKeeps(s, C(e));
        EofMeans(CNext(s, e));
      }
    } else {
      if Early(e) { EarlyTakesNothing(s, e); } else { ParkingTakesNothing(s, e); }
      ReceivedStays(s, e);
    }
  }

  lemma ReleaseTakes(s: State)
    requires Inv(s) && CEnabled(s, RecvRelease)
    ensures var s' := CNext(s, RecvRelease);
      && s'.consumer.CIdle? && s'.answer.Got? && 0 < |s'.answer.bytes| <= s.consumer.call.len && s'.eof == s.eof
      && s'.ring.received == s.ring.received + s'.answer.bytes <= s.ring.published
  {
    hide Place, ProducerOk, ClosedOk, LogSound, LogComplete, ConsumerOk, WakeDue, SentOk, Paced, NoTurn;
    R.ReceivedGrows(s.ring);
  }

  lemma TailTells(s: State, v: nat)
    requires Inv(s) && CEnabled(s, LoadTail(v))
    ensures var s' := CNext(s, LoadTail(v));
      if v == |s.ring.received| then s'.consumer.CIdle? && s'.answer.EndOfFile? && s'.eof && s'.ring.received == s.ring.received
      else s' == s.(ring := s'.ring, consumer := CBlocked(s.consumer.call)) && s'.ring.received == s.ring.received
    ensures CNext(s, LoadTail(v)).ring.closed == s.ring.closed && CNext(s, LoadTail(v)).ring.published == s.ring.published
  {
    hide Place, ProducerOk, ClosedOk, LogSound, LogComplete, ConsumerOk, WakeDue, SentOk, Paced, NoTurn, R.Inv;
    R.AvailIsExact(s.ring, v);
  }

  lemma EofMeans(s: State)
    requires Inv(s) && s.eof
    ensures s.ring.closed && s.ring.received == s.ring.published
  {
    hide Place, ProducerOk, ClosedOk, LogSound, LogComplete, ConsumerOk, WakeDue, SentOk, Paced, NoTurn, R.Inv;
  }

  /** The steps of the loop up to the decision to go to the futex, and those from there on. */
  predicate Early(e: CEvent) {
    e.Recv? || e.RecvLoad? || e.RecvByte? || e.LoadClosed? || e.HangUp? || e.Decide?
  }

  lemma EarlyTakesNothing(s: State, e: CEvent)
    requires CEnabled(s, e) && !s.consumer.CIdle? && Early(e)
    ensures var s', call := CNext(s, e), s.consumer.call;
      && (s'.consumer.CIdle? <==> e.Decide? && call.nonblock) && s'.eof == s.eof
      && (s'.consumer.CIdle? ==> s'.answer.WouldBlock?)
      && (!s'.consumer.CIdle? ==>
            s'.answer == s.answer && s'.consumer.call.len == call.len && s'.consumer.call.nonblock == call.nonblock)
  {
    hide Place, R.Avail, R.Slot, R.Copied, R.Next, R.Enabled, CloseView;
  }

  lemma ParkingTakesNothing(s: State, e: CEvent)
    requires CEnabled(s, e) && !s.consumer.CIdle? && !Early(e) && !e.RecvRelease? && !e.LoadTail?
    ensures var s', call := CNext(s, e), s.consumer.call;
      && (s'.consumer.CIdle? <==> e.Decide? && call.nonblock) && s'.eof == s.eof
      && (s'.consumer.CIdle? ==> s'.answer.WouldBlock?)
      && (!s'.consumer.CIdle? ==>
            s'.answer == s.answer && s'.consumer.call.len == call.len && s'.consumer.call.nonblock == call.nonblock)
  {
    hide Place, R.Avail, R.Next, R.Enabled, Wrap32, Visible, TailAt, ClosedAt, CloseView;
  }

  lemma ReceivedStays(s: State, e: CEvent)
    requires CEnabled(s, e) && !e.RecvRelease?
    ensures CNext(s, e).ring.received == s.ring.received
  {
    hide CNext, R.Next, R.Enabled, R.Legal, R.After, CloseView, TailAt;
    ConsumerUsesRing(s, e);
    TakesNothing(s.ring, ConsumerRingSteps(s, e));
  }

  lemma {:induction false} TakesNothing(r: R.State, es: seq<R.Event>)
    requires R.Legal(r, es) && forall e | e in es :: !e.RecvRelease?
    ensures R.After(r, es).received == r.received
    decreases |es|
  {
    hide R.Free, R.Avail, R.Slot, R.Copied;
    if es != [] {
      assert es[0] in es;
      TakesNothing(R.Next(r, es[0]), es[1..]);
    }
  }

  // ---------------------------------------------------------------- a recv comes to its end

  /** With bytes in the ring, a recv at the top of its loop returns them by its own steps. */
  lemma RecvGetsData(s: State) returns (es: seq<Event>)
    requires Inv(s) && s.consumer.CTry? && |s.ring.received| < |s.ring.published|
    ensures Legal(s, es) && forall e | e in es :: e.C?
    ensures var t := After(s, es); var r := |s.ring.received|;
      var n := Min(s.consumer.call.len, |s.ring.published| - r);
      t.consumer.CIdle? && t.answer == Got(s.ring.published[r..r + n])
  {
    hide Legal, After, Inv, R.Inv, R.Next, R.Enabled, CEnabled, CNext, PEnabled, PNext, WEnabled, WNext;
    var v := |s.ring.published|;
    TryAllowed(s);
    NoSteps(s);
    OneMore(s, [], s, C(RecvLoad(v)));
    StepKeeps(s, C(RecvLoad(v)));
    LoadedCount(s);
    es := [] + [C(RecvLoad(v))];
    var t := Next(s, C(RecvLoad(v)));
    es, t := CopyOutAll(s, es, t);
    OneMore(s, es, t, C(RecvRelease));
    ReleaseTakes(t);
    Released(t);
    es := es + [C(RecvRelease)];
  }

  lemma TryAllowed(s: State)
    requires Inv(s) && s.consumer.CTry?
    ensures CEnabled(s, RecvLoad(|s.ring.published|)) && s.consumer.call.len > 0
  {
  }

  lemma LoadedCount(s: State)
    requires Inv(s) && CEnabled(s, RecvLoad(|s.ring.published|))
    ensures var s', n := CNext(s, RecvLoad(|s.ring.published|)), |s.ring.published| - |s.ring.received|;
      && n >= 0 && s'.ring.received == s.ring.received && s'.ring.published == s.ring.published && s'.ring.closed == s.ring.closed
      && s' == s.(ring := s'.ring, consumer := s'.consumer)
      && (n == 0 ==> s'.consumer == CTestClosed(s.consumer.call) && s'.ring == s.ring.(seenTail := |s.ring.published|))
      && (n > 0 ==>
            s'.consumer == CCopying(s.consumer.call) && s'.ring.receiver.RCopying? && s'.ring.receiver.n == Min(s.consumer.call.len, n))
  {
    hide Place, ProducerOk, ClosedOk, LogSound, LogComplete, ConsumerOk, WakeDue, SentOk, Paced, NoTurn, R.Inv;
    R.AvailIsExact(s.ring, |s.ring.published|);
  }

  lemma Released(s: State)
    requires Inv(s) && CEnabled(s, RecvRelease)
    ensures |s.ring.received| + s.ring.receiver.n <= |s.ring.published|
    ensures CNext(s, RecvRelease).answer == Got(s.ring.published[|s.ring.received|..|s.ring.received| + s.ring.receiver.n])
  {
    hide Place, ProducerOk, ClosedOk, LogSound, LogComplete, ConsumerOk, WakeDue, SentOk, Paced, NoTurn;
    R.ReceivedGrows(s.ring);
    var r, n, s' := |s.ring.received|, s.ring.receiver.n, CNext(s, RecvRelease);
    assert s'.ring.received[r..] == s'.answer.bytes;
    assert s.ring.published[..r + n][r..] == s.ring.published[r..r + n];
  }

  lemma CopyOneOut(t: State, i: nat)
    requires Inv(t) && t.consumer.CCopying? && t.ring.receiver.RCopying? && i < t.ring.receiver.n
    ensures Enabled(t, C(RecvByte(i))) && Inv(Next(t, C(RecvByte(i))))
    ensures var u, receiver := Next(t, C(RecvByte(i))), t.ring.receiver;
      && u.ring.receiver.RCopying? && u.ring.receiver.n == receiver.n && u.ring.receiver.got.Keys == receiver.got.Keys + {i}
      && u == t.(ring := t.ring.(receiver := u.ring.receiver))
  {
    hide Inv, R.Inv, Place;
    RingOf(t);
    R.SlotInside(t.ring, i);
    StepKeeps(t, C(RecvByte(i)));
  }

  /** The memcpys of recv_some. */
  lemma CopyOutAll(s: State, es: seq<Event>, t: State) returns (es': seq<Event>, t': State)
    requires Legal(s, es) && After(s, es) == t && Inv(t) && t.consumer.CCopying? && t.ring.receiver.RCopying?
    requires forall e | e in es :: e.C?
    ensures Legal(s, es') && After(s, es') == t' && Inv(t') && forall e | e in es' :: e.C?
    ensures t' == t.(ring := t.ring.(receiver := t'.ring.receiver))
    ensures t'.ring.receiver.RCopying? && t'.ring.receiver.n == t.ring.receiver.n && CEnabled(t', RecvRelease)
  {
    hide Legal, After, Inv, Next, Enabled, CNext;
    es', t' := es, t;
    var i := 0;
    while i < t.ring.receiver.n
      invariant i <= t.ring.receiver.n && Legal(s, es') && After(s, es') == t' && Inv(t') && forall e | e in es' :: e.C?
      invariant t' == t.(ring := t.ring.(receiver := t'.ring.receiver))
      invariant t'.ring.receiver.RCopying? && t'.ring.receiver.n == t.ring.receiver.n
      invariant forall k: nat | k < i :: k in t'.ring.receiver.got
    {
      CopyOneOut(t', i);
      OneMore(s, es', t', C(RecvByte(i)));
      es', t', i := es' + [C(RecvByte(i))], Next(t', C(RecvByte(i))), i + 1;
    }
  }

  /** On a closed ring with everything received, it returns 0. */
  lemma EofArrives(s: State) returns (es: seq<Event>)
    requires Inv(s) && s.consumer.CTry? && s.ring.closed && s.ring.received == s.ring.published
    ensures Legal(s, es) && forall e | e in es :: e.C?
    ensures var t := After(s, es); t.consumer.CIdle? && t.answer.EndOfFile? && t.eof
  {
    hide Legal, After, Inv, R.Inv, Place, R.Avail;
    var v := |s.ring.published|;
    TryAllowed(s);
    NoSteps(s);
    OneMore(s, [], s, C(RecvLoad(v)));
    StepKeeps(s, C(RecvLoad(v)));
    LoadedCount(s);
    es := [] + [C(RecvLoad(v))];
    var t := Next(s, C(RecvLoad(v)));
    ClosedIsSeen(t);
    OneMore(s, es, t, C(LoadClosed(true)));
    StepKeeps(t, C(LoadClosed(true)));
    es, t := es + [C(LoadClosed(true))], Next(t, C(LoadClosed(true)));
    EmptyIsSeen(t);
    TailTells(t, v);
    OneMore(s, es, t, C(LoadTail(v)));
    es := es + [C(LoadTail(v))];
  }

  lemma ClosedIsSeen(s: State)
    requires Inv(s) && s.consumer.CTestClosed?
    ensures CEnabled(s, LoadClosed(s.ring.closed))
    ensures s.ring.closed ==>
      var s' := CNext(s, LoadClosed(true));
      && s'.consumer == CTestEmpty(s.consumer.call)
      && s'.ring.received == s.ring.received && s'.ring.published == s.ring.published && s'.ring.closed
    ensures !s.ring.closed ==> CNext(s, LoadClosed(false)) == s.(consumer := CBlocked(s.consumer.call))
  {
    hide Place, ProducerOk, LogSound, LogComplete, ConsumerOk, WakeDue, SentOk, Paced, NoTurn;
  }

  lemma EmptyIsSeen(s: State)
    requires Inv(s) && s.consumer.CTestEmpty?
    ensures CEnabled(s, LoadTail(|s.ring.published|))
  {
    hide Place, ProducerOk, LogSound, LogComplete, ConsumerOk, WakeDue, SentOk, Paced, NoTurn;
  }

  /** On an open ring with everything received, a recv that is not to block returns EAGAIN. */
  lemma WouldBlockArrives(s: State) returns (es: seq<Event>)
    requires Inv(s) && s.consumer.CTry? && s.consumer.call.nonblock && !s.ring.closed && s.ring.received == s.ring.published
    ensures Legal(s, es) && forall e | e in es :: e.C?
    ensures var t := After(s, es); t.consumer.CIdle? && t.answer.WouldBlock?
  {
    var t: State;
    es, t := FindsNothing(s);
    OneMore(s, es, t, C(Decide));
    es := es + [C(Decide)];
  }

  /** The way to the blocked state. */
  lemma FindsNothing(s: State) returns (es: seq<Event>, t: State)
    requires Inv(s) && s.consumer.CTry? && !s.ring.closed && s.ring.received == s.ring.published
    ensures Legal(s, es) && After(s, es) == t && Inv(t) && forall e | e in es :: e.C?
    ensures t == s.(ring := s.ring.(seenTail := |s.ring.published|), consumer := CBlocked(s.consumer.call))
  {
    hide Legal, After, Inv, R.Inv, Place, R.Avail;
    var v := |s.ring.published|;
    TryAllowed(s);
    NoSteps(s);
    OneMore(s, [], s, C(RecvLoad(v)));
    StepKeeps(s, C(RecvLoad(v)));
    LoadedCount(s);
    es := [] + [C(RecvLoad(v))];
    t := Next(s, C(RecvLoad(v)));
    ClosedIsSeen(t);
    OneMore(s, es, t, C(LoadClosed(false)));
    StepKeeps(t, C(LoadClosed(false)));
    es, t := es + [C(LoadClosed(false))], Next(t, C(LoadClosed(false)));
  }

  /** A peer that has crashed is noticed: a blocking recv that has taken all there is finds its socket hung
      up, closes the ring itself, and returns 0. */
  lemma CrashGivesEof(s: State) returns (es: seq<Event>)
    requires Inv(s) && s.consumer.CTry? && !s.consumer.call.nonblock && s.producer.PCrashed?
    requires s.ring.received == s.ring.published
    ensures Legal(s, es) && forall e | e in es :: e.C?
    ensures var t := After(s, es); t.consumer.CIdle? && t.answer.EndOfFile? && t.eof && t.ring.closed
  {
    hide Legal, After, Inv, R.Inv, Place, R.Avail;
    if s.ring.closed {
      es := EofArrives(s);
      EndsClosed(s, es);
      return;
    }
    var t: State;
    es, t := FindsNothing(s);
    HangUpCloses(t);
    OneMore(s, es, t, C(HangUp));
    StepKeeps(t, C(HangUp));
    es, t := es + [C(HangUp)], Next(t, C(HangUp));
    var more := EofArrives(t);
    Joins(s, es, more);
    EndsClosed(t, more);
    es := es + more;
  }

  /** A whole recv: unless it would have to wait for its peer, it returns by its own steps, with the next
      bytes if there are any, at the end of file with 0, and otherwise with EAGAIN. */
  lemma RecvAnswers(s: State, len: nat, nonblock: bool) returns (es: seq<Event>)
    requires Inv(s) && s.consumer.CIdle? && len > 0
    requires |s.ring.received| < |s.ring.published| || s.ring.closed || nonblock || s.producer.PCrashed?
    ensures Legal(s, es) && forall e | e in es :: e.C?
    ensures var t, r := After(s, es), |s.ring.received|;
      && t.consumer.CIdle? && r <= |s.ring.published|
      && t.answer == if r < |s.ring.published| then Got(s.ring.published[r..r + Min(len, |s.ring.published| - r)])
                     else if s.ring.closed || !nonblock then EndOfFile
                     else WouldBlock
  {
    hide Legal, After, Inv, R.Inv, Place, R.Avail;
    var first := C(Recv(len, nonblock));
    NoSteps(s);
    OneMore(s, [], s, first);
    StepKeeps(s, first);
    var t := Next(s, first);
    var more;
    AllInOrder(s);
    if |s.ring.received| < |s.ring.published| {
      more := RecvGetsData(t);
    } else if s.ring.closed {
      more := EofArrives(t);
    } else if nonblock {
      more := WouldBlockArrives(t);
    } else {
      more := CrashGivesEof(t);
    }
    Begins(s, first, more);
    es := [first] + more;
  }

  lemma AllInOrder(s: State)
    requires Inv(s)
    ensures s.ring.received <= s.ring.published
    ensures |s.ring.received| == |s.ring.published| ==> s.ring.received == s.ring.published
  {
  }

  lemma EndsClosed(s: State, es: seq<Event>)
    requires Inv(s) && Legal(s, es) && After(s, es).eof
    ensures After(s, es).ring.closed
  {
    hide Legal, After, Inv;
    RunKeeps(s, es);
    EofMeans(After(s, es));
  }

  lemma HangUpCloses(s: State)
    requires Inv(s) && s.consumer.CBlocked? && !s.consumer.call.nonblock && s.producer.PCrashed?
    ensures CEnabled(s, HangUp)
    ensures var s' := CNext(s, HangUp);
      s'.consumer == CTry(s.consumer.call) && s'.ring.closed && s'.ring.received == s.ring.received
      && s'.ring.published == s.ring.published
  {
    hide Place, ProducerOk, LogSound, LogComplete, ConsumerOk, WakeDue, SentOk, Paced, NoTurn;
  }

  lemma {:induction false} Joins(s: State, es: seq<Event>, more: seq<Event>)
    requires Legal(s, es) && Legal(After(s, es), more)
    ensures Legal(s, es + more) && After(s, es + more) == After(After(s, es), more)
    decreases |es|
  {
    hide Next, Enabled;
    if es == [] {
      assert es + more == more;
    } else {
      Joins(Next(s, es[0]), es[1..], more);
      assert (es + more)[1..] == es[1..] + more;
    }
  }

  // ---------------------------------------------------------------- spinning before sleeping

  /** In the part of its loop in which a recv does not wait. */
  predicate Spinning(c: Consumer) {
    c.CTry? || c.CCopying? || c.CTestClosed? || c.CTestEmpty? || c.CBlocked?
  }

  /** How often a recv has found nothing since it was called or last stopped waiting: n before step e. */
  ghost function TriesAfter(s: State, e: Event, n: nat): nat
    requires Enabled(s, e)
  {
    if e == C(Decide) then n + 1
    else if !Spinning(s.consumer) && Spinning(Next(s, e).consumer) then 0
    else n
  }

  /** The same over a whole run. */
  ghost function Tries(s: State, es: seq<Event>, n: nat): nat
    requires Legal(s, es)
    decreases |es|
  {
    if es == [] then n else Tries(Next(s, es[0]), es[1..], TriesAfter(s, es[0], n))
  }

  ghost predicate SpinCounts(c: Consumer, n: nat) {
    && (Spinning(c) ==> c.call.spin == n <= SPIN_LIMIT)
    && (c.CSample? ==> n == SPIN_LIMIT + 1)
  }

  lemma SpinStep(s: State, e: Event, n: nat)
    requires Enabled(s, e) && SpinCounts(s.consumer, n)
    ensures SpinCounts(Next(s, e).consumer, TriesAfter(s, e, n))
  {
    hide CNext, CEnabled, PNext, PEnabled, WNext, WEnabled;
    match e
    case P(p) => ProducerWakes(s, p);
    case C(c) =>
      if c.RecvLoad? || c.RecvByte? || c.RecvRelease? { CopyingSpins(s, c, n); }
      else if c.Recv? || c.LoadClosed? || c.LoadTail? { TestingSpins(s, c, n); }
      else if c.HangUp? || c.Decide? { DecidingSpins(s, c, n); }
      else { WaitingSpins(s, c, n); }
    case W(w) => WatchdogWakes(s, w);
  }

  lemma ProducerWakes(s: State, e: PEvent)
    requires PEnabled(s, e)
    ensures PNext(s, e).consumer in {s.consumer, Woken(s.consumer)}
  {
    hide R.Next, R.Enabled, CloseView;
  }

  lemma WatchdogWakes(s: State, e: WEvent)
    requires WEnabled(s, e)
    ensures WNext(s, e).consumer in {s.consumer, Woken(s.consumer)}
  {
    hide R.Next, R.Enabled, CloseView;
  }

  lemma CopyingSpins(s: State, e: CEvent, n: nat)
    requires CEnabled(s, e) && SpinCounts(s.consumer, n) && (e.RecvLoad? || e.RecvByte? || e.RecvRelease?)
    ensures SpinCounts(CNext(s, e).consumer, TriesAfter(s, C(e), n))
  {
    hide ObserveClosed, MarkClosed, CanObserve, Gone, CloseView, R.Avail, R.Next, R.Enabled;
  }

  lemma TestingSpins(s: State, e: CEvent, n: nat)
    requires CEnabled(s, e) && SpinCounts(s.consumer, n) && (e.Recv? || e.LoadClosed? || e.LoadTail?)
    ensures SpinCounts(CNext(s, e).consumer, TriesAfter(s, C(e), n))
  {
    hide ObserveClosed, MarkClosed, CanObserve, Gone, CloseView, R.Avail, R.Next, R.Enabled;
  }

  lemma DecidingSpins(s: State, e: CEvent, n: nat)
    requires CEnabled(s, e) && SpinCounts(s.consumer, n) && (e.HangUp? || e.Decide?)
    ensures SpinCounts(CNext(s, e).consumer, TriesAfter(s, C(e), n))
  {
    hide ObserveClosed, MarkClosed, CanObserve, Gone, CloseView, R.Avail, R.Next, R.Enabled;
  }

  lemma WaitingSpins(s: State, e: CEvent, n: nat)
    requires CEnabled(s, e) && SpinCounts(s.consumer, n)
    requires e.Sample? || e.RecheckTail? || e.RecheckClosed? || e.FutexWait? || e.Timeout?
    ensures SpinCounts(CNext(s, e).consumer, TriesAfter(s, C(e), n))
  {
    hide ObserveClosed, CanObserve, CloseView, R.Avail, R.Next, R.Enabled, Wrap32, Visible, TailAt, ClosedAt;
  }

  lemma {:induction false} RunSpins(s: State, es: seq<Event>, n: nat)
    requires Legal(s, es) && SpinCounts(s.consumer, n)
    ensures SpinCounts(After(s, es).consumer, Tries(s, es, n))
    decreases |es|
  {
    hide Next, Enabled, TriesAfter, SpinCounts;
    if es != [] {
      SpinStep(s, es[0], n);
      RunSpins(Next(s, es[0]), es[1..], TriesAfter(s, es[0], n));
    }
  }

  /** In every run, a recv turns to waiting exactly when it has found nothing SPIN_LIMIT times and once
      more since it was called or last stopped waiting. */
  lemma SleepsAfterSpinning(s0: State, es: seq<Event>)
    requires Init(s0) && Legal(s0, es)
    ensures var c, n := After(s0, es).consumer, Tries(s0, es, 0);
      && (c.CSample? ==> n == SPIN_LIMIT + 1)
      && (Spinning(c) ==> n <= SPIN_LIMIT)
  {
    hide Legal, After, Tries;
    RunSpins(s0, es, 0);
  }

  /** How far a recv that has found nothing is from the top of its loop. */
  function Far(c: Consumer): nat {
    match c
    case CIdle => 0
    case CTry(_) => 0
    case CCopying(_) => 0
    case CParked(_, _, _) => 1
    case CWait(_, _) => 2
    case CRecheckClosed(_, _) => 3
    case CRecheckTail(_, _) => 4
    case CSample(_) => 5
    case CBlocked(_) => 6
    case CTestEmpty(_) => 7
    case CTestClosed(_) => 8
  }

  /** Wherever a recv is, it gets back to the top of its loop, or returns, by its own steps; if it is
      parked, by the timeout. So it never misses for good what the theorems above promise there. */
  lemma {:induction false} RecvComesBack(s: State) returns (es: seq<Event>)
    requires Inv(s) && !s.consumer.CCopying?
    ensures Legal(s, es) && forall e | e in es :: e.C?
    ensures After(s, es).consumer.CTry? || After(s, es).consumer.CIdle?
    decreases Far(s.consumer)
  {
    hide Legal, After, Inv, CNext, CEnabled;
    if s.consumer.CTry? || s.consumer.CIdle? {
      es := [];
      NoSteps(s);
    } else {
      var e := ConsumerNeverStuck(s);
      ComesCloser(s, e);
      StepKeeps(s, C(e));
      var more := RecvComesBack(Next(s, C(e)));
      es := [C(e)] + more;
      Begins(s, C(e), more);
    }
  }

  lemma ComesCloser(s: State, e: CEvent)
    requires CEnabled(s, e) && !s.consumer.CIdle? && !s.consumer.CTry? && !s.consumer.CCopying?
    requires !e.HangUp?
    ensures Far(CNext(s, e).consumer) < Far(s.consumer) && !CNext(s, e).consumer.CCopying?
  {
    hide CNext, CEnabled;
    if Early(e) || e.LoadTail? || e.RecvRelease? { EarlyCloser(s, e); } else { ParkingCloser(s, e); }
  }

  lemma EarlyCloser(s: State, e: CEvent)
    requires CEnabled(s, e) && !s.consumer.CIdle? && !s.consumer.CTry? && !s.consumer.CCopying?
    requires !e.HangUp? && (Early(e) || e.LoadTail? || e.RecvRelease?)
    ensures Far(CNext(s, e).consumer) < Far(s.consumer) && !CNext(s, e).consumer.CCopying?
  {
    hide Place, R.Avail, R.Next, R.Enabled, CloseView;
  }

  lemma ParkingCloser(s: State, e: CEvent)
    requires CEnabled(s, e) && !s.consumer.CIdle? && !Early(e) && !e.LoadTail? && !e.RecvRelease?
    ensures Far(CNext(s, e).consumer) < Far(s.consumer) && !CNext(s, e).consumer.CCopying?
  {
    hide Place, R.Avail, R.Next, R.Enabled, Wrap32, Visible, TailAt, ClosedAt, CloseView;
  }

  lemma Begins(s: State, e: Event, more: seq<Event>)
    requires Enabled(s, e) && Legal(Next(s, e), more)
    ensures Legal(s, [e] + more) && After(s, [e] + more) == After(Next(s, e), more)
  {
    hide Next, Enabled;
    assert ([e] + more)[1..] == more;
  }
}
