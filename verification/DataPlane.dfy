/** shm_send, shm_recv, ShmSegment::close and the watchdog sweep over one direction of a
    connection, as a step system on top of the ring's own steps. The producer process runs one
    call at a time (send_mu; close runs when no call holds the connection), so does the consumer
    process (recv_mu). The producer may crash between any two of its steps.

    The futex counter is a 32-bit word. `log` records, for every increment of it, how many bytes
    were published and whether the ring was closed at that moment; loading the counter after
    the k-th increment makes what log[k-1] records visible (release/acquire). It may return an
    older value of the counter, but not one from before an increment that came before bytes the
    consumer has seen. FUTEX_WAIT compares and parks in one step. */
module DataPlane {
  import opened Common
  import opened Modular
  import R = RingProtocol

  const SPIN_LIMIT: nat := 100

  datatype SendCall = SendCall(buf: seq<Byte>, total: nat, start: nat, nonblock: bool)
  datatype RecvCall = RecvCall(len: nat, nonblock: bool, spin: nat)

  datatype Producer =
    | PIdle
    | PLoop(call: SendCall)        // top of the while loop of shm_send
    | PCopying(call: SendCall)     // inside send_some
    | PBump(next: Producer)        // about to increment the wake counter
    | PWake(next: Producer)        // about to FUTEX_WAKE
    | PDone                        // close() has finished
    | PCrashed

  datatype Consumer =
    | CIdle
    | CTry(call: RecvCall)         // top of the for loop of shm_recv
    | CCopying(call: RecvCall)     // inside recv_some
    | CTestClosed(call: RecvCall)  // recv_some returned 0
    | CTestEmpty(call: RecvCall)   // peer_closed() returned true
    | CBlocked(call: RecvCall)     // neither data nor end of file
    | CSample(call: RecvCall)      // spun enough, about to load the wake counter
    | CRecheckTail(call: RecvCall, b: nat)
    | CRecheckClosed(call: RecvCall, b: nat)
    | CWait(call: RecvCall, b: nat)
    | CParked(call: RecvCall, b: nat, at: nat)  // sampled at b increments, parked at `at`

  datatype Watchdog = WIdle | WBump | WWake

  datatype Increment = Increment(tail: nat, closed: bool)

  /** The last completed shm_send: k bytes of buf went out from stream position start. */
  datatype Sent = NoSend | Sent(buf: seq<Byte>, start: nat, k: nat)

  /** What the last completed shm_recv returned. */
  datatype Answer = NoAnswer | Got(bytes: seq<Byte>) | EndOfFile | WouldBlock

  datatype State = State(
    ring: R.State,
    wake: U32,                     // the 32-bit counter
    producer: Producer, consumer: Consumer, watchdog: Watchdog,
    seenClosed: bool,              // the consumer process has observed closed != 0
    log: seq<Increment>,
    closeTail: nat,                // bytes published when the ring was first marked closed
    swept: bool,                   // the watchdog has incremented the counter
    attached: bool,                // wait_for_peer, which runs once, has begun
    sent: Sent,
    answer: Answer,
    eof: bool)                     // some shm_recv has returned 0

  /** Steps of the producer process. */
  datatype PEvent =
    | Send(buf: seq<Byte>, nonblock: bool)
    | SendLoad(v: nat) | SendByte(i: nat) | SendPublish | SendReturn
    | Bump | Wake
    | AttachBump                   // wait_for_peer increments the outbound counter
    | Close
    | Crash

  /** Steps of the thread that holds recv_mu. */
  datatype CEvent =
    | Recv(len: nat, nonblock: bool)
    | RecvLoad(v: nat) | RecvByte(i: nat) | RecvRelease
    | LoadClosed(c: bool)          // peer_closed() after an empty recv_some
    | LoadTail(v: nat)             // readable() after peer_closed()
    | HangUp                       // the kernel socket reports the peer gone
    | Decide                       // EAGAIN, spin once more, or go to the futex
    | Sample(b: nat)
    | RecheckTail(v: nat)
    | RecheckClosed(c: bool)
    | FutexWait
    | Timeout

  /** Steps of the watchdog thread beside it. */
  datatype WEvent =
    | Sweep                        // the peer's pid is found gone
    | SweepBump | SweepWake

  datatype Event = P(p: PEvent) | C(c: CEvent) | W(w: WEvent)

  predicate Init(s: State) {
    && R.Init(s.ring) && s.wake == 0
    && s.producer == PIdle && s.consumer == CIdle && s.watchdog == WIdle
    && !s.seenClosed && s.log == [] && !s.swept && !s.attached && s.sent == NoSend && s.answer == NoAnswer && !s.eof
  }

  function TailAt(log: seq<Increment>, b: nat): nat
    requires b <= |log|
  {
    if b == 0 then 0 else log[b - 1].tail
  }

  predicate ClosedAt(log: seq<Increment>, b: nat)
    requires b <= |log|
  {
    b > 0 && log[b - 1].closed
  }

  /** What is not yet visible at b came after everything seen. */
  ghost predicate Visible(log: seq<Increment>, b: nat, seen: nat) {
    forall k | b <= k < |log| :: seen <= log[k].tail
  }

  predicate Gone(p: Producer) {
    p.PDone? || p.PCrashed?
  }

  function Max(a: nat, b: nat): nat {
    if a < b then b else a
  }

  /** What observing closed != 0 makes visible of the tail. */
  function CloseView(s: State): nat {
    Max(s.ring.seenTail, s.closeTail)
  }

  ghost function MarkClosed(s: State): State {
    s.(ring := R.Next(s.ring, R.MarkClosed),
       closeTail := if s.ring.closed then s.closeTail else |s.ring.published|)
  }

  /** The consumer process reads closed != 0. */
  ghost predicate CanObserve(s: State) {
    s.ring.closed && R.Enabled(s.ring, R.RecvSync(CloseView(s)))
  }

  ghost function ObserveClosed(s: State): State
    requires CanObserve(s)
  {
    s.(ring := R.Next(s.ring, R.RecvSync(CloseView(s))), seenClosed := true)
  }

  function Incremented(s: State): State {
    s.(wake := Wrap32(s.wake + 1),
       log := s.log + [Increment(|s.ring.published|, s.ring.closed)])
  }

  /** FUTEX_WAKE: the only possible waiter is the holder of recv_mu. */
  function Woken(c: Consumer): Consumer {
    if c.CParked? then CTry(c.call.(spin := 0)) else c
  }

  ghost predicate PEnabled(s: State, e: PEvent) {
    match e
    case Send(buf, nb) => s.producer.PIdle? && buf != []
    case SendLoad(v) =>
      && s.producer.PLoop? && s.producer.call.total < |s.producer.call.buf|
      && R.Enabled(s.ring, R.SendLoad(s.producer.call.buf[s.producer.call.total..], v))
    case SendByte(i) => s.producer.PCopying? && R.Enabled(s.ring, R.SendByte(i))
    case SendPublish => s.producer.PCopying? && R.Enabled(s.ring, R.SendPublish)
    case SendReturn => s.producer.PLoop? && s.producer.call.total >= |s.producer.call.buf|
    case Bump => s.producer.PBump?
    case Wake => s.producer.PWake?
    case AttachBump => s.producer.PIdle? && !s.attached
    case Close => s.producer.PIdle?
    case Crash => !Gone(s.producer)
  }

  ghost function PNext(s: State, e: PEvent): State
    requires PEnabled(s, e)
  {
    match e
    case Send(buf, nb) => s.(producer := PLoop(SendCall(buf, 0, |s.ring.published|, nb)))
    case SendLoad(v) =>
      var call := s.producer.call;
      var ring := R.Next(s.ring, R.SendLoad(call.buf[call.total..], v));
      if ring.sender.SCopying? then s.(ring := ring, producer := PCopying(call))
      else if call.nonblock then
        s.(ring := ring, producer := PIdle, sent := Sent(call.buf, call.start, call.total))
      else s.(ring := ring)
    case SendByte(i) => s.(ring := R.Next(s.ring, R.SendByte(i)))
    case SendPublish =>
      var call := s.producer.call;
      s.(ring := R.Next(s.ring, R.SendPublish),
         producer := PBump(PLoop(call.(total := call.total + |s.ring.sender.buf|))))
    case SendReturn =>
      var call := s.producer.call;
      s.(producer := PIdle, sent := Sent(call.buf, call.start, call.total))
    case Bump => Incremented(s).(producer := PWake(s.producer.next))
    case Wake => s.(producer := s.producer.next, consumer := Woken(s.consumer))
    case AttachBump => s.(producer := PBump(PIdle), attached := true)
    case Close => MarkClosed(s).(producer := PBump(PDone))
    case Crash => s.(producer := PCrashed)
  }

  ghost predicate CEnabled(s: State, e: CEvent) {
    match e
    case Recv(len, nb) => s.consumer.CIdle? && len > 0
    case RecvLoad(v) => s.consumer.CTry? && R.Enabled(s.ring, R.RecvLoad(s.consumer.call.len, v))
    case RecvByte(i) => s.consumer.CCopying? && R.Enabled(s.ring, R.RecvByte(i))
    case RecvRelease => s.consumer.CCopying? && R.Enabled(s.ring, R.RecvRelease)
    case LoadClosed(c) =>
      s.consumer.CTestClosed? && (c ==> CanObserve(s)) && (s.seenClosed ==> c)
    case LoadTail(v) => s.consumer.CTestEmpty? && R.Enabled(s.ring, R.RecvSync(v))
    case HangUp =>
      && s.consumer.CBlocked? && !s.consumer.call.nonblock
      && Gone(s.producer) && CanObserve(MarkClosed(s))
    case Decide => s.consumer.CBlocked?
    case Sample(b) =>
      && s.consumer.CSample? && b <= |s.log| && Visible(s.log, b, s.ring.seenTail)
      && R.Enabled(s.ring, R.RecvSync(Max(s.ring.seenTail, TailAt(s.log, b))))
    case RecheckTail(v) => s.consumer.CRecheckTail? && R.Enabled(s.ring, R.RecvSync(v))
    case RecheckClosed(c) =>
      s.consumer.CRecheckClosed? && (c ==> CanObserve(s)) && (s.seenClosed ==> c)
    case FutexWait => s.consumer.CWait?
    case Timeout => s.consumer.CParked?
  }

  ghost function CNext(s: State, e: CEvent): State
    requires CEnabled(s, e)
  {
    match e
    case Recv(len, nb) => s.(consumer := CTry(RecvCall(len, nb, 0)))
    case RecvLoad(v) =>
      var ring := R.Next(s.ring, R.RecvLoad(s.consumer.call.len, v));
      s.(ring := ring,
         consumer := if ring.receiver.RCopying? then CCopying(s.consumer.call)
                     else CTestClosed(s.consumer.call))
    case RecvByte(i) => s.(ring := R.Next(s.ring, R.RecvByte(i)))
    case RecvRelease =>
      s.(ring := R.Next(s.ring, R.RecvRelease), consumer := CIdle, answer := Got(R.Copied(s.ring.receiver)))
    case LoadClosed(c) =>
      if c then ObserveClosed(s).(consumer := CTestEmpty(s.consumer.call))
      else s.(consumer := CBlocked(s.consumer.call))
    case LoadTail(v) =>
      var ring := R.Next(s.ring, R.RecvSync(v));
      if R.Avail(s.ring, v) == 0 then s.(ring := ring, consumer := CIdle, answer := EndOfFile, eof := true)
      else s.(ring := ring, consumer := CBlocked(s.consumer.call))
    case HangUp => ObserveClosed(MarkClosed(s)).(consumer := CTry(s.consumer.call))
    case Decide =>
      var call := s.consumer.call;
      if call.nonblock then s.(consumer := CIdle, answer := WouldBlock)
      else if call.spin < SPIN_LIMIT then s.(consumer := CTry(call.(spin := call.spin + 1)))
      else s.(consumer := CSample(call))
    case Sample(b) =>
      s.(ring := R.Next(s.ring, R.RecvSync(Max(s.ring.seenTail, TailAt(s.log, b)))),
         seenClosed := s.seenClosed || ClosedAt(s.log, b),
         consumer := CRecheckTail(s.consumer.call, b))
    case RecheckTail(v) =>
      var ring := R.Next(s.ring, R.RecvSync(v));
      if R.Avail(s.ring, v) > 0 then s.(ring := ring, consumer := CTry(s.consumer.call.(spin := 0)))
      else s.(ring := ring, consumer := CRecheckClosed(s.consumer.call, s.consumer.b))
    case RecheckClosed(c) =>
      if c then ObserveClosed(s).(consumer := CTry(s.consumer.call.(spin := 0)))
      else s.(consumer := CWait(s.consumer.call, s.consumer.b))
    case FutexWait =>
      if s.wake == Wrap32(s.consumer.b)
      then s.(consumer := CParked(s.consumer.call, s.consumer.b, |s.log|))
      else s.(consumer := CTry(s.consumer.call.(spin := 0)))
    case Timeout => s.(consumer := CTry(s.consumer.call.(spin := 0)))
  }

  ghost predicate WEnabled(s: State, e: WEvent) {
    match e
    case Sweep => s.watchdog.WIdle? && Gone(s.producer)
    case SweepBump => s.watchdog.WBump?
    case SweepWake => s.watchdog.WWake?
  }

  ghost function WNext(s: State, e: WEvent): State
    requires WEnabled(s, e)
  {
    match e
    case Sweep => MarkClosed(s).(watchdog := WBump)
    case SweepBump => Incremented(s).(watchdog := WWake, swept := true)
    case SweepWake => s.(watchdog := WIdle, consumer := Woken(s.consumer))
  }

  ghost predicate Enabled(s: State, e: Event) {
    match e
    case P(p) => PEnabled(s, p)
    case C(c) => CEnabled(s, c)
    case W(w) => WEnabled(s, w)
  }

  ghost function Next(s: State, e: Event): State
    requires Enabled(s, e)
  {
    match e
    case P(p) => PNext(s, p)
    case C(c) => CNext(s, c)
    case W(w) => WNext(s, w)
  }

  // ---------------------------------------------------------------- invariant

  /** Where the producer is in its call, and what that call has published so far. */
  ghost predicate CallOk(published: seq<Byte>, call: SendCall) {
    && call.total <= |call.buf|
    && call.start + call.total == |published|
    && published[call.start..] == call.buf[..call.total]
  }

  ghost predicate ProducerOk(sender: R.Sender, published: seq<Byte>, producer: Producer) {
    match producer
    case PIdle => sender.SIdle?
    case PLoop(call) => sender.SIdle? && CallOk(published, call)
    case PCopying(call) =>
      sender.SCopying? && CallOk(published, call) && [] < sender.buf <= call.buf[call.total..]
    case PBump(next) => sender.SIdle? && AfterWakeOk(published, next)
    case PWake(next) => sender.SIdle? && AfterWakeOk(published, next)
    case PDone => sender.SIdle?
    case PCrashed => true
  }

  /** A wake interrupts a send, the attach barrier or a close, never another wake. */
  ghost predicate AfterWakeOk(published: seq<Byte>, next: Producer) {
    match next
    case PIdle => true
    case PLoop(call) => CallOk(published, call)
    case PDone => true
    case _ => false
  }

  ghost predicate Closing(p: Producer) {
    Gone(p) || (p.PBump? && p.next.PDone?) || (p.PWake? && p.next.PDone?)
  }

  /** A closed ring has a producer that sends no more. */
  ghost predicate ClosedOk(closed: bool, closeTail: nat, size: nat, seenClosed: bool, seenTail: nat,
                           producer: Producer, watchdog: Watchdog, swept: bool) {
    && (closed ==> Closing(producer) && closeTail == size)
    && (seenClosed ==> closed && closeTail <= seenTail)
    && (swept || watchdog != WIdle ==> Gone(producer) && closed)
    && (Closing(producer) && !producer.PCrashed? ==> closed)
  }

  /** A crash that the watchdog has not yet answered. */
  ghost predicate Unswept(producer: Producer, swept: bool) {
    producer.PCrashed? && !swept
  }

  /** No increment promises more than has happened. */
  ghost predicate LogSound(log: seq<Increment>, size: nat, closed: bool, closeTail: nat) {
    forall k | 0 <= k < |log| ::
      && log[k].tail <= size
      && (log[k].closed ==> closed && log[k].tail == closeTail)
  }

  /** The last increment announced everything, unless another is still due. */
  ghost predicate LogComplete(log: seq<Increment>, size: nat, closed: bool, seenClosed: bool,
                              producer: Producer, watchdog: Watchdog, swept: bool) {
    producer.PBump? || watchdog.WBump? || Unswept(producer, swept) ||
    (TailAt(log, |log|) == size && (closed ==> ClosedAt(log, |log|) || seenClosed))
  }

  /** The extra increments made so far: one for attaching, one for closing; the others follow the
      publication of bytes. */
  function Made(producer: Producer, attached: bool): nat {
    if producer.PCrashed? then 2
    else if producer == PBump(PIdle) then 0
    else (if attached then 1 else 0) + (if producer.PDone? || producer == PWake(PDone) then 1 else 0)
  }

  /** Between any two increments at least a byte was published, but for n of them. */
  ghost predicate Rising(log: seq<Increment>, n: nat) {
    forall k: nat | k <= |log| :: |log| - k + TailAt(log, k) <= TailAt(log, |log|) + n
  }

  /** What an increment that is due stands for. */
  ghost predicate BumpOk(producer: Producer, log: seq<Increment>, size: nat, attached: bool) {
    producer.PBump? ==>
      && (producer.next.PLoop? ==> TailAt(log, |log|) < size)
      && (producer.next.PIdle? ==> attached)
  }

  /** Until the watchdog joins in, the increments are bounded by the bytes. */
  ghost predicate Paced(producer: Producer, log: seq<Increment>, size: nat, attached: bool, swept: bool) {
    !swept ==> Rising(log, Made(producer, attached)) && BumpOk(producer, log, size, attached)
  }

  /** The increment after the sampled one came after everything consumed. */
  ghost predicate Recent(log: seq<Increment>, b: nat, consumed: nat) {
    b <= |log| && (b < |log| ==> consumed <= log[b].tail)
  }

  /** What the consumer knows of the increment it sampled. */
  ghost predicate ConsumerOk(consumer: Consumer, log: seq<Increment>, seenTail: nat, consumed: nat,
                             seenClosed: bool) {
    match consumer
    case CTestEmpty(_) => seenClosed
    case CRecheckTail(_, b) =>
      Recent(log, b, consumed) && TailAt(log, b) <= seenTail && (ClosedAt(log, b) ==> seenClosed)
    case CRecheckClosed(_, b) =>
      Recent(log, b, consumed) && TailAt(log, b) <= consumed && (ClosedAt(log, b) ==> seenClosed)
    case CWait(_, b) =>
      Recent(log, b, consumed) && TailAt(log, b) <= consumed && !ClosedAt(log, b) && !seenClosed
    case CParked(_, b, at) =>
      && b <= at <= |log| && Wrap32(at) == Wrap32(b)
      && TailAt(log, b) <= consumed && !ClosedAt(log, b) && !seenClosed
    case _ => true
  }

  /** The counter stands where it was sampled, not one or more turns later; unless the watchdog has
      gone on incrementing it for that long. */
  ghost predicate NoTurn(consumer: Consumer, cap: nat, swept: bool) {
    consumer.CParked? && cap <= TWO32 / 2 ==> consumer.at == consumer.b || swept
  }

  /** An increment made while the consumer is parked has its wake still to come. */
  ghost predicate WakeDue(consumer: Consumer, increments: nat, producer: Producer,
                          watchdog: Watchdog, swept: bool) {
    consumer.CParked? && consumer.at < increments ==>
      producer.PWake? || watchdog.WWake? || Unswept(producer, swept)
  }

  ghost predicate SentOk(published: seq<Byte>, sent: Sent) {
    sent.Sent? ==>
      && sent.k <= |sent.buf| && sent.start + sent.k <= |published|
      && published[sent.start..sent.start + sent.k] == sent.buf[..sent.k]
  }

  /** A recv asks for something, and copies something and no more than that. */
  ghost predicate RecvOk(consumer: Consumer, receiver: R.Receiver) {
    && (consumer.CCopying? <==> receiver.RCopying?)
    && (!consumer.CIdle? ==> consumer.call.len > 0)
    && (consumer.CCopying? ==> 0 < receiver.n <= consumer.call.len)
  }

  /** Everything but the contents of the ring. */
  ghost predicate Control(s: State) {
    var r, size := s.ring, |s.ring.published|;
    && R.Indices(r) && r.received == r.published[..|r.received|]
    && RecvOk(s.consumer, r.receiver)
    && (s.eof ==> r.closed && |r.received| == size)
    && s.wake == Wrap32(|s.log|)
    && ProducerOk(r.sender, r.published, s.producer)
    && ClosedOk(r.closed, s.closeTail, size, s.seenClosed, r.seenTail, s.producer, s.watchdog, s.swept)
    && LogSound(s.log, size, r.closed, s.closeTail)
    && LogComplete(s.log, size, r.closed, s.seenClosed, s.producer, s.watchdog, s.swept)
    && ConsumerOk(s.consumer, s.log, r.seenTail, |r.received|, s.seenClosed)
    && WakeDue(s.consumer, |s.log|, s.producer, s.watchdog, s.swept)
    && SentOk(r.published, s.sent)
    && Paced(s.producer, s.log, size, s.attached, s.swept)
    && NoTurn(s.consumer, r.cap, s.swept)
  }

  ghost predicate Inv(s: State) {
    R.Inv(s.ring) && Control(s)
  }

  // ---------------------------------------------------------------- proof, step by step

  /** The steps of the ring that a step performs: none, one or two. */
  ghost function RingSteps(s: State, e: Event): seq<R.Event>
    requires Enabled(s, e)
  {
    match e
    case P(p) => ProducerRingSteps(s, p)
    case C(c) => ConsumerRingSteps(s, c)
    case W(w) => if w.Sweep? then [R.MarkClosed] else []
  }

  ghost function ProducerRingSteps(s: State, e: PEvent): seq<R.Event>
    requires PEnabled(s, e)
  {
    match e
    case SendLoad(v) => [R.SendLoad(s.producer.call.buf[s.producer.call.total..], v)]
    case SendByte(i) => [R.SendByte(i)]
    case SendPublish => [R.SendPublish]
    case Close => [R.MarkClosed]
    case _ => []
  }

  ghost function ConsumerRingSteps(s: State, e: CEvent): seq<R.Event>
    requires CEnabled(s, e)
  {
    match e
    case RecvLoad(v) => [R.RecvLoad(s.consumer.call.len, v)]
    case RecvByte(i) => [R.RecvByte(i)]
    case RecvRelease => [R.RecvRelease]
    case LoadClosed(c) => if c then [R.RecvSync(CloseView(s))] else []
    case LoadTail(v) => [R.RecvSync(v)]
    case HangUp => [R.MarkClosed, R.RecvSync(CloseView(MarkClosed(s)))]
    case Sample(b) => [R.RecvSync(Max(s.ring.seenTail, TailAt(s.log, b)))]
    case RecheckTail(v) => [R.RecvSync(v)]
    case RecheckClosed(c) => if c then [R.RecvSync(CloseView(s))] else []
    case _ => []
  }

  lemma ProducerUsesRing(s: State, e: PEvent)
    requires PEnabled(s, e)
    ensures var es := ProducerRingSteps(s, e);
      R.Legal(s.ring, es) && PNext(s, e).ring == R.After(s.ring, es)
  {
    var es := ProducerRingSteps(s, e);
    if |es| == 1 {
      OneStep(s.ring, es[0]);
    }
  }

  lemma ConsumerUsesRing(s: State, e: CEvent)
    requires CEnabled(s, e)
    ensures var es := ConsumerRingSteps(s, e);
      R.Legal(s.ring, es) && CNext(s, e).ring == R.After(s.ring, es)
  {
    hide R.Next, R.Legal, R.After, CloseView;
    var es := ConsumerRingSteps(s, e);
    if e.HangUp? {
      TwoSteps(s.ring, R.MarkClosed, es[1]);
    } else if |es| == 1 {
      OneStep(s.ring, es[0]);
    } else {
      NoStep(s.ring);
    }
  }

  lemma NoStep(r: R.State)
    ensures R.Legal(r, []) && R.After(r, []) == r
  {
  }

  lemma TwoSteps(r: R.State, e: R.Event, e': R.Event)
    requires R.Enabled(r, e) && R.Enabled(R.Next(r, e), e')
    ensures R.Legal(r, [e, e']) && R.After(r, [e, e']) == R.Next(R.Next(r, e), e')
  {
    hide R.Next, R.Enabled;
    OneStep(R.Next(r, e), e');
    assert [e, e'][1..] == [e'];
  }

  /** The data plane uses the ring only through the ring's own steps. */
  lemma UsesRing(s: State, e: Event)
    requires Enabled(s, e)
    ensures R.Legal(s.ring, RingSteps(s, e))
    ensures Next(s, e).ring == R.After(s.ring, RingSteps(s, e))
  {
    match e
    case P(p) => ProducerUsesRing(s, p);
    case C(c) => ConsumerUsesRing(s, c);
    case W(w) => OneStep(s.ring, R.MarkClosed);
  }

  lemma OneStep(r: R.State, e: R.Event)
    requires R.Enabled(r, e)
    ensures R.Legal(r, [e]) && R.After(r, [e]) == R.Next(r, e)
  {
    assert [e][1..] == [];
  }

  /** What the load of send_some leads to. */
  lemma SendLoadDoes(s: State, v: nat)
    requires R.Indices(s.ring) && PEnabled(s, SendLoad(v))
    ensures var call, s' := s.producer.call, PNext(s, SendLoad(v));
      && s'.ring == s.ring.(seenHead := v, sender := s'.ring.sender)
      && v <= |s.ring.received| && |s.ring.published| <= v + s.ring.cap
      && (s'.ring.sender.SCopying? ==>
            && s' == s.(ring := s'.ring, producer := PCopying(call))
            && [] < s'.ring.sender.buf <= call.buf[call.total..])
      && (!s'.ring.sender.SCopying? ==>
            && s'.ring.sender == s.ring.sender
            && (s' == s.(ring := s'.ring) ||
                s' == s.(ring := s'.ring, producer := PIdle, sent := Sent(call.buf, call.start, call.total))))
  {
    hide Place, CEnabled, CNext;
    R.FreeIsExact(s.ring, v);
  }

  lemma SendLoadKeeps(s: State, v: nat)
    requires Control(s) && PEnabled(s, SendLoad(v))
    ensures Control(PNext(s, SendLoad(v)))
  {
    hide Place, PNext, LogSound, ConsumerOk, TailAt, ClosedAt, Rising;
    SendLoadDoes(s, v);
    var call := s.producer.call;
    assert s.ring.published[call.start..call.start + call.total] == s.ring.published[call.start..];
  }

  /** Publishing carries the call forward. */
  lemma CallGoesOn(published: seq<Byte>, call: SendCall, buf: seq<Byte>)
    requires CallOk(published, call) && buf <= call.buf[call.total..]
    ensures CallOk(published + buf, call.(total := call.total + |buf|))
  {
    assert buf == call.buf[call.total..][..|buf|];
    assert call.buf[..call.total + |buf|] == call.buf[..call.total] + buf;
    assert (published + buf)[call.start..] == published[call.start..] + buf;
  }

  lemma SentStays(published: seq<Byte>, sent: Sent, buf: seq<Byte>)
    requires SentOk(published, sent)
    ensures SentOk(published + buf, sent)
  {
    if sent.Sent? {
      assert (published + buf)[sent.start..sent.start + sent.k] == published[sent.start..sent.start + sent.k];
    }
  }

  lemma PublishDoes(s: State)
    requires Inv(s) && PEnabled(s, SendPublish)
    ensures var call, buf, s' := s.producer.call, s.ring.sender.buf, PNext(s, SendPublish);
      && s'.ring == s.ring.(tail := s'.ring.tail, published := s.ring.published + buf, sender := R.SIdle)
      && s' == s.(ring := s'.ring, producer := PBump(PLoop(call.(total := call.total + |buf|))))
      && R.Indices(s'.ring)
  {
    hide Place;
    PlaceAdd(|s.ring.published|, |s.ring.sender.buf|, TWO64);
  }

  lemma PublishKeeps(s: State)
    requires Inv(s) && PEnabled(s, SendPublish)
    ensures Control(PNext(s, SendPublish))
  {
    hide Place, PNext, R.Inv, CallOk, SentOk, Rising, TailAt, ClosedAt, R.Indices;
    PublishDoes(s);
    var call, buf := s.producer.call, s.ring.sender.buf;
    CallGoesOn(s.ring.published, call, buf);
    SentStays(s.ring.published, s.sent, buf);
    RestOk(s);
  }

  /** The received bytes are a prefix of the published ones. */
  lemma RestOk(s: State)
    requires Control(s)
    ensures |s.ring.received| <= |s.ring.published|
    ensures forall more: seq<Byte> :: s.ring.received <= s.ring.published + more
  {
  }

  lemma ReturnKeeps(s: State)
    requires Control(s) && PEnabled(s, SendReturn)
    ensures Control(PNext(s, SendReturn))
  {
    var call := s.producer.call;
    assert s.ring.published[call.start..call.start + call.total] == s.ring.published[call.start..];
  }

  lemma CloseKeeps(s: State)
    requires Control(s) && PEnabled(s, Close)
    ensures Control(PNext(s, Close))
  {
    hide Place, ConsumerOk, Rising;
  }

  lemma RisingMore(log: seq<Increment>, n: nat, n': nat)
    requires Rising(log, n) && n <= n'
    ensures Rising(log, n')
  {
    forall k: nat | k <= |log|
      ensures |log| - k + TailAt(log, k) <= TailAt(log, |log|) + n'
    {
      assert |log| - k + TailAt(log, k) <= TailAt(log, |log|) + n;
    }
  }

  lemma ProducerStepKeeps(s: State, e: PEvent)
    requires Control(s) && PEnabled(s, e)
    requires e.Send? || e.SendByte? || e.AttachBump? || e.Crash?
    ensures Control(PNext(s, e))
  {
    hide Place, ConsumerOk, TailAt, ClosedAt, Rising, LogSound;
    if e.Send? {
      assert s.ring.published[|s.ring.published|..] == e.buf[..0];
    } else if e.Crash? && !s.swept {
      RisingMore(s.log, Made(s.producer, s.attached), Made(PCrashed, s.attached));
    }
  }

  /** What one more increment does to everything said of the log. */
  lemma LogGrows(log: seq<Increment>, inc: Increment)
    ensures var log' := log + [inc];
      && (forall b: nat | b <= |log| :: TailAt(log', b) == TailAt(log, b) && ClosedAt(log', b) == ClosedAt(log, b))
      && TailAt(log', |log'|) == inc.tail && ClosedAt(log', |log'|) == inc.closed
  {
  }

  lemma SoundGrows(log: seq<Increment>, size: nat, closed: bool, closeTail: nat)
    requires LogSound(log, size, closed, closeTail) && (closed ==> closeTail == size)
    ensures LogSound(log + [Increment(size, closed)], size, closed, closeTail) && TailAt(log, |log|) <= size
  {
  }

  lemma ConsumerGrows(consumer: Consumer, log: seq<Increment>, inc: Increment, seenTail: nat, consumed: nat, seenClosed: bool)
    requires ConsumerOk(consumer, log, seenTail, consumed, seenClosed) && consumed <= inc.tail
    ensures ConsumerOk(consumer, log + [inc], seenTail, consumed, seenClosed)
  {
    hide Place;
    LogGrows(log, inc);
  }

  lemma RisingGrows(log: seq<Increment>, inc: Increment, n: nat, n': nat)
    requires Rising(log, n) && TailAt(log, |log|) <= inc.tail && n <= n'
    requires TailAt(log, |log|) < inc.tail || n < n'
    ensures Rising(log + [inc], n')
  {
    LogGrows(log, inc);
    var log' := log + [inc];
    forall k: nat | k <= |log'|
      ensures |log'| - k + TailAt(log', k) <= TailAt(log', |log'|) + n'
    {
      if k <= |log| {
        assert |log| - k + TailAt(log, k) <= TailAt(log, |log|) + n;
      }
    }
  }

  /** The parts of the invariant that an increment touches, whoever makes it. */
  lemma IncrementKeeps(s: State)
    requires Control(s)
    ensures var r, s' := s.ring, Incremented(s); var size := |r.published|;
      && s'.wake == Wrap32(|s'.log|) && TailAt(s.log, |s.log|) <= size
      && TailAt(s'.log, |s'.log|) == size && ClosedAt(s'.log, |s'.log|) == r.closed
      && LogSound(s'.log, size, r.closed, s.closeTail)
      && ConsumerOk(s.consumer, s'.log, r.seenTail, |r.received|, s.seenClosed)
  {
    hide Place, LogSound, ConsumerOk, Paced;
    PlaceAdd(|s.log|, 1, TWO32);
    var inc := Increment(|s.ring.published|, s.ring.closed);
    LogGrows(s.log, inc);
    SoundGrows(s.log, |s.ring.published|, s.ring.closed, s.closeTail);
    ConsumerGrows(s.consumer, s.log, inc, s.ring.seenTail, |s.ring.received|, s.seenClosed);
  }

  /** An increment completes the log and leaves a parked consumer with a wake due. */
  lemma BumpKeeps(s: State)
    requires Control(s) && PEnabled(s, Bump)
    ensures Control(PNext(s, Bump))
  {
    hide Place, LogSound, ConsumerOk, Rising, TailAt, ClosedAt;
    IncrementKeeps(s);
    if !s.swept {
      RisingGrows(s.log, Increment(|s.ring.published|, s.ring.closed),
                  Made(s.producer, s.attached), Made(PWake(s.producer.next), s.attached));
    }
  }

  lemma WakeKeeps(s: State)
    requires Control(s) && PEnabled(s, Wake)
    ensures Control(PNext(s, Wake))
  {
  }

  lemma SweepKeeps(s: State)
    requires Control(s) && WEnabled(s, Sweep)
    ensures Control(WNext(s, Sweep))
  {
    hide Place, ConsumerOk, Rising;
  }

  lemma SweepBumpKeeps(s: State)
    requires Control(s) && WEnabled(s, SweepBump)
    ensures Control(WNext(s, SweepBump))
  {
    hide Place, LogSound, ConsumerOk, Rising, TailAt, ClosedAt;
    IncrementKeeps(s);
  }

  lemma SweepWakeKeeps(s: State)
    requires Control(s) && WEnabled(s, SweepWake)
    ensures Control(WNext(s, SweepWake))
  {
    hide Place, LogSound, Paced, R.Indices;
  }

  lemma WatchdogKeeps(s: State, e: WEvent)
    requires Control(s) && WEnabled(s, e)
    ensures Control(WNext(s, e))
  {
    hide Control, WNext;
    match e
    case Sweep => SweepKeeps(s);
    case SweepBump => SweepBumpKeeps(s);
    case SweepWake => SweepWakeKeeps(s);
  }

  lemma RecvStepKeeps(s: State, e: CEvent)
    requires Control(s) && CEnabled(s, e)
    requires e.Recv? || e.RecvLoad? || e.RecvByte? || e.RecvRelease?
    requires R.Inv(CNext(s, e).ring)
    ensures Control(CNext(s, e))
  {
    hide Place, ProducerOk, SentOk, Paced, LogSound, LogComplete, R.SenderOk, R.ReceiverOk;
  }

  lemma LoadClosedKeeps(s: State, c: bool)
    requires Control(s) && CEnabled(s, LoadClosed(c))
    ensures Control(CNext(s, LoadClosed(c)))
  {
  }

  /** End of file is reported only on a drained stream. */
  lemma LoadTailKeeps(s: State, v: nat)
    requires Control(s) && CEnabled(s, LoadTail(v))
    ensures Control(CNext(s, LoadTail(v)))
  {
    R.AvailIsExact(s.ring, v);
  }

  lemma HangUpKeeps(s: State)
    requires Control(s) && CEnabled(s, HangUp)
    ensures Control(CNext(s, HangUp))
  {
    hide Place;
  }

  /** A consumer that holds no sample and copies nothing is bound by nothing. */
  lemma MovesOn(s: State, c: Consumer, a: Answer)
    requires Control(s) && !s.consumer.CCopying?
    requires c.CIdle? || ((c.CTry? || c.CBlocked? || c.CSample?) && c.call.len > 0)
    ensures Control(s.(consumer := c, answer := a))
  {
    hide Place, R.Indices, ProducerOk, ClosedOk, LogSound, LogComplete, SentOk, Paced;
  }

  lemma AsksForSomething(s: State)
    requires Control(s)
    ensures !s.consumer.CIdle? ==> s.consumer.call.len > 0
  {
  }

  lemma DecideKeeps(s: State)
    requires Control(s) && CEnabled(s, Decide)
    ensures Control(CNext(s, Decide))
  {
    hide Control;
    var s' := CNext(s, Decide);
    AsksForSomething(s);
    assert s.consumer.CBlocked? && s' == s.(consumer := s'.consumer, answer := s'.answer);
    MovesOn(s, s'.consumer, s'.answer);
  }

  /** Seeing more of the tail. */
  lemma SyncKeeps(s: State, v: nat)
    requires Control(s) && R.Enabled(s.ring, R.RecvSync(v))
    ensures R.Next(s.ring, R.RecvSync(v)) == s.ring.(seenTail := v)
    ensures Control(s.(ring := s.ring.(seenTail := v))) && s.ring.seenTail <= v <= |s.ring.published|
  {
    hide Place, ProducerOk, LogSound, LogComplete, SentOk, Paced;
  }

  lemma SampleKeeps(s: State, b: nat)
    requires Control(s) && CEnabled(s, Sample(b))
    ensures Control(CNext(s, Sample(b)))
  {
  }

  /** An empty ring after the sample: all that the sampled increment announced is consumed. */
  lemma RecheckTailKeeps(s: State, v: nat)
    requires Control(s) && CEnabled(s, RecheckTail(v))
    ensures Control(CNext(s, RecheckTail(v)))
  {
    hide Place, R.Next, Control;
    SyncKeeps(s, v);
    SeenIsConsumed(s, v);
    var synced := s.(ring := s.ring.(seenTail := v));
    if R.Avail(s.ring, v) > 0 {
      AsksForSomething(s);
      MovesOn(synced, CTry(s.consumer.call.(spin := 0)), s.answer);
    } else {
      NothingNew(synced);
    }
  }

  lemma SeenIsConsumed(s: State, v: nat)
    requires Control(s) && R.Enabled(s.ring, R.RecvSync(v))
    ensures R.Avail(s.ring, v) == 0 <==> v == |s.ring.received|
  {
    R.AvailIsExact(s.ring, v);
  }

  lemma NothingNew(s: State)
    requires Control(s) && s.consumer.CRecheckTail? && s.ring.seenTail == |s.ring.received|
    ensures Control(s.(consumer := CRecheckClosed(s.consumer.call, s.consumer.b)))
  {
    hide Place, R.Indices, ProducerOk, ClosedOk, LogSound, LogComplete, SentOk, Paced;
  }

  lemma RecheckClosedKeeps(s: State, c: bool)
    requires Control(s) && CEnabled(s, RecheckClosed(c))
    ensures Control(CNext(s, RecheckClosed(c)))
  {
  }

  lemma FutexWaitKeeps(s: State)
    requires Control(s) && CEnabled(s, FutexWait)
    ensures Control(CNext(s, FutexWait))
  {
    hide Place, ProducerOk, ClosedOk, LogSound, LogComplete, SentOk, Paced;
    if !s.swept && s.ring.cap <= TWO32 / 2 && s.wake == Wrap32(s.consumer.b) {
      FewIncrements(s);
      SameWord32(s.consumer.b, |s.log|);
    }
  }

  /** The capacity of the ring bounds the increments since the sample, as nothing was consumed. */
  lemma FewIncrements(s: State)
    requires Control(s) && s.consumer.CWait? && !s.swept
    ensures |s.log| - s.consumer.b <= s.ring.cap + 3
  {
    hide Place, ProducerOk, ClosedOk, LogComplete, SentOk;
    var log, b := s.log, s.consumer.b;
    if b < |log| {
      assert |log| - (b + 1) + TailAt(log, b + 1) <= TailAt(log, |log|) + Made(s.producer, s.attached);
    }
  }

  lemma ProducerKeeps(s: State, e: PEvent)
    requires Inv(s) && PEnabled(s, e)
    ensures Control(PNext(s, e))
  {
    match e
    case SendLoad(v) => SendLoadKeeps(s, v);
    case SendPublish => PublishKeeps(s);
    case SendReturn => ReturnKeeps(s);
    case Bump => BumpKeeps(s);
    case Wake => WakeKeeps(s);
    case Close => CloseKeeps(s);
    case _ => ProducerStepKeeps(s, e);
  }

  lemma EmptyRingKeeps(s: State, e: CEvent)
    requires Control(s) && CEnabled(s, e)
    requires e.LoadClosed? || e.LoadTail? || e.HangUp? || e.Decide?
    ensures Control(CNext(s, e))
  {
    match e
    case LoadClosed(c) => LoadClosedKeeps(s, c);
    case LoadTail(v) => LoadTailKeeps(s, v);
    case HangUp => HangUpKeeps(s);
    case Decide => DecideKeeps(s);
  }

  lemma ParkingKeeps(s: State, e: CEvent)
    requires Control(s) && CEnabled(s, e)
    requires e.Sample? || e.RecheckTail? || e.RecheckClosed? || e.FutexWait? || e.Timeout?
    ensures Control(CNext(s, e))
  {
    match e
    case Sample(b) => SampleKeeps(s, b);
    case RecheckTail(v) => RecheckTailKeeps(s, v);
    case RecheckClosed(c) => RecheckClosedKeeps(s, c);
    case FutexWait => FutexWaitKeeps(s);
    case Timeout =>
  }

  lemma ConsumerKeeps(s: State, e: CEvent)
    requires Inv(s) && CEnabled(s, e) && R.Inv(CNext(s, e).ring)
    ensures Control(CNext(s, e))
  {
    if e.LoadClosed? || e.LoadTail? || e.HangUp? || e.Decide? {
      EmptyRingKeeps(s, e);
    } else if e.Sample? || e.RecheckTail? || e.RecheckClosed? || e.FutexWait? || e.Timeout? {
      ParkingKeeps(s, e);
    } else {
      RecvStepKeeps(s, e);
    }
  }

  /** Every step of every party keeps the invariant. */
  lemma StepKeeps(s: State, e: Event)
    requires Inv(s) && Enabled(s, e)
    ensures Inv(Next(s, e))
  {
    UsesRing(s, e);
    R.RunKeeps(s.ring, RingSteps(s, e));
    match e
    case P(p) => ProducerKeeps(s, p);
    case C(c) => ConsumerKeeps(s, c);
    case W(w) => WatchdogKeeps(s, w);
  }

  // ---------------------------------------------------------------- runs

  ghost predicate Legal(s: State, es: seq<Event>)
    decreases |es|
  {
    es == [] || (Enabled(s, es[0]) && Legal(Next(s, es[0]), es[1..]))
  }

  ghost function After(s: State, es: seq<Event>): State
    requires Legal(s, es)
    decreases |es|
  {
    if es == [] then s else After(Next(s, es[0]), es[1..])
  }

  lemma {:induction false} RunKeeps(s: State, es: seq<Event>)
    requires Inv(s) && Legal(s, es)
    ensures Inv(After(s, es))
    decreases |es|
  {
    hide Inv, Next, Enabled;
    if es != [] {
      StepKeeps(s, es[0]);
      RunKeeps(Next(s, es[0]), es[1..]);
    }
  }

  lemma InitInv(s: State)
    requires Init(s)
    ensures Inv(s)
  {
  }

  /** A recv in progress can always take a step, in particular every load can return the value
      that is in memory; so the steps above restrict no run of the code. */
  lemma ConsumerNeverStuck(s: State) returns (e: CEvent)
    requires Inv(s) && !s.consumer.CIdle?
    ensures CEnabled(s, e) && !e.HangUp?
    ensures s.consumer.CTry? ==> e == RecvLoad(|s.ring.published|)
    ensures s.consumer.CTestClosed? ==> e == LoadClosed(s.ring.closed)
    ensures s.consumer.CTestEmpty? ==> e == LoadTail(|s.ring.published|)
    ensures s.consumer.CSample? ==> e == Sample(|s.log|)
    ensures s.consumer.CRecheckTail? ==> e == RecheckTail(|s.ring.published|)
    ensures s.consumer.CRecheckClosed? ==> e == RecheckClosed(s.ring.closed)
  {
    hide Place, ProducerOk, SentOk, Paced, LogComplete, WakeDue, NoTurn, R.Stored;
    match s.consumer
    case CTry(_) => e := RecvLoad(|s.ring.published|);
    case CCopying(_) =>
      var r := s.ring.receiver;
      if i :| 0 <= i < r.n && i !in r.got {
        R.SlotOfCount(s.ring.cap, |s.ring.received|, i);
        e := RecvByte(i);
      } else {
        e := RecvRelease;
      }
    case CTestClosed(_) => e := LoadClosed(s.ring.closed);
    case CTestEmpty(_) => e := LoadTail(|s.ring.published|);
    case CBlocked(_) => e := Decide;
    case CSample(_) => e := Sample(|s.log|);
    case CRecheckTail(_, _) => e := RecheckTail(|s.ring.published|);
    case CRecheckClosed(_, _) => e := RecheckClosed(s.ring.closed);
    case CWait(_, _) => e := FutexWait;
    case CParked(_, _, _) => e := Timeout;
  }

  /** Somebody still has to increment the counter, or to call FUTEX_WAKE after doing so; after a
      crash that is the watchdog's next sweep. Only the watchdog can have made the counter come round
      while the consumer was about to wait, in 2^32 sweeps that found the peer gone; so will the next. */
  ghost predicate WakePending(s: State) {
    || s.producer.PBump? || s.producer.PWake?
    || s.watchdog.WBump? || s.watchdog.WWake?
    || Unswept(s.producer, s.swept)
    || (s.swept && Gone(s.producer) && s.consumer.CParked? && s.consumer.at - s.consumer.b >= TWO32)
  }

  /** No lost wakeup: whenever the consumer is parked although there is something to read or the
      ring is closed, a wake is on its way. A send increments the counter once per publication and
      the consumer takes nothing between its sample and FUTEX_WAIT, so the capacity keeps the 32-bit
      counter from coming round in between. */
  lemma NoLostWakeup(s0: State, es: seq<Event>)
    requires Init(s0) && Legal(s0, es) && s0.ring.cap <= TWO32 / 2
    requires var s := After(s0, es);
      s.consumer.CParked? && (|s.ring.received| < |s.ring.published| || s.ring.closed)
    ensures WakePending(After(s0, es))
  {
    hide Place;
    InitInv(s0);
    RunKeeps(s0, es);
    SameCap(s0, es);
    var s := After(s0, es);
    if s.consumer.at - s.consumer.b < TWO32 {
      SameWord32(s.consumer.b, s.consumer.at);
    }
  }

  lemma {:induction false} SameCap(s: State, es: seq<Event>)
    requires Legal(s, es)
    ensures After(s, es).ring.cap == s.ring.cap
    decreases |es|
  {
    hide Next, Enabled;
    if es != [] {
      StepKeepsCap(s, es[0]);
      SameCap(Next(s, es[0]), es[1..]);
    }
  }

  lemma StepKeepsCap(s: State, e: Event)
    requires Enabled(s, e)
    ensures Next(s, e).ring.cap == s.ring.cap
  {
    hide Next, Enabled, R.Next, R.Enabled;
    UsesRing(s, e);
    RingKeepsCap(s.ring, RingSteps(s, e));
  }

  lemma {:induction false} RingKeepsCap(r: R.State, es: seq<R.Event>)
    requires R.Legal(r, es)
    ensures R.After(r, es).cap == r.cap
    decreases |es|
  {
    hide R.Free, R.Avail, R.Slot, R.Copied;
    if es != [] {
      RingKeepsCap(R.Next(r, es[0]), es[1..]);
    }
  }

  lemma SweepOut(s: State) returns (es: seq<Event>)
    requires s.consumer.CParked? && s.watchdog.WBump?
    ensures es == [W(SweepBump), W(SweepWake)] && Legal(s, es)
    ensures After(s, es).consumer == CTry(s.consumer.call.(spin := 0))
  {
    hide CEnabled, CNext, PEnabled, PNext, R.Next, Wrap32;
    es := [W(SweepBump), W(SweepWake)];
    assert es[1..] == [W(SweepWake)];
  }

  /** A pending wake arrives without any help from the consumer and ends its wait. */
  lemma PendingWakeArrives(s: State) returns (es: seq<Event>)
    requires s.consumer.CParked? && WakePending(s)
    ensures Legal(s, es) && (forall e | e in es :: !e.C?)
    ensures After(s, es).consumer == CTry(s.consumer.call.(spin := 0))
  {
    hide CEnabled, CNext, R.Next, Wrap32;
    if s.producer.PWake? {
      es := [P(Wake)];
    } else if s.producer.PBump? {
      es := [P(Bump), P(Wake)];
      assert es[1..] == [P(Wake)];
    } else if s.watchdog.WWake? {
      es := [W(SweepWake)];
    } else if s.watchdog.WBump? {
      es := SweepOut(s);
    } else {
      es := SweepOut(WNext(s, Sweep));
      es := [W(Sweep)] + es;
      assert es[1..] == [W(SweepBump), W(SweepWake)];
    }
  }

  /** Closing the segment closes the ring with all that was published, bumps the counter, and wakes whoever
      is parked. */
  lemma CloseGoesThrough(s: State) returns (es: seq<Event>)
    requires s.producer.PIdle?
    ensures Legal(s, es) && forall e | e in es :: e.P?
    ensures var t := After(s, es);
      && t.producer.PDone? && t.ring.closed && t.wake == Wrap32(s.wake + 1)
      && t.ring.published == s.ring.published && t.ring.received == s.ring.received
      && t.consumer == if s.consumer.CParked? then CTry(s.consumer.call.(spin := 0)) else s.consumer
  {
    hide CEnabled, CNext, Wrap32;
    es := [P(Close), P(Bump), P(Wake)];
    assert es[1..] == [P(Bump), P(Wake)];
    assert es[1..][1..] == [P(Wake)];
  }

  /** Once its peer has gone, the watchdog's next sweep closes the ring, bumps the counter, wakes whoever
      is parked, and is ready for the next. */
  lemma SweepGoesThrough(s: State) returns (es: seq<Event>)
    requires s.watchdog.WIdle? && Gone(s.producer)
    ensures Legal(s, es) && forall e | e in es :: e.W?
    ensures var t := After(s, es);
      && t.watchdog.WIdle? && t.ring.closed && t.wake == Wrap32(s.wake + 1)
      && t.ring.published == s.ring.published && t.ring.received == s.ring.received
      && t.consumer == if s.consumer.CParked? then CTry(s.consumer.call.(spin := 0)) else s.consumer
  {
    hide CEnabled, CNext, Wrap32;
    es := [W(Sweep), W(SweepBump), W(SweepWake)];
    assert es[1..] == [W(SweepBump), W(SweepWake)];
    assert es[1..][1..] == [W(SweepWake)];
  }

  lemma ClosedMeans(s: State)
    requires Inv(s) && s.ring.closed
    ensures Closing(s.producer)
  {
    hide R.Inv, R.Indices, ProducerOk, LogSound, LogComplete, ConsumerOk, WakeDue, SentOk;
  }

  ghost predicate Final(s: State, s': State) {
    s'.ring.closed && s'.ring.published == s.ring.published && (s.eof ==> s'.eof)
  }

  lemma ProducerClosed(s: State, p: PEvent)
    requires Closing(s.producer) && s.ring.closed && PEnabled(s, p)
    ensures Final(s, PNext(s, p))
  {
    hide R.Next, R.Enabled;
  }

  lemma ConsumerClosed(s: State, c: CEvent)
    requires s.ring.closed && CEnabled(s, c)
    ensures Final(s, CNext(s, c))
  {
    hide R.Next, R.Enabled, R.Legal, R.After;
    ConsumerUsesRing(s, c);
    PublishesNothing(s.ring, ConsumerRingSteps(s, c));
  }

  lemma {:induction false} PublishesNothing(r: R.State, es: seq<R.Event>)
    requires R.Legal(r, es) && forall e | e in es :: !e.SendPublish?
    ensures R.After(r, es).published == r.published && (r.closed ==> R.After(r, es).closed)
    decreases |es|
  {
    hide R.Free, R.Avail, R.Slot, R.Copied;
    if es != [] {
      assert es[0] in es;
      PublishesNothing(R.Next(r, es[0]), es[1..]);
    }
  }

  lemma WatchdogClosed(s: State, w: WEvent)
    requires s.ring.closed && WEnabled(s, w)
    ensures Final(s, WNext(s, w))
  {
  }

  /** A closed ring stays closed and its stream does not grow. */
  lemma ClosedStays(s: State, e: Event)
    requires Closing(s.producer) && s.ring.closed && Enabled(s, e)
    ensures Final(s, Next(s, e))
  {
    hide PEnabled, PNext, CEnabled, CNext, WEnabled, WNext;
    match e
    case P(p) => ProducerClosed(s, p);
    case C(c) => ConsumerClosed(s, c);
    case W(w) => WatchdogClosed(s, w);
  }

  lemma {:induction false} ClosedIsFinal(s: State, es: seq<Event>)
    requires Inv(s) && s.ring.closed && Legal(s, es)
    ensures After(s, es).ring.published == s.ring.published
    decreases |es|
  {
    hide Inv, Next, Enabled;
    if es != [] {
      StepKeeps(s, es[0]);
      ClosedMeans(s);
      ClosedStays(s, es[0]);
      ClosedIsFinal(Next(s, es[0]), es[1..]);
    }
  }

  /** End of file is exact: once a recv has returned 0 the ring is closed and everything the
      producer ever published has been consumed, and no continuation of the run adds to it. */
  lemma EofExact(s0: State, es: seq<Event>, more: seq<Event>)
    requires Init(s0) && Legal(s0, es) && After(s0, es).eof && Legal(After(s0, es), more)
    ensures After(s0, es).ring.closed
    ensures After(s0, es).ring.received == After(s0, es).ring.published
    ensures After(After(s0, es), more).ring.published == After(s0, es).ring.published
  {
    InitInv(s0);
    RunKeeps(s0, es);
    ClosedIsFinal(After(s0, es), more);
  }

  /** What the last send reported stays in the stream: k bytes of the caller's buffer, in order and
      contiguous, whatever runs after. */
  lemma SentStaysInStream(s0: State, es: seq<Event>)
    requires Init(s0) && Legal(s0, es) && After(s0, es).sent.Sent?
    ensures var s := After(s0, es);
      && s.sent.k <= |s.sent.buf|
      && s.sent.start + s.sent.k <= |s.ring.published|
      && s.ring.published[s.sent.start..s.sent.start + s.sent.k] == s.sent.buf[..s.sent.k]
  {
    InitInv(s0);
    RunKeeps(s0, es);
  }

  // ---------------------------------------------------------------- a run in which it matters

  lemma {:induction false} OneMore(s: State, es: seq<Event>, t: State, e: Event)
    requires Legal(s, es) && After(s, es) == t && Enabled(t, e)
    ensures Legal(s, es + [e]) && After(s, es + [e]) == Next(t, e)
    decreases |es|
  {
    hide Enabled, Next;
    if es == [] {
      assert [] + [e] == [e] && [e][1..] == [];
    } else {
      OneMore(Next(s, es[0]), es[1..], t, e);
      assert (es + [e])[0] == es[0] && (es + [e])[1..] == es[1..] + [e];
    }
  }

  /** A new ring, with the consumer anywhere in a call. */
  ghost function Waiting(s0: State, c: Consumer): State {
    s0.(consumer := c)
  }

  lemma EmptyTry(s0: State)
    requires Init(s0)
    ensures R.Enabled(s0.ring, R.RecvLoad(1, 0)) && R.Next(s0.ring, R.RecvLoad(1, 0)) == s0.ring
    ensures R.Enabled(s0.ring, R.RecvSync(0)) && R.Next(s0.ring, R.RecvSync(0)) == s0.ring && R.Avail(s0.ring, 0) == 0
  {
    assert R.Avail(s0.ring, 0) == 0;
  }

  lemma SpinOnce(s0: State, es: seq<Event>, k: nat) returns (es': seq<Event>)
    requires Init(s0) && k <= SPIN_LIMIT
    requires Legal(s0, es) && After(s0, es) == Waiting(s0, CTry(RecvCall(1, false, k)))
    ensures Legal(s0, es')
    ensures After(s0, es') ==
      Waiting(s0, if k < SPIN_LIMIT then CTry(RecvCall(1, false, k + 1)) else CSample(RecvCall(1, false, k)))
  {
    hide Legal, After, R.Enabled, R.Next, R.Avail;
    var call := RecvCall(1, false, k);
    EmptyTry(s0);
    OneMore(s0, es, Waiting(s0, CTry(call)), C(RecvLoad(0)));
    es' := es + [C(RecvLoad(0))];
    OneMore(s0, es', Waiting(s0, CTestClosed(call)), C(LoadClosed(false)));
    es' := es' + [C(LoadClosed(false))];
    OneMore(s0, es', Waiting(s0, CBlocked(call)), C(Decide));
    es' := es' + [C(Decide)];
  }

  /** A consumer on an empty ring spins, samples and parks. */
  lemma ConsumerParks(s0: State) returns (es: seq<Event>)
    requires Init(s0)
    ensures Legal(s0, es)
    ensures After(s0, es) == Waiting(s0, CParked(RecvCall(1, false, SPIN_LIMIT), 0, 0))
  {
    hide Legal, After, R.Enabled, R.Next, R.Avail, R.Init;
    es := [];
    assert Legal(s0, []) && After(s0, []) == s0 by { NoSteps(s0); }
    OneMore(s0, es, s0, C(Recv(1, false)));
    es := [] + [C(Recv(1, false))];
    var k := 0;
    while k < SPIN_LIMIT
      invariant 0 <= k <= SPIN_LIMIT && Legal(s0, es) && After(s0, es) == Waiting(s0, CTry(RecvCall(1, false, k)))
    {
      es := SpinOnce(s0, es, k);
      k := k + 1;
    }
    es := SpinOnce(s0, es, k);
    es := SampleAndPark(s0, es);
  }

  lemma SampleAndPark(s0: State, es: seq<Event>) returns (es': seq<Event>)
    requires Init(s0) && Legal(s0, es) && After(s0, es) == Waiting(s0, CSample(RecvCall(1, false, SPIN_LIMIT)))
    ensures Legal(s0, es')
    ensures After(s0, es') == Waiting(s0, CParked(RecvCall(1, false, SPIN_LIMIT), 0, 0))
  {
    hide Legal, After, R.Enabled, R.Next, R.Avail;
    var call := RecvCall(1, false, SPIN_LIMIT);
    EmptyTry(s0);
    OneMore(s0, es, Waiting(s0, CSample(call)), C(Sample(0)));
    es' := es + [C(Sample(0))];
    OneMore(s0, es', Waiting(s0, CRecheckTail(call, 0)), C(RecheckTail(0)));
    es' := es' + [C(RecheckTail(0))];
    OneMore(s0, es', Waiting(s0, CRecheckClosed(call, 0)), C(RecheckClosed(false)));
    es' := es' + [C(RecheckClosed(false))];
    OneMore(s0, es', Waiting(s0, CWait(call, 0)), C(FutexWait));
    es' := es' + [C(FutexWait)];
  }

  lemma NoSteps(s: State)
    ensures Legal(s, []) && After(s, []) == s
  {
  }

  /** The situation NoLostWakeup speaks of does arise: a byte is published after the consumer has
      parked, and the increment that will wake it is still to come. */
  lemma ParkedWithDataArises(s0: State, x: Byte) returns (es: seq<Event>)
    requires Init(s0)
    ensures Legal(s0, es)
    ensures var s := After(s0, es);
      s.consumer.CParked? && s.ring.published == [x] && s.ring.received == [] && s.producer.PBump?
  {
    hide Legal, After;
    es := ConsumerParks(s0);
    var t := After(s0, es);
    OneMore(s0, es, t, P(Send([x], false)));
    es, t := es + [P(Send([x], false))], Next(t, P(Send([x], false)));
    assert [x][0..] == [x];
    assert R.Free(t.ring, 0) == t.ring.cap;
    OneMore(s0, es, t, P(SendLoad(0)));
    es, t := es + [P(SendLoad(0))], Next(t, P(SendLoad(0)));
    assert [x][..1] == [x];
    assert R.Slot(t.ring.cap, t.ring.sender.t, 0) == 0;
    OneMore(s0, es, t, P(SendByte(0)));
    es, t := es + [P(SendByte(0))], Next(t, P(SendByte(0)));
    OneMore(s0, es, t, P(SendPublish));
    es, t := es + [P(SendPublish)], Next(t, P(SendPublish));
  }
}
