/** ShmRing as a step system. One process runs send_some, the other recv_some, and every index
    load, byte copy and index store is a step of its own, so a run is an arbitrary interleaving.
    A side may load an older value of the other side's index, never one older than a value it
    has loaded before. The bytes of one memcpy are copied in any order.

    `published` and `received` record the bytes whose index store has happened; everything the
    code itself computes, it computes from the 64-bit words `tail` and `head`. */
module RingProtocol {
  import opened Common
  import opened Modular

  /** A send_some call after its loads: `buf` holds the n bytes it decided to copy. */
  datatype Sender = SIdle | SCopying(buf: seq<Byte>, t: U64, done: set<nat>)

  /** A recv_some call after its loads. `got` holds the bytes copied out so far. */
  datatype Receiver = RIdle | RCopying(h: U64, n: nat, got: map<nat, Byte>)

  datatype State = State(
    cap: nat,
    tail: U64, head: U64, closed: bool, data: seq<Byte>,
    sender: Sender, receiver: Receiver,
    seenHead: nat, seenTail: nat,
    published: seq<Byte>, received: seq<Byte>)

  datatype Event =
    | SendLoad(bytes: seq<Byte>, v: nat)  // load tail and head, v the head count that is seen
    | SendByte(i: nat)
    | SendPublish
    | RecvLoad(len: nat, v: nat)          // load tail and head, v the tail count that is seen
    | RecvByte(i: nat)
    | RecvRelease
    | RecvSync(v: nat)                    // the receiver sees the tail at v outside recv_some
    | MarkClosed

  predicate ValidCap(cap: nat) {
    PowerOfTwo(cap) && 4096 <= cap < TWO64
  }

  predicate Init(s: State) {
    && ValidCap(s.cap) && |s.data| == s.cap
    && s.tail == 0 && s.head == 0 && !s.closed
    && s.sender == SIdle && s.receiver == RIdle
    && s.seenHead == 0 && s.seenTail == 0
    && s.published == [] && s.received == []
  }

  /** The byte offset of the i-th byte of a transfer that starts at index idx: the first memcpy
      runs from idx & kMask to the end of the buffer, the second from its beginning. */
  function Slot(cap: nat, idx: nat, i: nat): int
    requires cap > 0
  {
    var off := Place(idx, cap);
    if i < cap - off then off + i else i - (cap - off)
  }

  /** Free space computed from the word `tail` and a seen head, in unsigned 64-bit arithmetic. */
  function Free(s: State, v: nat): U64
    requires s.cap < TWO64
  {
    Sub64(s.cap, Sub64(s.tail, Wrap64(v)))
  }

  /** Readable bytes computed from a seen tail and the word `head`. */
  function Avail(s: State, v: nat): U64 {
    Sub64(Wrap64(v), s.head)
  }

  ghost predicate Enabled(s: State, e: Event) {
    match e
    case SendLoad(bytes, v) => s.sender.SIdle? && s.seenHead <= v <= |s.received| && s.cap < TWO64
    case SendByte(i) =>
      && s.sender.SCopying? && i < |s.sender.buf| && s.cap > 0
      && 0 <= Slot(s.cap, s.sender.t, i) < |s.data|
    case SendPublish => s.sender.SCopying? && forall i :: 0 <= i < |s.sender.buf| ==> i in s.sender.done
    case RecvLoad(len, v) => s.receiver.RIdle? && s.seenTail <= v <= |s.published|
    case RecvByte(i) =>
      && s.receiver.RCopying? && i < s.receiver.n && s.cap > 0
      && 0 <= Slot(s.cap, s.receiver.h, i) < |s.data|
    case RecvRelease => s.receiver.RCopying? && forall i :: 0 <= i < s.receiver.n ==> i in s.receiver.got
    case RecvSync(v) => s.receiver.RIdle? && s.seenTail <= v <= |s.published|
    case MarkClosed => true
  }

  ghost function Next(s: State, e: Event): State
    requires Enabled(s, e)
  {
    match e
    case SendLoad(bytes, v) =>
      var free := Free(s, v);
      var s1 := s.(seenHead := v);
      if free == 0 then s1
      else s1.(sender := SCopying(bytes[..Min(|bytes|, free)], s.tail, {}))
    case SendByte(i) =>
      s.(data := s.data[Slot(s.cap, s.sender.t, i) := s.sender.buf[i]],
         sender := s.sender.(done := s.sender.done + {i}))
    case SendPublish =>
      s.(tail := Wrap64(s.sender.t + |s.sender.buf|),
         published := s.published + s.sender.buf,
         sender := SIdle)
    case RecvLoad(len, v) =>
      var avail := Avail(s, v);
      var s1 := s.(seenTail := v);
      if avail == 0 then s1
      else s1.(receiver := RCopying(s.head, Min(len, avail), map[]))
    case RecvByte(i) =>
      s.(receiver := s.receiver.(got := s.receiver.got[i := s.data[Slot(s.cap, s.receiver.h, i)]]))
    case RecvRelease =>
      s.(head := Wrap64(s.receiver.h + s.receiver.n),
         received := s.received + Copied(s.receiver),
         receiver := RIdle)
    case RecvSync(v) => s.(seenTail := v)
    case MarkClosed => s.(closed := true)
  }

  /** What a completed recv_some has put into the caller's buffer. */
  ghost function Copied(r: Receiver): seq<Byte>
    requires r.RCopying? && forall i :: 0 <= i < r.n ==> i in r.got
  {
    seq(r.n, i requires 0 <= i < r.n => r.got[i])
  }

  // ---------------------------------------------------------------- invariant

  ghost predicate Indices(s: State) {
    && 0 < s.cap == |s.data| && s.cap < TWO64
    && s.tail == Wrap64(|s.published|)
    && s.head == Wrap64(|s.received|)
    && s.seenHead <= |s.received| <= s.seenTail <= |s.published| <= s.seenHead + s.cap
  }

  /** The unread bytes lie in the buffer, and what was received is a prefix of the stream. */
  ghost predicate Stored(s: State)
    requires Indices(s)
  {
    && s.received == s.published[..|s.received|]
    && forall i :: |s.received| <= i < |s.published| ==> s.data[Place(i, s.cap)] == s.published[i]
  }

  ghost predicate SenderOk(s: State)
    requires Indices(s)
  {
    s.sender.SCopying? ==>
      && s.sender.t == s.tail
      && |s.published| + |s.sender.buf| <= s.seenHead + s.cap
      && (forall i | i in s.sender.done ::
            i < |s.sender.buf| && s.data[Place(|s.published| + i, s.cap)] == s.sender.buf[i])
  }

  ghost predicate ReceiverOk(s: State)
    requires Indices(s)
  {
    s.receiver.RCopying? ==>
      && s.receiver.h == s.head
      && |s.received| + s.receiver.n <= s.seenTail
      && (forall i | i in s.receiver.got ::
            i < s.receiver.n && s.receiver.got[i] == s.published[|s.received| + i])
  }

  ghost predicate Inv(s: State) {
    ValidCap(s.cap) && Indices(s) && Stored(s) && SenderOk(s) && ReceiverOk(s)
  }

  // ---------------------------------------------------------------- proof

  /** Addressing by the wrapped word lands where addressing by the byte count would. */
  lemma SlotOfCount(cap: nat, count: nat, i: nat)
    requires ValidCap(cap) && i < cap
    ensures Slot(cap, Wrap64(count), i) == Place(count + i, cap)
  {
    Slot64(count, cap);
    PlaceAfter(count, i, cap);
  }

  lemma FreeIsExact(s: State, v: nat)
    requires Indices(s) && s.seenHead <= v <= |s.received|
    ensures Free(s, v) == s.cap - (|s.published| - v)
  {
    Distance64(|s.published|, v);
  }

  lemma AvailIsExact(s: State, v: nat)
    requires Indices(s) && s.seenTail <= v <= |s.published|
    ensures Avail(s, v) == v - |s.received|
  {
    Distance64(v, |s.received|);
  }

  lemma SendLoadKeeps(s: State, bytes: seq<Byte>, v: nat)
    requires Inv(s) && Enabled(s, SendLoad(bytes, v))
    ensures Inv(Next(s, SendLoad(bytes, v)))
  {
    hide Place;
    FreeIsExact(s, v);
  }

  lemma RecvLoadKeeps(s: State, len: nat, v: nat)
    requires Inv(s) && Enabled(s, RecvLoad(len, v))
    ensures Inv(Next(s, RecvLoad(len, v)))
  {
    hide Place;
    AvailIsExact(s, v);
  }

  lemma SendByteKeeps(s: State, i: nat)
    requires Inv(s) && Enabled(s, SendByte(i))
    ensures Inv(Next(s, SendByte(i)))
  {
    hide Place;
    var s' := Next(s, SendByte(i));
    var at := |s.published| + i;
    SlotOfCount(s.cap, |s.published|, i);
    forall k | |s.received| <= k < |s.published|
      ensures s'.data[Place(k, s.cap)] == s.published[k]
    {
      PlacesDiffer(k, at, s.cap);
    }
    forall k | k in s'.sender.done
      ensures k < |s.sender.buf| && s'.data[Place(|s.published| + k, s.cap)] == s.sender.buf[k]
    {
      if k < i {
        PlacesDiffer(|s.published| + k, at, s.cap);
      } else if k > i {
        PlacesDiffer(at, |s.published| + k, s.cap);
      }
    }
  }

  lemma PublishKeeps(s: State)
    requires Inv(s) && Enabled(s, SendPublish)
    ensures Inv(Next(s, SendPublish))
  {
    hide Place;
    var s' := Next(s, SendPublish);
    PlaceAdd(|s.published|, |s.sender.buf|, TWO64);
    assert s'.received == s'.published[..|s'.received|];
    forall k | |s'.received| <= k < |s'.published|
      ensures s'.data[Place(k, s.cap)] == s'.published[k]
    {
      if k < |s.published| {
        assert s'.published[k] == s.published[k];
      } else {
        CopiedByte(s, k - |s.published|);
      }
    }
  }

  lemma CopiedByte(s: State, i: nat)
    requires Inv(s) && Enabled(s, SendPublish) && i < |s.sender.buf|
    ensures s.data[Place(|s.published| + i, s.cap)] == s.sender.buf[i]
  {
    hide Place, Stored, ReceiverOk;
    assert i in s.sender.done;
  }

  lemma RecvByteKeeps(s: State, i: nat)
    requires Inv(s) && Enabled(s, RecvByte(i))
    ensures Inv(Next(s, RecvByte(i)))
  {
    hide Place;
    SlotOfCount(s.cap, |s.received|, i);
  }

  lemma ReleaseKeeps(s: State)
    requires Inv(s) && Enabled(s, RecvRelease)
    ensures Inv(Next(s, RecvRelease))
  {
    hide Place;
    var s' := Next(s, RecvRelease);
    PlaceAdd(|s.received|, s.receiver.n, TWO64);
    assert s'.received == s'.published[..|s'.received|];
  }

  /** Every step of either side keeps the invariant. */
  lemma StepKeeps(s: State, e: Event)
    requires Inv(s) && Enabled(s, e)
    ensures Inv(Next(s, e))
  {
    match e
    case SendLoad(bytes, v) => SendLoadKeeps(s, bytes, v);
    case SendByte(i) => SendByteKeeps(s, i);
    case SendPublish => PublishKeeps(s);
    case RecvLoad(len, v) => RecvLoadKeeps(s, len, v);
    case RecvByte(i) => RecvByteKeeps(s, i);
    case RecvRelease => ReleaseKeeps(s);
    case RecvSync(v) =>
    case MarkClosed =>
  }

  // ---------------------------------------------------------------- runs

  ghost predicate Legal(s: State, es: seq<Event>)
    decreases |es|
  {
    es == [] || (Enabled(s, es[0]) && Legal(Next(s, es[0]), es[1..]))
  }

  ghost function After(s: State, es: seq<Event>): State
    requires Legal(s, es)
    decreases |es|
  {
    if es == [] then s else After(Next(s, es[0]), es[1..])
  }

  lemma InitInv(s: State)
    requires Init(s)
    ensures Inv(s)
  {
  }

  lemma {:induction false} RunKeeps(s: State, es: seq<Event>)
    requires Inv(s) && Legal(s, es)
    ensures Inv(After(s, es))
    decreases |es|
  {
    hide Inv, Next, Enabled;
    if es != [] {
      StepKeeps(s, es[0]);
      RunKeeps(Next(s, es[0]), es[1..]);
    }
  }

  /** The bytes a reader of shared memory finds between the words head and tail. */
  ghost function Contents(s: State): seq<Byte>
    requires s.cap > 0 && |s.data| == s.cap
  {
    seq(Sub64(s.tail, s.head), i requires 0 <= i => s.data[Place(s.head + i, s.cap)])
  }

  lemma ContentsAreUnread(s: State)
    requires Inv(s)
    ensures s.received + Contents(s) == s.published
  {
    hide Place;
    Distance64(|s.published|, |s.received|);
    var c := Contents(s);
    forall i | 0 <= i < |c|
      ensures c[i] == s.published[|s.received| + i]
    {
      Slot64(|s.received|, s.cap);
      PlaceAdd(s.head, i, s.cap);
      PlaceAdd(|s.received|, i, s.cap);
    }
  }

  /** In every interleaving, after any number of index wraparounds: what was received, followed
      by what lies between head and tail, is exactly what was published, and the occupancy
      never leaves 0..cap. */
  lemma StreamProperty(s0: State, es: seq<Event>)
    requires Init(s0) && Legal(s0, es)
    ensures var s := After(s0, es);
      && s.cap > 0 && |s.data| == s.cap
      && s.received + Contents(s) == s.published
      && |Contents(s)| <= s.cap
  {
    InitInv(s0);
    RunKeeps(s0, es);
    ContentsAreUnread(After(s0, es));
  }

  /** No copy touches a byte the other side owns: while both sides are copying, no byte the
      producer writes is one the consumer reads, and the producer writes no unread byte. */
  lemma CopiesAreDisjoint(s0: State, es: seq<Event>, i: nat, j: nat)
    requires Init(s0) && Legal(s0, es)
    requires var s := After(s0, es);
      s.sender.SCopying? && i < |s.sender.buf| && j < |s.published| - |s.received|
    ensures var s := After(s0, es);
      && s.cap > 0
      && Slot(s.cap, s.sender.t, i) != Slot(s.cap, s.head, j)
      && (s.receiver.RCopying? ==>
            s.receiver.h == s.head && s.receiver.n <= |s.published| - |s.received|)
  {
    hide Place, Slot, Legal, After;
    var s := After(s0, es);
    InitInv(s0);
    RunKeeps(s0, es);
    SlotOfCount(s.cap, |s.published|, i);
    SlotOfCount(s.cap, |s.received|, j);
    PlacesDiffer(|s.received| + j, |s.published| + i, s.cap);
  }

  // ---------------------------------------------------------------- what a call does, whole

  /** The bytes that the head seen leaves room for. */
  function Room(s: State, v: nat): int {
    s.cap - (|s.published| - v)
  }

  /** Over every run: send_some decides for as many bytes as the head it sees leaves room for, and puts
      exactly those into the stream; recv_some, for as many as the tail it sees has to offer, and takes
      exactly the oldest ones. */
  lemma CallsAreExact(s0: State, es: seq<Event>, e: Event)
    requires Init(s0) && Legal(s0, es) && Enabled(After(s0, es), e)
    ensures var s := After(s0, es); var s' := Next(s, e);
      && (e.SendLoad? ==>
            && 0 <= Room(s, e.v) <= s.cap && s'.published == s.published
            && s'.sender == if Room(s, e.v) == 0 then SIdle
                            else SCopying(e.bytes[..Min(|e.bytes|, Room(s, e.v))], s.tail, {}))
      && (e.SendPublish? ==> s'.published == s.published + s.sender.buf && s'.sender.SIdle?)
      && (e.RecvLoad? ==>
            && |s.received| <= e.v && s'.received == s.received
            && s'.receiver == if e.v == |s.received| then RIdle
                              else RCopying(s.head, Min(e.len, e.v - |s.received|), map[]))
      && (e.RecvRelease? ==>
            && |s.received| + s.receiver.n <= |s.published| && s'.receiver.RIdle?
            && s'.received == s.published[..|s.received| + s.receiver.n])
      && (!e.SendPublish? ==> s'.published == s.published) && (!e.RecvRelease? ==> s'.received == s.received)
      && (s'.closed <==> s.closed || e.MarkClosed?)
  {
    hide Place, Legal, After, Stored;
    var s := After(s0, es);
    InitInv(s0);
    RunKeeps(s0, es);
    StepKeeps(s, e);
    if e.SendLoad? {
      FreeIsExact(s, e.v);
    } else if e.RecvLoad? {
      AvailIsExact(s, e.v);
    } else if e.RecvRelease? {
      ReceivedGrows(s);
    }
  }

  lemma ReceivedGrows(s: State)
    requires Inv(s) && Enabled(s, RecvRelease)
    ensures |s.received| + s.receiver.n <= |s.published|
    ensures Next(s, RecvRelease).received == s.published[..|s.received| + s.receiver.n]
  {
    hide Place;
    StepKeeps(s, RecvRelease);
  }

  lemma NoSteps(s: State)
    ensures Legal(s, []) && After(s, []) == s
  {
  }

  lemma {:induction false} OneMore(s: State, es: seq<Event>, t: State, e: Event)
    requires Legal(s, es) && After(s, es) == t && Enabled(t, e)
    ensures Legal(s, es + [e]) && After(s, es + [e]) == Next(t, e)
    decreases |es|
  {
    hide Next, Enabled;
    if es == [] {
      assert (es + [e])[1..] == [];
    } else {
      OneMore(Next(s, es[0]), es[1..], t, e);
      assert (es + [e])[1..] == es[1..] + [e];
    }
  }

  /** send_some runs to its end by its own steps, reading the head that is in memory: what fits is
      appended to the stream. */
  lemma SendGoesThrough(s: State, bytes: seq<Byte>) returns (es: seq<Event>)
    requires Inv(s) && s.sender.SIdle?
    ensures Legal(s, es) && forall e | e in es :: e.SendLoad? || e.SendByte? || e.SendPublish?
    ensures var t := After(s, es); var n := Min(|bytes|, Room(s, |s.received|));
      && Inv(t) && t.sender.SIdle? && t.published == s.published + bytes[..n]
      && t.received == s.received && t.receiver == s.receiver && t.seenTail == s.seenTail && t.closed == s.closed
  {
    hide Legal, After, Inv, Place;
    Sizes(s);
    FreeIsExact(s, |s.received|);
    NoSteps(s);
    OneMore(s, [], s, SendLoad(bytes, |s.received|));
    StepKeeps(s, SendLoad(bytes, |s.received|));
    es := [] + [SendLoad(bytes, |s.received|)];
    var t := Next(s, SendLoad(bytes, |s.received|));
    if t.sender.SIdle? {
      assert s.published + bytes[..0] == s.published;
      return;
    }
    var buf, i := t.sender.buf, 0;
    while i < |buf|
      invariant 0 <= i <= |buf| && Legal(s, es) && After(s, es) == t && Inv(t)
      invariant forall e | e in es :: e.SendLoad? || e.SendByte?
      invariant t.sender.SCopying? && t.sender.buf == buf && forall k: nat | k < i :: k in t.sender.done
      invariant t == s.(seenHead := |s.received|, data := t.data, sender := t.sender)
    {
      SlotInside(t, i);
      OneMore(s, es, t, SendByte(i));
      StepKeeps(t, SendByte(i));
      es, t, i := es + [SendByte(i)], Next(t, SendByte(i)), i + 1;
    }
    OneMore(s, es, t, SendPublish);
    StepKeeps(t, SendPublish);
    es := es + [SendPublish];
  }

  lemma Sizes(s: State)
    requires Inv(s)
    ensures Indices(s)
  {
  }

  lemma SlotInside(s: State, i: nat)
    requires Inv(s) && ((s.sender.SCopying? && i < |s.sender.buf|) || (s.receiver.RCopying? && i < s.receiver.n))
    ensures s.cap > 0
    ensures s.sender.SCopying? && i < |s.sender.buf| ==> 0 <= Slot(s.cap, s.sender.t, i) < |s.data|
    ensures s.receiver.RCopying? && i < s.receiver.n ==> 0 <= Slot(s.cap, s.receiver.h, i) < |s.data|
  {
    hide Place, Stored;
    if i < s.cap {
      SlotOfCount(s.cap, |s.published|, i);
      SlotOfCount(s.cap, |s.received|, i);
    }
  }

  /** recv_some runs to its end by its own steps, reading the tail that is in memory: the oldest bytes,
      as many as asked for or as there are. */
  lemma RecvGoesThrough(s: State, len: nat) returns (es: seq<Event>)
    requires Inv(s) && s.receiver.RIdle?
    ensures Legal(s, es) && forall e | e in es :: e.RecvLoad? || e.RecvByte? || e.RecvRelease?
    ensures var t := After(s, es); var n := Min(len, |s.published| - |s.received|);
      && Inv(t) && t.receiver.RIdle? && t.received == s.published[..|s.received| + n]
      && t.published == s.published && t.sender == s.sender && t.seenHead == s.seenHead && t.closed == s.closed
  {
    hide Legal, After, Inv, Place, Copied;
    Sizes(s);
    AvailIsExact(s, |s.published|);
    NoSteps(s);
    OneMore(s, [], s, RecvLoad(len, |s.published|));
    StepKeeps(s, RecvLoad(len, |s.published|));
    es := [] + [RecvLoad(len, |s.published|)];
    var t := Next(s, RecvLoad(len, |s.published|));
    if t.receiver.RIdle? {
      AllReceived(s);
      return;
    }
    var n, i := t.receiver.n, 0;
    while i < n
      invariant 0 <= i <= n && Legal(s, es) && After(s, es) == t && Inv(t)
      invariant forall e | e in es :: e.RecvLoad? || e.RecvByte?
      invariant t.receiver.RCopying? && t.receiver.n == n && forall k | 0 <= k < i :: k in t.receiver.got
      invariant t == s.(seenTail := |s.published|, receiver := t.receiver)
    {
      SlotInside(t, i);
      OneMore(s, es, t, RecvByte(i));
      StepKeeps(t, RecvByte(i));
      es, t, i := es + [RecvByte(i)], Next(t, RecvByte(i)), i + 1;
    }
    OneMore(s, es, t, RecvRelease);
    StepKeeps(t, RecvRelease);
    ReceivedGrows(t);
    es := es + [RecvRelease];
  }

  lemma AllReceived(s: State)
    requires Inv(s)
    ensures s.received == s.published[..|s.received|]
  {
  }
}
