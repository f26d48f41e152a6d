/** locklessqueue_t_v3 as a step system: the ring is two blocks of SIZE slots, and instead of
    counting credits the receiver hands a whole block back by setting that block's return flag.
    Every access to shared memory is a step of its own.

    Read one after the other the two blocks are a ring of 2*SIZE slots, so the layout invariant
    of CreditQueue serves here too. `sbase` and `rbase` count the elements before the block each
    side is working in. */
module TwoBlockQueue {
  import opened Modular
  import C = CreditQueue
  import F = TombstoneFifo

  datatype Block<T> = Block(slots: seq<C.Slot<T>>, flag: bool)

  datatype Sender<T> =
    | SIdle
    | SFlagSeen(x: T)   // the next block's return flag was read as true
    | SReady(x: T)
    | SWritten

  datatype State<T> = State(
    size: nat, blocks: seq<Block<T>>,
    sblk: nat, sptr: nat, avail: seq<bool>, sender: Sender<T>,
    rblk: nat, rptr: nat, receiver: C.Receiver,
    sbase: nat, rbase: nat, q: F.Queue<T>)

  datatype Event<T> =
    | PushCall(x: T)
    | ClearFlag
    | WriteSlot
    | AdvanceSender
    | DelCall(k: nat)
    | TestValid
    | TestDel
    | Invalidate
    | AdvanceReceiver
    | ReturnBlock

  ghost predicate Init<T>(s: State<T>) {
    && C.ValidSize(s.size) && Shape(s)
    && (forall b, i | 0 <= b < 2 && 0 <= i < s.size :: !s.blocks[b].slots[i].valid)
    && !s.blocks[0].flag && !s.blocks[1].flag
    && s.sblk == 0 && s.sptr == 0 && s.avail == [true, true] && s.sender == SIdle
    && s.rblk == 0 && s.rptr == 0 && s.receiver == C.RIdle
    && s.sbase == 0 && s.rbase == 0 && s.q == F.Empty()
  }

  ghost predicate Shape<T>(s: State<T>) {
    && s.size > 0 && |s.blocks| == 2 && |s.avail| == 2 && s.sblk < 2 && s.rblk < 2
    && |s.blocks[0].slots| == s.size && |s.blocks[1].slots| == s.size
  }

  /** `next` in the ring of two blocks. */
  function Other(b: nat): nat {
    if b == 0 then 1 else 0
  }

  /** Where place k lives: the block and the slot in it. */
  function BlockOf(k: nat, size: nat): nat
    requires size > 0
  {
    if Place(k, 2 * size) < size then 0 else 1
  }

  function OffsetOf(k: nat, size: nat): nat
    requires size > 0
  {
    var g := Place(k, 2 * size);
    if g < size then g else g - size
  }

  function SlotAt<T>(s: State<T>, b: nat, i: nat): C.Slot<T>
    requires |s.blocks| == 2 && b < 2 && i < |s.blocks[b].slots|
  {
    s.blocks[b].slots[i]
  }

  function WithSlot<T>(s: State<T>, b: nat, i: nat, slot: C.Slot<T>): State<T>
    requires |s.blocks| == 2 && b < 2 && i < |s.blocks[b].slots|
  {
    s.(blocks := s.blocks[b := s.blocks[b].(slots := s.blocks[b].slots[i := slot])])
  }

  function WithFlag<T>(s: State<T>, b: nat, flag: bool): State<T>
    requires |s.blocks| == 2 && b < 2
  {
    s.(blocks := s.blocks[b := s.blocks[b].(flag := flag)])
  }

  /** The sender moves on to the next block. */
  function Switched<T>(s: State<T>): State<T> {
    s.(sblk := Other(s.sblk), sptr := 0, sbase := s.sbase + s.size)
  }

  ghost predicate Enabled<T>(s: State<T>, e: Event<T>) {
    && Shape(s)
    && match e
       case PushCall(_) => s.sender.SIdle?
       case ClearFlag => s.sender.SFlagSeen?
       case WriteSlot => s.sender.SReady? && s.sptr < s.size
       case AdvanceSender => s.sender.SWritten?
       case DelCall(k) => s.receiver.RIdle? && F.Enabled(s.q, F.Mark(k))
       case TestValid => s.receiver.RTestValid? && s.rptr < s.size
       case TestDel => s.receiver.RTestDel? && s.rptr < s.size
       case Invalidate => s.receiver.RInvalidate? && s.rptr < s.size
       case AdvanceReceiver => s.receiver.RAdvance?
       case ReturnBlock => s.receiver.RReturn?
  }

  ghost function Next<T>(s: State<T>, e: Event<T>): State<T>
    requires Enabled(s, e)
  {
    match e
    case PushCall(x) =>
      if s.sptr < s.size then s.(sender := SReady(x))
      else
        var s1 := s.(avail := s.avail[s.sblk := false]);
        if s.blocks[Other(s.sblk)].flag then s1.(sender := SFlagSeen(x))
        else if s1.avail[Other(s.sblk)] then Switched(s1).(sender := SReady(x))
        else s1
    case ClearFlag =>
      var o := Other(s.sblk);
      Switched(WithFlag(s, o, false).(avail := s.avail[o := true])).(sender := SReady(s.sender.x))
    case WriteSlot =>
      WithSlot(s, s.sblk, s.sptr, C.Slot(s.sender.x, true, false))
        .(sender := SWritten, q := F.Next(s.q, F.Push(s.sender.x)))
    case AdvanceSender => s.(sptr := s.sptr + 1, sender := SIdle)
    case DelCall(k) =>
      var b, i := BlockOf(k, s.size), OffsetOf(k, s.size);
      WithSlot(s, b, i, SlotAt(s, b, i).(del := true))
        .(receiver := C.RTestValid, q := F.Next(s.q, F.Mark(k)))
    case TestValid => s.(receiver := if SlotAt(s, s.rblk, s.rptr).valid then C.RTestDel else C.RIdle)
    case TestDel => s.(receiver := if SlotAt(s, s.rblk, s.rptr).del then C.RInvalidate else C.RIdle)
    case Invalidate =>
      WithSlot(s, s.rblk, s.rptr, SlotAt(s, s.rblk, s.rptr).(valid := false)).(receiver := C.RAdvance)
    case AdvanceReceiver =>
      s.(rptr := s.rptr + 1, receiver := if s.rptr + 1 == s.size then C.RReturn else C.RTestValid,
         q := s.q.(released := s.q.released + 1))
    case ReturnBlock =>
      WithFlag(s, s.rblk, true)
        .(rblk := Other(s.rblk), rptr := 0, rbase := s.rbase + s.size, receiver := C.RTestValid)
  }

  // ---------------------------------------------------------------- invariant

  /** The two blocks as one ring. */
  ghost function Flat<T>(blocks: seq<Block<T>>): seq<C.Slot<T>>
    requires |blocks| == 2
  {
    blocks[0].slots + blocks[1].slots
  }

  function Base(b: nat, size: nat): nat {
    if b == 0 then 0 else size
  }

  function Pending<T>(sender: Sender<T>): nat {
    if sender.SWritten? then 1 else 0
  }

  ghost predicate Pointers<T>(s: State<T>) {
    && Shape(s) && F.Valid(s.q)
    && |s.q.pushed| == s.sbase + s.sptr + Pending(s.sender)
    && s.q.released == s.rbase + s.rptr <= |s.q.pushed|
    && s.sptr + Pending(s.sender) <= s.size
    && Place(s.sbase, 2 * s.size) == Base(s.sblk, s.size)
    && Place(s.rbase, 2 * s.size) == Base(s.rblk, s.size)
    && (if s.receiver.RReturn? then s.rptr == s.size else s.rptr < s.size)
  }

  /** Who holds which block. The receiver is one block behind the sender, in the same block, or
      has used up what the sender filled. A block's flag is up from the moment the receiver hands
      it back until the sender reclaims it. */
  ghost predicate Handover<T>(s: State<T>)
    requires Shape(s)
  {
    var o := Other(s.sblk);
    var returned, current := s.blocks[o].flag, s.blocks[s.sblk].flag;
    && (s.avail[o] <==> s.sbase == 0)
    && (s.sender.SFlagSeen? ==> s.sptr == s.size && returned && !s.avail[s.sblk])
    && (s.sender.SReady? ==> s.sptr < s.size)
    && (|| (s.rbase + s.size == s.sbase && s.rblk == o && !returned && !current)
        || (s.rbase == s.sbase && s.rblk == s.sblk && (returned <==> s.sbase > 0) && !current)
        || (s.rbase == s.sbase + s.size && s.rblk == o && (returned <==> s.sbase > 0) && current))
  }

  ghost predicate Inv<T>(s: State<T>) {
    && Pointers(s) && Handover(s)
    && C.Slots(Flat(s.blocks), s.q, s.receiver) && C.Progress(s.q, s.receiver)
  }

  // ---------------------------------------------------------------- proof

  /** Slot i of the block that starts at base is the slot of place base + i. */
  lemma FlatAt(base: nat, b: nat, i: nat, size: nat)
    requires size > 0 && b < 2 && i < size && Place(base, 2 * size) == Base(b, size)
    ensures Place(base + i, 2 * size) == Base(b, size) + i
    ensures BlockOf(base + i, size) == b && OffsetOf(base + i, size) == i
  {
    PlaceAfter(base, i, 2 * size);
  }

  lemma FlatUpdate<T>(s: State<T>, b: nat, i: nat, slot: C.Slot<T>)
    requires Shape(s) && b < 2 && i < s.size
    ensures Flat(WithSlot(s, b, i, slot).blocks) == Flat(s.blocks)[Base(b, s.size) + i := slot]
    ensures SlotAt(s, b, i) == Flat(s.blocks)[Base(b, s.size) + i]
    ensures |Flat(s.blocks)| == 2 * s.size
  {
  }

  /** The next block starts where the other block lies. */
  lemma NextBase(base: nat, b: nat, size: nat)
    requires size > 0 && b < 2 && Place(base, 2 * size) == Base(b, size)
    ensures Place(base + size, 2 * size) == Base(Other(b), size)
  {
    PlaceAfter(base, size, 2 * size);
  }

  lemma WriteKeeps<T>(s: State<T>)
    requires Inv(s) && Enabled(s, WriteSlot)
    ensures Inv(Next(s, WriteSlot))
  {
    hide Place, C.Slots;
    FlatAt(s.sbase, s.sblk, s.sptr, s.size);
    FlatUpdate(s, s.sblk, s.sptr, C.Slot(s.sender.x, true, false));
    C.PushFitsSlots(Flat(s.blocks), s.q, s.receiver, s.sender.x);
  }

  lemma Shaped<T>(s: State<T>)
    requires Inv(s)
    ensures Shape(s) && F.Valid(s.q)
    ensures s.q.released <= |s.q.pushed| <= s.q.released + 2 * s.size
  {
    hide Place, C.Slots, Flat;
  }

  /** The slot of a place that was pushed and not given back. */
  lemma FlatShows<T>(s: State<T>, k: nat)
    requires Inv(s) && s.q.released <= k < |s.q.pushed|
    ensures Shape(s) && BlockOf(k, s.size) < 2 && OffsetOf(k, s.size) < s.size
    ensures C.Shows(SlotAt(s, BlockOf(k, s.size), OffsetOf(k, s.size)), s.q, k, s.receiver)
    ensures Place(k, 2 * s.size) == Base(BlockOf(k, s.size), s.size) + OffsetOf(k, s.size)
  {
    hide Place, Handover, C.Shows;
    assert |Flat(s.blocks)| == 2 * s.size;
    assert C.Shows(Flat(s.blocks)[Place(k, 2 * s.size)], s.q, k, s.receiver);
  }

  /** Slots, tombstones and the point a del has reached are no matter of who holds which block. */
  lemma StillHeld<T>(s: State<T>, s': State<T>)
    requires Pointers(s) && Handover(s) && Shape(s') && F.Valid(s'.q)
    requires s' == s.(blocks := s'.blocks, receiver := s'.receiver, q := s.q.(deleted := s'.q.deleted))
    requires s'.blocks[0].flag == s.blocks[0].flag && s'.blocks[1].flag == s.blocks[1].flag
    requires s.receiver.RReturn? <==> s'.receiver.RReturn?
    ensures Pointers(s') && Handover(s')
  {
    hide Place;
  }

  /** The receiver changes the slot of one place, and the history agrees with the change. */
  lemma TouchKeeps<T>(s: State<T>, k: nat, slot: C.Slot<T>, s': State<T>)
    requires Inv(s) && s.q.released <= k < |s.q.pushed| && Shape(s)
    requires BlockOf(k, s.size) < 2 && OffsetOf(k, s.size) < s.size
    requires s' == WithSlot(s, BlockOf(k, s.size), OffsetOf(k, s.size), slot)
                     .(receiver := s'.receiver, q := s.q.(deleted := s'.q.deleted))
    requires F.Valid(s'.q) && C.Progress(s'.q, s'.receiver) && C.Shows(slot, s'.q, k, s'.receiver)
    requires s.receiver.RReturn? <==> s'.receiver.RReturn?
    requires forall i: nat | s.q.released <= i < |s.q.pushed| && i != k ::
      && s'.q.pushed[i] == s.q.pushed[i] && (i in s'.q.deleted <==> i in s.q.deleted)
      && (s.receiver.RAdvance? && i == s.q.released <==> s'.receiver.RAdvance? && i == s.q.released)
    ensures Inv(s')
  {
    hide Place, Handover, C.Slots, C.Shows, C.Progress, Flat;
    Shaped(s);
    FlatShows(s, k);
    FlatUpdate(s, BlockOf(k, s.size), OffsetOf(k, s.size), slot);
    C.TouchKeepsSlots(Flat(s.blocks), s.q, s.receiver, k, slot, s'.q, s'.receiver);
    StillHeld(s, s');
  }

  lemma DelKeeps<T>(s: State<T>, k: nat)
    requires Inv(s) && Enabled(s, DelCall(k))
    ensures Inv(Next(s, DelCall(k)))
  {
    hide Place, BlockOf, OffsetOf, Inv;
    FlatShows(s, k);
    Shaped(s);
    var slot := SlotAt(s, BlockOf(k, s.size), OffsetOf(k, s.size)).(del := true);
    TouchKeeps(s, k, slot, Next(s, DelCall(k)));
  }

  lemma TestKeeps<T>(s: State<T>, e: Event<T>)
    requires Inv(s) && Enabled(s, e) && (e.TestValid? || e.TestDel?)
    ensures Inv(Next(s, e))
  {
    hide Place, Handover;
    FlatAt(s.rbase, s.rblk, s.rptr, s.size);
    FlatUpdate(s, s.rblk, s.rptr, SlotAt(s, s.rblk, s.rptr));
    StillHeld(s, Next(s, e));
    var k := s.q.released;
    if k < |s.q.pushed| {
      FlatShows(s, k);
    }
  }

  lemma InvalidateKeeps<T>(s: State<T>)
    requires Inv(s) && Enabled(s, Invalidate)
    ensures Inv(Next(s, Invalidate))
  {
    hide Place, BlockOf, OffsetOf, Inv;
    HeadPlace(s);
    FlatShows(s, s.q.released);
    Shaped(s);
    TouchKeeps(s, s.q.released, SlotAt(s, s.rblk, s.rptr).(valid := false), Next(s, Invalidate));
  }

  /** Where the receiver is: the oldest place not given back. */
  lemma HeadPlace<T>(s: State<T>)
    requires Inv(s) && s.rptr < s.size
    ensures s.rblk == BlockOf(s.q.released, s.size) && s.rptr == OffsetOf(s.q.released, s.size)
    ensures s.receiver.RInvalidate? ==> s.q.released in s.q.deleted && s.q.released < |s.q.pushed|
  {
    hide Place, Handover, C.Slots;
    FlatAt(s.rbase, s.rblk, s.rptr, s.size);
  }

  lemma AdvanceKeeps<T>(s: State<T>)
    requires Inv(s) && Enabled(s, AdvanceReceiver)
    ensures Inv(Next(s, AdvanceReceiver))
  {
    hide Place, C.Slots;
    C.AdvanceKeepsSlots(Flat(s.blocks), s.q, Next(s, AdvanceReceiver).receiver);
  }

  lemma PushCallKeeps<T>(s: State<T>, x: T)
    requires Inv(s) && Enabled(s, PushCall(x))
    ensures Inv(Next(s, PushCall(x)))
  {
    hide Place, C.Slots, Flat;
    NextBase(s.sbase, s.sblk, s.size);
  }

  lemma ClearFlagKeeps<T>(s: State<T>)
    requires Inv(s) && Enabled(s, ClearFlag)
    ensures Inv(Next(s, ClearFlag))
  {
    hide Place, C.Slots, Flat;
    NextBase(s.sbase, s.sblk, s.size);
    FlagsAside(s.blocks, Next(s, ClearFlag).blocks);
  }

  lemma FlagsAside<T>(blocks: seq<Block<T>>, blocks': seq<Block<T>>)
    requires |blocks| == |blocks'| == 2
    requires blocks'[0].slots == blocks[0].slots && blocks'[1].slots == blocks[1].slots
    ensures Flat(blocks') == Flat(blocks)
  {
  }

  lemma AdvanceSenderKeeps<T>(s: State<T>)
    requires Inv(s) && Enabled(s, AdvanceSender)
    ensures Inv(Next(s, AdvanceSender))
  {
    hide Place, C.Slots, Flat;
  }

  lemma ReturnKeeps<T>(s: State<T>)
    requires Inv(s) && Enabled(s, ReturnBlock)
    ensures Inv(Next(s, ReturnBlock))
  {
    hide Place;
    NextBase(s.rbase, s.rblk, s.size);
  }

  /** Every step of either side keeps the invariant. */
  lemma StepKeeps<T>(s: State<T>, e: Event<T>)
    requires Inv(s) && Enabled(s, e)
    ensures Inv(Next(s, e))
  {
    hide Inv, Next;
    match e
    case WriteSlot => WriteKeeps(s);
    case DelCall(k) => DelKeeps(s, k);
    case TestValid => TestKeeps(s, e);
    case TestDel => TestKeeps(s, e);
    case Invalidate => InvalidateKeeps(s);
    case AdvanceReceiver => AdvanceKeeps(s);
    case ReturnBlock => ReturnKeeps(s);
    case PushCall(x) => PushCallKeeps(s, x);
    case ClearFlag => ClearFlagKeeps(s);
    case AdvanceSender => AdvanceSenderKeeps(s);
  }

  /** The action of the tombstone FIFO that a step performs, if any. */
  function Action<T>(s: State<T>, e: Event<T>): seq<F.Event<T>>
    requires e.WriteSlot? ==> s.sender.SReady?
  {
    match e
    case WriteSlot => [F.Push(s.sender.x)]
    case DelCall(k) => [F.Mark(k)]
    case AdvanceReceiver => [F.Release]
    case _ => []
  }

  lemma HeadGone<T>(s: State<T>)
    requires Inv(s) && s.receiver.RAdvance?
    ensures F.Enabled(s.q, F.Release)
  {
    hide Place, Handover, C.Slots;
  }

  /** Each step is an action of the tombstone FIFO or leaves it alone, and the FIFO never holds
      more than the 2*SIZE elements there is room for. */
  lemma RefinesBoundedFifo<T>(s: State<T>, e: Event<T>)
    requires Inv(s) && Enabled(s, e)
    ensures var a := Action(s, e);
      if a == [] then Next(s, e).q == s.q else F.Enabled(s.q, a[0]) && Next(s, e).q == F.Next(s.q, a[0])
    ensures |Next(s, e).q.pushed| <= Next(s, e).q.released + 2 * s.size
  {
    hide Inv, SlotAt, BlockOf, OffsetOf;
    StepKeeps(s, e);
    Shaped(s);
    Shaped(Next(s, e));
    if e.AdvanceReceiver? {
      HeadGone(s);
    }
  }

  // ---------------------------------------------------------------- runs

  ghost predicate Legal<T>(s: State<T>, es: seq<Event<T>>)
    decreases |es|
  {
    es == [] || (Enabled(s, es[0]) && Legal(Next(s, es[0]), es[1..]))
  }

  ghost function After<T>(s: State<T>, es: seq<Event<T>>): State<T>
    requires Legal(s, es)
    decreases |es|
  {
    if es == [] then s else After(Next(s, es[0]), es[1..])
  }

  lemma {:induction false} RunKeeps<T>(s: State<T>, es: seq<Event<T>>)
    requires Inv(s) && Legal(s, es)
    ensures Inv(After(s, es))
    decreases |es|
  {
    hide Inv, Next, Enabled;
    if es != [] {
      StepKeeps(s, es[0]);
      RunKeeps(Next(s, es[0]), es[1..]);
    }
  }

  lemma InitInv<T>(s: State<T>)
    requires Init(s)
    ensures Inv(s)
  {
    forall k: nat | k < 2 * s.size
      ensures !Flat(s.blocks)[Place(k, 2 * s.size)].valid
    {
      assert Flat(s.blocks)[k] == SlotAt(s, if k < s.size then 0 else 1, if k < s.size then k else k - s.size);
    }
  }

  lemma FreeSlot<T>(s: State<T>)
    requires Inv(s) && s.sender.SReady?
    ensures Shape(s) && s.sptr < s.size && !SlotAt(s, s.sblk, s.sptr).valid
  {
    hide Place, C.Slots, C.Progress;
    FlatAt(s.sbase, s.sblk, s.sptr, s.size);
    FlatUpdate(s, s.sblk, s.sptr, SlotAt(s, s.sblk, s.sptr));
    C.PushFitsSlots(Flat(s.blocks), s.q, s.receiver, s.sender.x);
  }

  /** No unconsumed slot is ever overwritten. */
  lemma PushNeverOverwrites<T>(s0: State<T>, es: seq<Event<T>>)
    requires Init(s0) && Legal(s0, es) && After(s0, es).sender.SReady?
    ensures var s := After(s0, es);
      Shape(s) && s.sptr < s.size && !SlotAt(s, s.sblk, s.sptr).valid
  {
    InitInv(s0);
    RunKeeps(s0, es);
    FreeSlot(After(s0, es));
  }

  /** What push_nb looks at when it has filled its block and finds no other to use. */
  predicate Refused<T>(s: State<T>)
    requires |s.blocks| == 2 && |s.avail| == 2 && s.sblk < 2
  {
    s.sptr == s.size && !s.blocks[Other(s.sblk)].flag && !s.avail[Other(s.sblk)]
  }

  /** A push is refused exactly while the sender's block is full and the receiver has not handed
      the other one back; it then changes nothing, and at least SIZE elements are waiting to be released. */
  lemma RefusedOnlyWhileBlockIsOut<T>(s0: State<T>, es: seq<Event<T>>, x: T)
    requires Init(s0) && Legal(s0, es) && After(s0, es).sender.SIdle?
    ensures var s := After(s0, es);
      && Enabled(s, PushCall(x))
      && (Next(s, PushCall(x)).sender.SIdle? <==> s.sptr == s.size && s.rbase + s.size == s.sbase)
      && (Next(s, PushCall(x)).sender.SIdle? <==> Refused(s))
      && (Next(s, PushCall(x)).sender.SIdle? ==>
            Next(s, PushCall(x)).q == s.q && |s.q.pushed| - s.q.released >= s.size)
      && (s.rbase + s.size == s.sbase ==> s.q.released < s.sbase || s.receiver.RReturn?)
  {
    hide Legal, After, C.Slots;
    InitInv(s0);
    RunKeeps(s0, es);
  }

  /** A push that is not refused goes through by the sender's own steps: the element is appended and the
      receiver is not disturbed. */
  lemma PushGoesThrough<T>(s: State<T>, x: T) returns (es: seq<Event<T>>)
    requires Inv(s) && s.sender.SIdle? && !(s.sptr == s.size && s.rbase + s.size == s.sbase)
    ensures Legal(s, es) && forall e | e in es :: e.PushCall? || e.ClearFlag? || e.WriteSlot? || e.AdvanceSender?
    ensures var t := After(s, es);
      && t.sender.SIdle? && t.q == F.Next(s.q, F.Push(x))
      && t.rblk == s.rblk && t.rptr == s.rptr && t.receiver == s.receiver
  {
    hide Legal, After, Inv, C.Slots;
    NoSteps(s);
    Admitted(s, x);
    StepKeeps(s, PushCall(x));
    OneMore(s, [], s, PushCall(x));
    es := [] + [PushCall(x)];
    var t := Next(s, PushCall(x));
    if t.sender.SFlagSeen? {
      Shaped(t);
      StepKeeps(t, ClearFlag);
      OneMore(s, es, t, ClearFlag);
      es, t := es + [ClearFlag], Next(t, ClearFlag);
    }
    Shaped(t);
    ReadyHasSlot(t);
    StepKeeps(t, WriteSlot);
    OneMore(s, es, t, WriteSlot);
    es, t := es + [WriteSlot], Next(t, WriteSlot);
    Shaped(t);
    OneMore(s, es, t, AdvanceSender);
    es, t := es + [AdvanceSender], Next(t, AdvanceSender);
  }

  lemma Admitted<T>(s: State<T>, x: T)
    requires Inv(s) && s.sender.SIdle? && !(s.sptr == s.size && s.rbase + s.size == s.sbase)
    ensures Enabled(s, PushCall(x))
    ensures var t := Next(s, PushCall(x));
      (t.sender == SReady(x) || t.sender == SFlagSeen(x)) && t.q == s.q
      && t.rblk == s.rblk && t.rptr == s.rptr && t.receiver == s.receiver
  {
    hide Place, C.Slots;
  }

  lemma ReadyHasSlot<T>(s: State<T>)
    requires Inv(s) && s.sender.SReady?
    ensures s.sptr < s.size
  {
    hide Place, C.Slots;
  }

  lemma NoSteps<T>(s: State<T>)
    ensures Legal(s, []) && After(s, []) == s
  {
  }

  lemma {:induction false} RunJoins<T>(s: State<T>, es: seq<Event<T>>, more: seq<Event<T>>)
    requires Legal(s, es) && Legal(After(s, es), more)
    ensures Legal(s, es + more) && After(s, es + more) == After(After(s, es), more)
    decreases |es|
  {
    hide Next, Enabled;
    if es == [] {
      assert es + more == more;
    } else {
      RunJoins(Next(s, es[0]), es[1..], more);
      assert (es + more)[1..] == es[1..] + more;
    }
  }

  lemma OneMore<T>(s: State<T>, es: seq<Event<T>>, t: State<T>, e: Event<T>)
    requires Legal(s, es) && After(s, es) == t && Enabled(t, e)
    ensures Legal(s, es + [e]) && After(s, es + [e]) == Next(t, e)
  {
    hide Next, Enabled;
    assert [e][1..] == [];
    RunJoins(s, es, [e]);
  }

  /** The receiver raises a flag only when it is down and the sender is not about to clear it, so
      no block return is lost. */
  lemma ReturnsAreNeverLost<T>(s0: State<T>, es: seq<Event<T>>)
    requires Init(s0) && Legal(s0, es) && After(s0, es).receiver.RReturn?
    ensures var s := After(s0, es);
      && Shape(s) && !s.blocks[s.rblk].flag
      && (s.sender.SFlagSeen? ==> s.rblk == s.sblk)
  {
    InitInv(s0);
    RunKeeps(s0, es);
  }

  /** An iterator: a block and a slot in it. */
  datatype Iterator = Iterator(b: nat, i: nat)

  /** operator++ */
  function Succ(it: Iterator, size: nat): Iterator {
    if it.i + 1 == size then Iterator(Other(it.b), 0) else Iterator(it.b, it.i + 1)
  }

  /** The iterator stands on place k. */
  ghost predicate On(it: Iterator, k: nat, size: nat) {
    size > 0 && it.b == BlockOf(k, size) && it.i == OffsetOf(k, size)
  }

  lemma SuccIsNextPlace(it: Iterator, k: nat, size: nat)
    requires On(it, k, size)
    ensures On(Succ(it, size), k + 1, size)
  {
    PlaceAfter(k, 1, 2 * size);
  }

  /** What an iterator collects: it starts at begin(), goes on by operator++, stops at the first
      slot that is not valid and skips those marked deleted. */
  ghost function Scan<T>(s: State<T>, it: Iterator, left: nat): seq<T>
    requires Shape(s) && it.b < 2 && it.i < s.size
    decreases left
  {
    if left == 0 || !SlotAt(s, it.b, it.i).valid then []
    else
      var rest := Scan(s, Succ(it, s.size), left - 1);
      if SlotAt(s, it.b, it.i).del then rest else [SlotAt(s, it.b, it.i).data] + rest
  }

  /** The slot of place k shows it, if it has been pushed. */
  lemma SlotShows<T>(s: State<T>, it: Iterator, k: nat)
    requires Inv(s) && s.receiver.RIdle? && On(it, k, s.size)
    requires s.q.released <= k < s.q.released + 2 * s.size
    ensures it.b < 2 && it.i < s.size
    ensures var slot := SlotAt(s, it.b, it.i);
      && (slot.valid <==> k < |s.q.pushed|)
      && (slot.valid ==> slot == C.Slot(s.q.pushed[k], true, k in s.q.deleted))
  {
    hide Place, Handover;
    FlatUpdate(s, it.b, it.i, SlotAt(s, it.b, it.i));
    if k < |s.q.pushed| {
      FlatShows(s, k);
    }
  }

  lemma SlotOn(it: Iterator, k: nat, size: nat)
    requires On(it, k, size)
    ensures it.b < 2 && it.i < size
  {
    hide Place;
  }

  lemma {:induction false} ScanFrom<T>(s: State<T>, it: Iterator, k: nat, left: nat)
    requires Inv(s) && s.receiver.RIdle? && On(it, k, s.size)
    requires s.q.released <= k <= |s.q.pushed| && k + left == s.q.released + 2 * s.size
    ensures it.b < 2 && it.i < s.size
    ensures Scan(s, it, left) == F.Undeleted(s.q, k)
    decreases left
  {
    hide Inv, BlockOf, OffsetOf, SlotAt;
    Shaped(s);
    SlotOn(it, k, s.size);
    if left > 0 {
      SlotShows(s, it, k);
      if k < |s.q.pushed| {
        SuccIsNextPlace(it, k, s.size);
        ScanFrom(s, Succ(it, s.size), k + 1, left - 1);
      }
    }
  }

  /** Order is kept: between dels an iterator finds exactly the elements pushed and not deleted, in
      the order they were pushed. */
  lemma ScanFindsTheLive<T>(s0: State<T>, es: seq<Event<T>>)
    requires Init(s0) && Legal(s0, es) && After(s0, es).receiver.RIdle?
    ensures var s := After(s0, es);
      && Shape(s) && s.rptr < s.size && F.Valid(s.q)
      && Scan(s, Iterator(s.rblk, s.rptr), 2 * s.size) == F.Live(s.q) == F.Undeleted(s.q, 0)
  {
    InitInv(s0);
    RunKeeps(s0, es);
    var s := After(s0, es);
    FlatAt(s.rbase, s.rblk, s.rptr, s.size);
    ScanFrom(s, Iterator(s.rblk, s.rptr), s.q.released, 2 * s.size);
    F.LiveIsPushedMinusDeleted(s.q, 0);
  }
}
