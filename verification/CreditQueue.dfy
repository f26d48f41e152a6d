/** locklessqueue_t as a step system: push_nb on one side, del (and pop_nb, which ends in del) on
    the other, every access to shared memory a step of its own. The receiver returns credits in
    batches of SIZE/2+1 through one shared boolean that the sender reads, adds and clears without
    any atomicity. With credits disabled the sender pushes without looking at them.

    `q` is the history: what was pushed and deleted, and how many places the receiver has passed.
    The code itself works on the 32-bit pointers, the credit counters, the flag and the slots. */
module CreditQueue {
  import opened Modular
  import F = TombstoneFifo

  datatype Slot<T> = Slot(data: T, valid: bool, del: bool)

  datatype Sender<T> =
    | SIdle
    | SFlagSeen(x: T)   // credits were 0 and *return_flag was read as true
    | SAdded(x: T)      // credits += CREDITS_PER_RETURN done, flag not yet cleared
    | SReady(x: T)      // about to copy the element into the ring
    | SWritten          // element visible, pointer and credits not yet moved

  datatype Receiver =
    | RIdle
    | RTestValid        // top of the loop in del
    | RTestDel          // isvalid was read as true
    | RInvalidate       // isdel was read as true
    | RAdvance          // isvalid cleared
    | RReturn           // credits reached CREDITS_PER_RETURN

  datatype State<T> = State(
    size: nat, disabled: bool, ring: seq<Slot<T>>, flag: bool,
    sptr: U32, scredits: U32, sender: Sender<T>,
    rptr: U32, rcredits: U32, receiver: Receiver,
    q: F.Queue<T>)

  datatype Event<T> =
    | PushCall(x: T)
    | AddCredits
    | ClearFlag
    | WriteSlot
    | AdvanceSender
    | DelCall(k: nat)        // del of the element in place k
    | SetCall(k: nat, y: T)  // set of the element in place k
    | TestValid
    | TestDel
    | Invalidate
    | AdvanceReceiver
    | ReturnCredits

  predicate ValidSize(size: nat) {
    PowerOfTwo(size) && size < TWO32
  }

  /** CREDITS_PER_RETURN. */
  function Batch(size: nat): nat {
    size / 2 + 1
  }

  ghost predicate Start<T>(s: State<T>) {
    && ValidSize(s.size) && |s.ring| == s.size && !s.flag
    && (forall i | 0 <= i < s.size :: !s.ring[i].valid)
    && s.sptr == 0 && s.scredits == s.size && s.sender == SIdle
    && s.rptr == 0 && s.rcredits == 0 && s.receiver == RIdle
    && s.q == F.Empty()
  }

  ghost predicate Init<T>(s: State<T>) {
    Start(s) && !s.disabled
  }

  /** `pointer & MASK`. */
  function Masked(ptr: nat, size: nat): nat
    requires size > 0
  {
    Place(ptr, size)
  }

  ghost predicate Shape<T>(s: State<T>) {
    0 < s.size == |s.ring|
  }

  ghost predicate Enabled<T>(s: State<T>, e: Event<T>) {
    && Shape(s)
    && match e
       case PushCall(_) => s.sender.SIdle?
       case AddCredits => s.sender.SFlagSeen?
       case ClearFlag => s.sender.SAdded?
       case WriteSlot => s.sender.SReady?
       case AdvanceSender => s.sender.SWritten?
       case DelCall(k) => s.receiver.RIdle? && F.Enabled(s.q, F.Mark(k))
       case SetCall(k, y) => s.receiver.RIdle? && F.Enabled(s.q, F.Update(k, y))
       case TestValid => s.receiver.RTestValid?
       case TestDel => s.receiver.RTestDel?
       case Invalidate => s.receiver.RInvalidate?
       case AdvanceReceiver => s.receiver.RAdvance?
       case ReturnCredits => s.receiver.RReturn?
  }

  ghost function Next<T>(s: State<T>, e: Event<T>): State<T>
    requires Enabled(s, e)
  {
    var send, recv := Masked(s.sptr, s.size), Masked(s.rptr, s.size);
    match e
    case PushCall(x) =>
      if s.disabled || s.scredits != 0 then s.(sender := SReady(x))
      else if s.flag then s.(sender := SFlagSeen(x))
      else s
    case AddCredits => s.(scredits := Wrap32(s.scredits + Batch(s.size)), sender := SAdded(s.sender.x))
    case ClearFlag => s.(flag := false, sender := SReady(s.sender.x))
    case WriteSlot =>
      s.(ring := s.ring[send := Slot(s.sender.x, true, false)], sender := SWritten,
         q := F.Next(s.q, F.Push(s.sender.x)))
    case AdvanceSender => s.(sptr := Wrap32(s.sptr + 1), scredits := Sub32(s.scredits, 1), sender := SIdle)
    case DelCall(k) =>
      var loc := Masked(k, s.size);
      s.(ring := s.ring[loc := s.ring[loc].(del := true)],
         receiver := if loc == recv then RTestValid else RIdle,
         q := F.Next(s.q, F.Mark(k)))
    case SetCall(k, y) =>
      var loc := Masked(k, s.size);
      s.(ring := s.ring[loc := s.ring[loc].(data := y)], q := F.Next(s.q, F.Update(k, y)))
    case TestValid => s.(receiver := if s.ring[recv].valid then RTestDel else RIdle)
    case TestDel => s.(receiver := if s.ring[recv].del then RInvalidate else RIdle)
    case Invalidate => s.(ring := s.ring[recv := s.ring[recv].(valid := false)], receiver := RAdvance)
    case AdvanceReceiver =>
      s.(rptr := Wrap32(s.rptr + 1), rcredits := Wrap32(s.rcredits + 1),
         receiver := if Wrap32(s.rcredits + 1) == Batch(s.size) then RReturn else RTestValid,
         q := s.q.(released := s.q.released + 1))
    case ReturnCredits => s.(flag := true, rcredits := 0, receiver := RTestValid)
  }

  // ---------------------------------------------------------------- invariant

  function Pending<T>(sender: Sender<T>): nat {
    if sender.SWritten? then 1 else 0
  }

  /** The pointers are the counts of the history, as 32-bit words. */
  ghost predicate Pointers<T>(s: State<T>) {
    && ValidSize(s.size) && |s.ring| == s.size
    && F.Valid(s.q)
    && s.q.released <= |s.q.pushed| <= s.q.released + s.size
    && Pending(s.sender) <= |s.q.pushed|
    && s.sptr == Wrap32(|s.q.pushed| - Pending(s.sender))
    && s.rptr == Wrap32(s.q.released)
  }

  /** The slot of place k shows exactly what the history says of it. */
  ghost predicate Shows<T>(slot: Slot<T>, q: F.Queue<T>, k: nat, receiver: Receiver)
    requires k < |q.pushed|
  {
    slot == Slot(q.pushed[k], !(receiver.RAdvance? && k == q.released), k in q.deleted)
  }

  /** Valid slots are those between the receiver's pointer and the sender's, but for one that a
      del in progress has just invalidated. */
  ghost predicate Slots<T>(ring: seq<Slot<T>>, q: F.Queue<T>, receiver: Receiver) {
    && |ring| > 0
    && (forall k: nat | q.released <= k < |q.pushed| :: Shows(ring[Place(k, |ring|)], q, k, receiver))
    && (forall k: nat | |q.pushed| <= k < q.released + |ring| :: !ring[Place(k, |ring|)].valid)
  }

  /** Credits at the sender, places in use, credits at the receiver and a batch on its way always
      add up to SIZE. */
  ghost predicate Credits<T>(s: State<T>) {
    && Pending(s.sender) <= s.scredits
    && (s.scredits - Pending(s.sender)) + (|s.q.pushed| - s.q.released) + s.rcredits
       + (if s.flag && !s.sender.SAdded? then Batch(s.size) else 0) == s.size
    && (s.sender.SFlagSeen? ==> s.flag && s.scredits == 0)
    && (s.sender.SAdded? ==> s.flag && s.scredits == Batch(s.size))
    && (s.sender.SReady? ==> s.scredits > 0)
    && s.rcredits <= Batch(s.size)
    && (s.rcredits == Batch(s.size) <==> s.receiver.RReturn?)
  }

  /** How far a del in progress has got. */
  ghost predicate Progress<T>(q: F.Queue<T>, receiver: Receiver) {
    match receiver
    case RIdle => q.released !in q.deleted
    case RTestDel => q.released < |q.pushed|
    case RInvalidate => q.released in q.deleted
    case RAdvance => q.released in q.deleted
    case _ => true
  }

  /** Everything but the credits; holds with credits disabled as well. */
  ghost predicate Layout<T>(s: State<T>) {
    Pointers(s) && Slots(s.ring, s.q, s.receiver) && Progress(s.q, s.receiver)
  }

  ghost predicate Inv<T>(s: State<T>) {
    !s.disabled && Layout(s) && Credits(s)
  }

  /** The layout, and the credits where they are in use. */
  ghost predicate Sound<T>(s: State<T>) {
    Layout(s) && (!s.disabled ==> Credits(s))
  }

  ghost predicate HasRoom<T>(s: State<T>) {
    |s.q.pushed| < s.q.released + s.size
  }

  // ---------------------------------------------------------------- proof

  lemma MaskedIsSlot(count: nat, size: nat)
    requires ValidSize(size)
    ensures size > 0 && Masked(Wrap32(count), size) == Place(count, size)
  {
    Slot32(count, size);
  }

  lemma SlotsDiffer(i: nat, j: nat, size: nat)
    requires size > 0 && i < size + j && j < size + i && i != j
    ensures Place(i, size) != Place(j, size)
  {
    if i < j { PlacesDiffer(i, j, size); } else { PlacesDiffer(j, i, size); }
  }

  /** A push into a queue with room lands on a slot that is not valid, whatever grants the room:
      credits, or a bound on the elements in circulation when credits are disabled. */
  lemma PushFitsSlots<T>(ring: seq<Slot<T>>, q: F.Queue<T>, receiver: Receiver, x: T)
    requires F.Valid(q) && Slots(ring, q, receiver) && |q.pushed| < q.released + |ring|
    requires Progress(q, receiver)
    ensures !ring[Place(|q.pushed|, |ring|)].valid
    ensures Slots(ring[Place(|q.pushed|, |ring|) := Slot(x, true, false)], F.Next(q, F.Push(x)), receiver)
  {
    hide Place;
    var n, size := |q.pushed|, |ring|;
    var ring', q' := ring[Place(n, size) := Slot(x, true, false)], F.Next(q, F.Push(x));
    forall k: nat | q'.released <= k < |q'.pushed|
      ensures Shows(ring'[Place(k, size)], q', k, receiver)
    {
      if k < n { SlotsDiffer(k, n, size); }
    }
    forall k: nat | n + 1 <= k < q.released + size
      ensures !ring'[Place(k, size)].valid
    {
      SlotsDiffer(k, n, size);
    }
  }

  lemma WriteKeeps<T>(s: State<T>)
    requires Layout(s) && HasRoom(s) && Enabled(s, WriteSlot)
    ensures Layout(Next(s, WriteSlot))
  {
    hide Place;
    MaskedIsSlot(|s.q.pushed|, s.size);
    PushFitsSlots(s.ring, s.q, s.receiver, s.sender.x);
  }

  /** The receiver changes one slot in the window and the history agrees with the change. */
  lemma TouchKeepsSlots<T>(ring: seq<Slot<T>>, q: F.Queue<T>, receiver: Receiver, k: nat,
                           slot: Slot<T>, q': F.Queue<T>, receiver': Receiver)
    requires Slots(ring, q, receiver) && |q.pushed| <= q.released + |ring|
    requires q.released <= k < |q.pushed| == |q'.pushed| && q'.released == q.released
    requires Shows(slot, q', k, receiver')
    requires forall i: nat | q.released <= i < |q.pushed| && i != k ::
      && q'.pushed[i] == q.pushed[i] && (i in q'.deleted <==> i in q.deleted)
      && (receiver.RAdvance? && i == q.released <==> receiver'.RAdvance? && i == q.released)
    ensures Slots(ring[Place(k, |ring|) := slot], q', receiver')
  {
    hide Place;
    var size := |ring|;
    var ring' := ring[Place(k, size) := slot];
    forall i: nat | q.released <= i < q.released + size && i != k
      ensures ring'[Place(i, size)] == ring[Place(i, size)]
    {
      SlotsDiffer(i, k, size);
    }
    forall i: nat | q'.released <= i < |q'.pushed|
      ensures Shows(ring'[Place(i, size)], q', i, receiver')
    {
      if i != k {
        assert Shows(ring[Place(i, size)], q, i, receiver);
      }
    }
  }

  lemma DelKeeps<T>(s: State<T>, k: nat)
    requires Layout(s) && Enabled(s, DelCall(k))
    ensures Layout(Next(s, DelCall(k)))
  {
    hide Place;
    var s' := Next(s, DelCall(k));
    MaskedIsSlot(s.q.released, s.size);
    var loc := Place(k, s.size);
    assert Shows(s.ring[loc], s.q, k, s.receiver);
    TouchKeepsSlots(s.ring, s.q, s.receiver, k, s.ring[loc].(del := true), s'.q, s'.receiver);
    if k != s.q.released {
      SlotsDiffer(k, s.q.released, s.size);
    }
  }

  lemma SetKeeps<T>(s: State<T>, k: nat, y: T)
    requires Layout(s) && Enabled(s, SetCall(k, y))
    ensures Layout(Next(s, SetCall(k, y)))
  {
    hide Place;
    var s' := Next(s, SetCall(k, y));
    var loc := Place(k, s.size);
    assert Shows(s.ring[loc], s.q, k, s.receiver);
    TouchKeepsSlots(s.ring, s.q, s.receiver, k, s.ring[loc].(data := y), s'.q, s'.receiver);
  }

  lemma TestKeeps<T>(s: State<T>, e: Event<T>)
    requires Layout(s) && Enabled(s, e) && (e.TestValid? || e.TestDel?)
    ensures Layout(Next(s, e))
  {
    hide Place;
    MaskedIsSlot(s.q.released, s.size);
    if s.q.released < |s.q.pushed| {
      assert Shows(s.ring[Place(s.q.released, s.size)], s.q, s.q.released, s.receiver);
    }
  }

  lemma InvalidateKeeps<T>(s: State<T>)
    requires Layout(s) && Enabled(s, Invalidate)
    ensures Layout(Next(s, Invalidate))
  {
    hide Place;
    var s', k := Next(s, Invalidate), s.q.released;
    MaskedIsSlot(k, s.size);
    assert Shows(s.ring[Place(k, s.size)], s.q, k, s.receiver);
    TouchKeepsSlots(s.ring, s.q, s.receiver, k, s.ring[Place(k, s.size)].(valid := false), s'.q, s'.receiver);
  }

  lemma AdvanceKeepsSlots<T>(ring: seq<Slot<T>>, q: F.Queue<T>, receiver': Receiver)
    requires Slots(ring, q, RAdvance) && q.released < |q.pushed| <= q.released + |ring|
    requires !receiver'.RAdvance?
    ensures Slots(ring, q.(released := q.released + 1), receiver')
  {
    hide Place;
    var k, size := q.released, |ring|;
    assert Shows(ring[Place(k, size)], q, k, RAdvance);
    PlaceTurns(k, size);
    forall i: nat | k + 1 <= i < |q.pushed|
      ensures Shows(ring[Place(i, size)], q.(released := k + 1), i, receiver')
    {
      assert Shows(ring[Place(i, size)], q, i, RAdvance);
    }
  }

  lemma AdvanceKeeps<T>(s: State<T>)
    requires Layout(s) && Enabled(s, AdvanceReceiver)
    ensures Layout(Next(s, AdvanceReceiver))
  {
    hide Place;
    PlaceAdd(s.q.released, 1, TWO32);
    AdvanceKeepsSlots(s.ring, s.q, Next(s, AdvanceReceiver).receiver);
  }

  lemma LocalStepKeeps<T>(s: State<T>, e: Event<T>)
    requires Layout(s) && Enabled(s, e)
    requires e.PushCall? || e.AddCredits? || e.ClearFlag? || e.ReturnCredits? || e.AdvanceSender?
    ensures Layout(Next(s, e))
  {
    if e.AdvanceSender? {
      PlaceAdd(|s.q.pushed| - 1, 1, TWO32);
    }
  }

  lemma LayoutKeeps<T>(s: State<T>, e: Event<T>)
    requires Layout(s) && Enabled(s, e) && (e.WriteSlot? ==> HasRoom(s))
    ensures Layout(Next(s, e))
  {
    match e
    case WriteSlot => WriteKeeps(s);
    case DelCall(k) => DelKeeps(s, k);
    case SetCall(k, y) => SetKeeps(s, k, y);
    case TestValid => TestKeeps(s, e);
    case TestDel => TestKeeps(s, e);
    case Invalidate => InvalidateKeeps(s);
    case AdvanceReceiver => AdvanceKeeps(s);
    case _ => LocalStepKeeps(s, e);
  }

  lemma SenderCreditsKeep<T>(s: State<T>, e: Event<T>)
    requires Inv(s) && Enabled(s, e)
    requires e.PushCall? || e.AddCredits? || e.ClearFlag? || e.WriteSlot? || e.AdvanceSender?
    ensures Credits(Next(s, e))
  {
  }

  lemma ReceiverCreditsKeep<T>(s: State<T>, e: Event<T>)
    requires Inv(s) && Enabled(s, e)
    requires !(e.PushCall? || e.AddCredits? || e.ClearFlag? || e.WriteSlot? || e.AdvanceSender?)
    ensures Credits(Next(s, e))
  {
    hide Place, Slots;
    if e.AdvanceReceiver? {
      Small32(s.rcredits + 1);
    }
  }

  /** Every step of either side keeps the invariant. */
  lemma StepKeeps<T>(s: State<T>, e: Event<T>)
    requires Inv(s) && Enabled(s, e)
    ensures Inv(Next(s, e))
  {
    LayoutKeeps(s, e);
    if e.PushCall? || e.AddCredits? || e.ClearFlag? || e.WriteSlot? || e.AdvanceSender? {
      SenderCreditsKeep(s, e);
    } else {
      ReceiverCreditsKeep(s, e);
    }
  }

  /** The action of the tombstone FIFO that a step performs, if any. */
  function Action<T>(s: State<T>, e: Event<T>): seq<F.Event<T>>
    requires e.WriteSlot? ==> s.sender.SReady?
  {
    match e
    case WriteSlot => [F.Push(s.sender.x)]
    case DelCall(k) => [F.Mark(k)]
    case SetCall(k, y) => [F.Update(k, y)]
    case AdvanceReceiver => [F.Release]
    case _ => []
  }

  /** Each step is an action of the tombstone FIFO or leaves it alone. */
  lemma RefinesFifo<T>(s: State<T>, e: Event<T>)
    requires Inv(s) && Enabled(s, e)
    ensures var a := Action(s, e);
      if a == [] then Next(s, e).q == s.q else F.Enabled(s.q, a[0]) && Next(s, e).q == F.Next(s.q, a[0])
  {
    if e.AdvanceReceiver? {
      assert F.Enabled(s.q, F.Release);
    }
  }

  // ---------------------------------------------------------------- runs

  ghost predicate Legal<T>(s: State<T>, es: seq<Event<T>>)
    decreases |es|
  {
    es == [] || (Enabled(s, es[0]) && Legal(Next(s, es[0]), es[1..]))
  }

  ghost function After<T>(s: State<T>, es: seq<Event<T>>): State<T>
    requires Legal(s, es)
    decreases |es|
  {
    if es == [] then s else After(Next(s, es[0]), es[1..])
  }

  lemma {:induction false} RunKeeps<T>(s: State<T>, es: seq<Event<T>>)
    requires Inv(s) && Legal(s, es)
    ensures Inv(After(s, es))
    decreases |es|
  {
    if es != [] {
      StepKeeps(s, es[0]);
      RunKeeps(Next(s, es[0]), es[1..]);
    }
  }

  lemma StartSound<T>(s: State<T>)
    requires Start(s)
    ensures Layout(s) && Credits(s) && Sound(s)
  {
    assert s.sptr == Wrap32(0) && s.rptr == Wrap32(0);
  }

  lemma InitInv<T>(s: State<T>)
    requires Init(s)
    ensures Inv(s)
  {
    StartSound(s);
  }

  /** Credit conservation, in every interleaving. Nothing is in transit outside these four
      terms: while the sender is between adding a batch and clearing the flag, the flag no longer
      counts. */
  lemma CreditConservation<T>(s0: State<T>, es: seq<Event<T>>)
    requires Init(s0) && Legal(s0, es)
    ensures var s := After(s0, es);
      && s.q.released <= |s.q.pushed|
      && s.scredits - Pending(s.sender) + (|s.q.pushed| - s.q.released) + s.rcredits
         + (if s.flag && !s.sender.SAdded? then Batch(s.size) else 0) == s.size
  {
    InitInv(s0);
    RunKeeps(s0, es);
  }

  /** The receiver never sets a flag that is still set, and never while the sender is between
      reading the flag and clearing it; so no clear erases a fresh return. */
  lemma ReturnsAreNeverLost<T>(s0: State<T>, es: seq<Event<T>>)
    requires Init(s0) && Legal(s0, es) && After(s0, es).receiver.RReturn?
    ensures var s := After(s0, es);
      !s.flag && !s.sender.SFlagSeen? && !s.sender.SAdded?
  {
    InitInv(s0);
    RunKeeps(s0, es);
  }

  /** A push never lands on a slot that is still valid. */
  lemma PushNeverOverwrites<T>(s0: State<T>, es: seq<Event<T>>)
    requires Init(s0) && Legal(s0, es) && After(s0, es).sender.SReady?
    ensures var s := After(s0, es);
      0 < s.size == |s.ring| && !s.ring[Masked(s.sptr, s.size)].valid
  {
    InitInv(s0);
    RunKeeps(s0, es);
    FreeSlot(After(s0, es));
  }

  /** A sender out of credits with no return to collect is facing a receiver that still holds an
      undeleted element, or has not finished its del. */
  lemma SenderNeverStarves<T>(s0: State<T>, es: seq<Event<T>>)
    requires Init(s0) && Legal(s0, es)
    requires var s := After(s0, es);
      s.sender.SIdle? && s.receiver.RIdle? && s.scredits == 0 && !s.flag
    ensures var s := After(s0, es); F.Valid(s.q) && F.Live(s.q) != []
  {
    InitInv(s0);
    RunKeeps(s0, es);
  }

  /** A push is refused if and only if credits are in use, there is none left, and no batch has come
      back; it then changes nothing. */
  lemma RefusedExactly<T>(s: State<T>, x: T)
    requires Shape(s) && s.sender.SIdle?
    ensures Enabled(s, PushCall(x))
    ensures Next(s, PushCall(x)).sender.SIdle? <==> !s.disabled && s.scredits == 0 && !s.flag
    ensures Next(s, PushCall(x)).sender.SIdle? ==> Next(s, PushCall(x)) == s
  {
  }

  /** A push that is not refused goes through by the sender's own steps: the element is appended and the
      receiver is not disturbed. With credits disabled this takes room in the queue. */
  lemma PushGoesThrough<T>(s: State<T>, x: T) returns (es: seq<Event<T>>)
    requires Sound(s) && s.sender.SIdle? && (s.disabled ==> HasRoom(s))
    requires s.disabled || s.scredits != 0 || s.flag
    ensures Legal(s, es)
    ensures forall e | e in es ::
      e.PushCall? || e.AddCredits? || e.ClearFlag? || e.WriteSlot? || e.AdvanceSender?
    ensures var t := After(s, es);
      && t.sender.SIdle? && t.q == F.Next(s.q, F.Push(x))
      && t.rptr == s.rptr && t.rcredits == s.rcredits && t.receiver == s.receiver
  {
    hide Legal, After, Place, Slots;
    NoSteps(s);
    OneMore(s, [], s, PushCall(x));
    es := [] + [PushCall(x)];
    var t := Next(s, PushCall(x));
    if t.sender.SFlagSeen? {
      OneMore(s, es, t, AddCredits);
      es, t := es + [AddCredits], Next(t, AddCredits);
      OneMore(s, es, t, ClearFlag);
      es, t := es + [ClearFlag], Next(t, ClearFlag);
    }
    assert t.sender == SReady(x) && t.q == s.q && Shape(t);
    OneMore(s, es, t, WriteSlot);
    es, t := es + [WriteSlot], Next(t, WriteSlot);
    OneMore(s, es, t, AdvanceSender);
    es, t := es + [AdvanceSender], Next(t, AdvanceSender);
  }

  lemma NoSteps<T>(s: State<T>)
    ensures Legal(s, []) && After(s, []) == s
  {
  }

  lemma {:induction false} RunJoins<T>(s: State<T>, es: seq<Event<T>>, more: seq<Event<T>>)
    requires Legal(s, es) && Legal(After(s, es), more)
    ensures Legal(s, es + more) && After(s, es + more) == After(After(s, es), more)
    decreases |es|
  {
    hide Next, Enabled;
    if es == [] {
      assert es + more == more;
    } else {
      RunJoins(Next(s, es[0]), es[1..], more);
      assert (es + more)[1..] == es[1..] + more;
    }
  }

  lemma OneMore<T>(s: State<T>, es: seq<Event<T>>, t: State<T>, e: Event<T>)
    requires Legal(s, es) && After(s, es) == t && Enabled(t, e)
    ensures Legal(s, es + [e]) && After(s, es + [e]) == Next(t, e)
  {
    hide Next, Enabled;
    assert [e][1..] == [];
    RunJoins(s, es, [e]);
  }

  /** What a reader of the slots collects from the receiver's pointer on: it stops at the first
      slot that is not valid and skips those marked deleted. */
  ghost function Scan<T>(s: State<T>, j: nat): seq<T>
    requires Shape(s)
    decreases s.size - j
  {
    if j >= s.size then []
    else
      var slot := s.ring[Masked(Wrap32(s.rptr + j), s.size)];
      if !slot.valid then []
      else if slot.del then Scan(s, j + 1)
      else [slot.data] + Scan(s, j + 1)
  }

  lemma {:induction false} ScanFrom<T>(s: State<T>, j: nat)
    requires Layout(s) && s.receiver.RIdle? && j <= |s.q.pushed| - s.q.released
    ensures Scan(s, j) == F.Undeleted(s.q, s.q.released + j)
    decreases s.size - j
  {
    hide Place;
    if j < s.size {
      var k := s.q.released + j;
      PlaceAdd(s.q.released, j, TWO32);
      MaskedIsSlot(k, s.size);
      if k < |s.q.pushed| {
        assert Shows(s.ring[Place(k, s.size)], s.q, k, s.receiver);
        ScanFrom(s, j + 1);
      }
    }
  }

  /** Between dels the slots show, in pointer order, exactly the elements pushed and not deleted. */
  lemma ScanFindsTheLive<T>(s0: State<T>, es: seq<Event<T>>)
    requires Init(s0) && Legal(s0, es) && After(s0, es).receiver.RIdle?
    ensures var s := After(s0, es);
      && Shape(s) && F.Valid(s.q)
      && Scan(s, 0) == F.Live(s.q) == F.Undeleted(s.q, 0)
  {
    InitInv(s0);
    RunKeeps(s0, es);
    ScanFrom(After(s0, es), 0);
    F.LiveIsPushedMinusDeleted(After(s0, es).q, 0);
  }

  // ---------------------------------------------------------------- order per key

  /** Each del of the run hits the first live element of its key, and each set keeps the key of the
      element that it overwrites. */
  ghost predicate TakesFirst<T, K>(s: State<T>, es: seq<Event<T>>, keyOf: T -> K)
    requires Legal(s, es)
    decreases |es|
  {
    es == [] ||
      (&& (es[0].DelCall? ==> F.FirstMatch(s.q, keyOf, keyOf(s.q.pushed[es[0].k]), es[0].k))
       && (es[0].SetCall? ==> keyOf(es[0].y) == keyOf(s.q.pushed[es[0].k]))
       && TakesFirst(Next(s, es[0]), es[1..], keyOf))
  }

  /** An idle receiver that wants a live element of some key can take the first of that key. */
  lemma FirstCanBeTaken<T, K>(s: State<T>, keyOf: T -> K, i: nat) returns (k: nat)
    requires Inv(s) && s.receiver.RIdle? && s.q.released <= i < |s.q.pushed| && i !in s.q.deleted
    ensures k <= i && k !in s.q.deleted && Legal(s, [DelCall(k)]) && TakesFirst(s, [DelCall(k)], keyOf)
    ensures keyOf(s.q.pushed[k]) == keyOf(s.q.pushed[i])
  {
    k := F.FirstMatchIsFound(s.q, keyOf, i);
    var e: Event<T> := DelCall(k);
    assert [e][1..] == [];
  }

  /** The elements deleted in a run, in the order of the dels. */
  ghost function Taken<T>(s: State<T>, es: seq<Event<T>>): seq<T>
    requires Legal(s, es)
    decreases |es|
  {
    if es == [] then []
    else (if es[0].DelCall? then [s.q.pushed[es[0].k]] else []) + Taken(Next(s, es[0]), es[1..])
  }

  lemma StepKeepsOrder<T, K>(s: State<T>, e: Event<T>, taken: seq<T>, keyOf: T -> K, key: K)
    requires Inv(s) && Enabled(s, e) && F.InOrder(s.q, taken, keyOf, key)
    requires e.DelCall? ==> F.FirstMatch(s.q, keyOf, keyOf(s.q.pushed[e.k]), e.k)
    requires e.SetCall? ==> keyOf(e.y) == keyOf(s.q.pushed[e.k])
    ensures F.InOrder(Next(s, e).q, taken + (if e.DelCall? then [s.q.pushed[e.k]] else []), keyOf, key)
  {
    hide Inv, Next, F.InOrder;
    RefinesFifo(s, e);
    assert taken + [] == taken;
    if e.WriteSlot? {
      F.PushKeepsOrder(s.q, taken, s.sender.x, keyOf, key);
    } else if e.DelCall? {
      F.TakeKeepsOrder(s.q, taken, e.k, keyOf, key);
    } else if e.SetCall? {
      F.UpdateKeepsOrder(s.q, taken, e.k, e.y, keyOf, key);
    } else if e.AdvanceReceiver? {
      F.ReleaseKeepsOrder(s.q, taken, keyOf, key);
    }
  }

  lemma {:induction false} RunKeepsOrder<T, K>(s: State<T>, es: seq<Event<T>>, taken: seq<T>, keyOf: T -> K, key: K)
    requires Inv(s) && Legal(s, es) && TakesFirst(s, es, keyOf) && F.InOrder(s.q, taken, keyOf, key)
    ensures F.InOrder(After(s, es).q, taken + Taken(s, es), keyOf, key)
    decreases |es|
  {
    hide Inv, Next, F.InOrder, F.FirstMatch;
    if es == [] {
      assert taken + [] == taken;
    } else {
      var got := if es[0].DelCall? then [s.q.pushed[es[0].k]] else [];
      StepKeeps(s, es[0]);
      StepKeepsOrder(s, es[0], taken, keyOf, key);
      RunKeepsOrder(Next(s, es[0]), es[1..], taken + got, keyOf, key);
      assert taken + (got + Taken(Next(s, es[0]), es[1..])) == (taken + got) + Taken(Next(s, es[0]), es[1..]);
    }
  }

  /** First-match-then-delete keeps each key's order: in every interleaving whose dels hit the first
      live element of their key, and whose sets keep the key, the elements taken of a key followed by the
      live ones of that key are the elements pushed of it, as last set, in the order pushed. */
  lemma EachKeyInOrder<T, K>(s0: State<T>, es: seq<Event<T>>, keyOf: T -> K, key: K)
    requires Init(s0) && Legal(s0, es) && TakesFirst(s0, es, keyOf)
    ensures var q := After(s0, es).q;
      && F.Valid(q)
      && F.Only(Taken(s0, es), keyOf, key) + F.Only(F.Live(q), keyOf, key) == F.Only(q.pushed, keyOf, key)
  {
    hide Inv, After, Taken, F.Only, F.Gone, F.OldestGone;
    InitInv(s0);
    F.NothingYet(keyOf, key);
    RunKeepsOrder(s0, es, [], keyOf, key);
    assert [] + Taken(s0, es) == Taken(s0, es);
    F.TakenThenLeft(After(s0, es).q, Taken(s0, es), keyOf, key);
  }

  // ---------------------------------------------------------------- without credits

  /** Elements are only taken from the head. */
  ghost predicate HeadOnly<T>(q: F.Queue<T>) {
    forall k | k in q.deleted :: k <= q.released
  }

  /** How many have been taken; how many are left. */
  ghost function TakenCount<T>(q: F.Queue<T>): nat {
    if q.released in q.deleted then q.released + 1 else q.released
  }

  lemma {:induction false} AllLive<T>(q: F.Queue<T>, k: nat)
    requires k <= |q.pushed| && forall i | i in q.deleted :: i < k
    ensures |F.Undeleted(q, k)| == |q.pushed| - k
    decreases |q.pushed| - k
  {
    if k < |q.pushed| {
      AllLive(q, k + 1);
    }
  }

  lemma LiveCount<T>(q: F.Queue<T>)
    requires F.Valid(q) && HeadOnly(q)
    ensures TakenCount(q) <= |q.pushed| && |F.Live(q)| == |q.pushed| - TakenCount(q)
  {
    if q.released in q.deleted {
      AllLive(q, q.released + 1);
    } else {
      AllLive(q, q.released);
    }
  }

  /** A queue of at most n things in circulation: a push gives back one that is not in the queue, and
      the other side takes from the head. */
  ghost predicate Circulates<T>(s: State<T>, e: Event<T>, n: nat) {
    && Enabled(s, e) && F.Valid(s.q)
    && (e.PushCall? ==> |F.Live(s.q)| < n)
    && (e.DelCall? ==> e.k == s.q.released)
    && !e.SetCall?
  }

  ghost predicate CirculationRun<T>(s: State<T>, es: seq<Event<T>>, n: nat)
    decreases |es|
  {
    es == [] || (Circulates(s, es[0], n) && CirculationRun(Next(s, es[0]), es[1..], n))
  }

  lemma {:induction false} CirculationIsLegal<T>(s: State<T>, es: seq<Event<T>>, n: nat)
    requires CirculationRun(s, es, n)
    ensures Legal(s, es)
    decreases |es|
  {
    if es != [] {
      CirculationIsLegal(Next(s, es[0]), es[1..], n);
    }
  }

  ghost predicate Roomy<T>(s: State<T>, n: nat) {
    && s.disabled && n < s.size && Layout(s) && HeadOnly(s.q) && !s.sender.SFlagSeen? && !s.sender.SAdded?
    && |s.q.pushed| - TakenCount(s.q) <= n
    && (s.sender.SReady? ==> |s.q.pushed| - TakenCount(s.q) < n)
  }

  lemma RoomyHasRoom<T>(s: State<T>, n: nat)
    requires Roomy(s, n) && s.sender.SReady?
    ensures HasRoom(s)
  {
    hide Place;
  }

  lemma RoomyCounts<T>(s: State<T>, e: Event<T>, n: nat)
    requires Roomy(s, n) && Circulates(s, e, n) && Layout(Next(s, e))
    ensures Roomy(Next(s, e), n)
  {
    hide Place, Slots, Masked;
    LiveCount(s.q);
  }

  lemma RoomyKeeps<T>(s: State<T>, e: Event<T>, n: nat)
    requires Roomy(s, n) && Circulates(s, e, n)
    ensures Roomy(Next(s, e), n)
  {
    hide Next, Layout;
    if e.WriteSlot? {
      RoomyHasRoom(s, n);
    }
    LayoutKeeps(s, e);
    RoomyCounts(s, e, n);
  }

  lemma {:induction false} RoomyRun<T>(s: State<T>, es: seq<Event<T>>, n: nat)
    requires Roomy(s, n) && CirculationRun(s, es, n) && Legal(s, es)
    ensures Roomy(After(s, es), n)
    decreases |es|
  {
    hide Next, Roomy, Enabled;
    if es != [] {
      RoomyKeeps(s, es[0], n);
      RoomyRun(Next(s, es[0]), es[1..], n);
    }
  }

  /** Without credits: as long as fewer than SIZE things circulate, no push of any interleaving lands on
      a slot that is still valid, and the slots go on showing what was pushed and not taken. */
  lemma CirculationFits<T>(s0: State<T>, es: seq<Event<T>>, n: nat)
    requires Start(s0) && s0.disabled && n < s0.size && CirculationRun(s0, es, n)
    ensures Legal(s0, es)
    ensures var s := After(s0, es);
      && F.Valid(s.q) && |F.Live(s.q)| <= n && 0 < s.size == |s.ring|
      && (s.sender.SReady? ==> HasRoom(s) && !s.ring[Masked(s.sptr, s.size)].valid)
      && (s.receiver.RIdle? ==> Scan(s, 0) == F.Live(s.q))
  {
    hide Place, Scan, Masked, Legal, After, CirculationRun;
    StartSound(s0);
    CirculationIsLegal(s0, es, n);
    RoomyRun(s0, es, n);
    var s := After(s0, es);
    LiveCount(s.q);
    if s.sender.SReady? {
      RoomyHasRoom(s, n);
      FreeSlot(s);
    }
    if s.receiver.RIdle? {
      ScanFrom(s, 0);
    }
  }

  lemma FreeSlot<T>(s: State<T>)
    requires Layout(s) && HasRoom(s) && s.sender.SReady?
    ensures 0 < s.size == |s.ring| && !s.ring[Masked(s.sptr, s.size)].valid
  {
    hide Place;
    MaskedIsSlot(|s.q.pushed|, s.size);
    PushFitsSlots(s.ring, s.q, s.receiver, s.sender.x);
  }
}
