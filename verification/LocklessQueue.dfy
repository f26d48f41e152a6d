/** locklessqueue_t as the code writes it: both ends of the queue and the shared slots between
    them, each call running without interruption. Between calls the object is a state of the
    step system in CreditQueue. `place` parameters are ghost: they name the element that a slot
    number stands for. */
module LocklessQueue {
  import opened Common
  import opened Modular
  import C = CreditQueue
  import F = TombstoneFifo

  class Queue<T> {
    const size: nat
    const ring: array<C.Slot<T>>
    const creditDisabled: bool
    var flag: bool
    var sptr: U32
    var scredits: U32
    var rptr: U32
    var rcredits: U32
    ghost var q: F.Queue<T>

    /** The queue with the receiver at some point of del. */
    ghost function View(receiver: C.Receiver): C.State<T>
      reads this, ring
    {
      C.State(size, creditDisabled, ring[..], flag, sptr, scredits, C.SIdle, rptr, rcredits, receiver, q)
    }

    ghost predicate ValidAt(receiver: C.Receiver)
      reads this, ring
    {
      C.Sound(View(receiver))
    }

    ghost predicate Valid()
      reads this, ring
    {
      ValidAt(C.RIdle)
    }

    /** A fresh queue over cleared memory. */
    constructor (size: nat, filler: T, creditDisabled: bool)
      requires C.ValidSize(size)
      ensures Valid() && q == F.Empty() && this.size == size && this.creditDisabled == creditDisabled
      ensures fresh(ring)
    {
      this.size := size;
      ring := new C.Slot<T>[size](_ => C.Slot(filler, false, false));
      flag, sptr, scredits, rptr, rcredits := false, 0, size, 0, 0;
      this.creditDisabled := creditDisabled;
      q := F.Empty();
      new;
      C.StartSound(View(C.RIdle));
    }

    /** push_nb: refused exactly when the credits are used up and no batch has come back. With
        credits disabled nothing refuses, and the caller must know there is room. */
    method PushNb(x: T) returns (ok: bool)
      requires Valid()
      requires creditDisabled ==> |q.pushed| < q.released + size
      modifies this`flag, this`sptr, this`scredits, this`q, ring
      ensures Valid()
      ensures ok <==> creditDisabled || old(scredits) > 0 || old(flag)
      ensures ok ==> q == F.Next(old(q), F.Push(x))
      ensures !ok ==> q == old(q) && F.Live(q) != []
    {
      hide Place, C.Sound;
      ghost var s := View(C.RIdle);
      Shaped(s);
      if !creditDisabled && scredits == 0 {
        if flag {
          scredits := Wrap32(scredits + C.Batch(size));
          flag := false;
          CollectSteps(s, x);
        } else {
          RefusedWhenFull(s);
          return false;
        }
      } else {
        Admitted(s, x);
      }
      s := View(C.RIdle).(sender := C.SReady(x));
      PushSteps(s);
      var local := C.Masked(sptr, size);
      ring[local] := C.Slot(x, true, false);
      sptr := Wrap32(sptr + 1);
      scredits := Sub32(scredits, 1);
      q := F.Next(q, F.Push(x));
      assert View(C.RIdle) == C.Next(C.Next(s, C.WriteSlot), C.AdvanceSender);
      return true;
    }

    /** del: the element becomes a tombstone, and when it was the oldest, the run of tombstones
        that now heads the queue is given back. */
    method Del(loc: nat, ghost place: nat)
      requires Valid() && q.released <= place < |q.pushed|
      requires Place(loc, size) == Place(place, size)
      modifies this`flag, this`rptr, this`rcredits, this`q, ring
      ensures Valid()
      ensures q.pushed == old(q.pushed) && q.deleted == old(q.deleted) + {place}
      ensures old(q.released) <= q.released
      ensures q.released !in q.deleted
    {
      hide Place, C.Sound;
      ghost var s := View(C.RIdle);
      Shaped(s);
      Step(s, C.DelCall(place));
      var l := C.Masked(loc, size);
      ring[l] := ring[l].(del := true);
      q := F.Next(q, F.Mark(place));
      if l == C.Masked(rptr, size) {
        assert View(C.RTestValid) == C.Next(s, C.DelCall(place));
        while ring[C.Masked(rptr, size)].valid && ring[C.Masked(rptr, size)].del
          invariant ValidAt(C.RTestValid)
          invariant q.pushed == old(q.pushed) && q.deleted == old(q.deleted) + {place}
          invariant old(q.released) <= q.released <= |q.pushed|
          decreases |q.pushed| - q.released
        {
          Release();
          Shaped(View(C.RTestValid));
        }
        LoopEnds(View(C.RTestValid));
      } else {
        assert View(C.RIdle) == C.Next(s, C.DelCall(place));
      }
      Shaped(View(C.RIdle));
    }

    /** One iteration of the loop in del. */
    method Release()
      requires ValidAt(C.RTestValid)
      requires ring[C.Masked(rptr, size)].valid && ring[C.Masked(rptr, size)].del
      modifies this`flag, this`rptr, this`rcredits, this`q, ring
      ensures ValidAt(C.RTestValid)
      ensures q == old(q).(released := old(q.released) + 1)
    {
      hide Place, C.Sound;
      ghost var s0 := View(C.RTestValid);
      Shaped(s0);
      ReleaseSteps(s0);
      var l := C.Masked(rptr, size);
      ring[l] := ring[l].(valid := false);
      rptr := Wrap32(rptr + 1);
      rcredits := Wrap32(rcredits + 1);
      if rcredits == C.Batch(size) {
        flag := true;
        rcredits := 0;
      }
      q := q.(released := q.released + 1);
      assert View(C.RTestValid) == Released(s0);
    }

    /** pop_nb: takes the oldest live element, or nothing when there is none. */
    method PopNb() returns (r: Option<T>)
      requires Valid()
      modifies this`flag, this`rptr, this`rcredits, this`q, ring
      ensures Valid()
      ensures r.None? ==> q == old(q) && F.Live(old(q)) == []
      ensures r.Some? ==> F.Live(old(q)) == [r.value] + F.Live(q)
      ensures r.Some? ==> q.pushed == old(q.pushed) && q.deleted == old(q.deleted) + {old(q.released)}
      ensures r.Some? ==> q.released !in q.deleted
    {
      var local := C.Masked(rptr, size);
      var ele := ring[local];
      HeadSlot(View(C.RIdle));
      if !ele.valid {
        return None;
      }
      ghost var k := q.released;
      C.MaskedIsSlot(k, size);
      TakingTheHead(q);
      ghost var marked := F.Next(q, F.Mark(k));
      Del(local, k);
      F.SameAfter(marked, q, k);
      F.LiveIsPushedMinusDeleted(q, k);
      return Some(ele.data);
    }

    /** peek at any slot: it is valid exactly when the place it stands for, counted from the oldest
        that was not given back, has been pushed; then it shows that element. */
    method Peek(loc: nat, ghost place: nat) returns (valid: bool, del: bool, output: T)
      requires Valid() && q.released <= place < q.released + size
      requires Place(loc, size) == Place(place, size)
      ensures valid <==> place < |q.pushed|
      ensures valid ==> del == (place in q.deleted) && output == q.pushed[place]
    {
      hide Place;
      var ele := ring[C.Masked(loc, size)];
      assert place < |q.pushed| ==> C.Shows(ring[..][Place(place, size)], q, place, C.RIdle);
      valid, del, output := ele.valid, ele.del, ele.data;
    }

    /** set: overwrites the data of a live element where it is. */
    method Set(loc: nat, input: T, ghost place: nat)
      requires Valid() && q.released <= place < |q.pushed| && place !in q.deleted
      requires Place(loc, size) == Place(place, size)
      modifies this`q, ring
      ensures Valid()
      ensures q == old(q).(pushed := old(q).pushed[place := input])
    {
      hide Place;
      ghost var s := View(C.RIdle);
      C.LayoutKeeps(s, C.SetCall(place, input));
      var l := C.Masked(loc, size);
      ring[l] := C.Slot(input, ring[l].valid, ring[l].del);
      q := F.Next(q, F.Update(place, input));
      assert View(C.RIdle) == C.Next(s, C.SetCall(place, input));
    }

    /** The scan of isempty can only end at a free slot or an undeleted element. */
    ghost predicate Scannable()
      reads this, ring
    {
      && C.Pointers(View(C.RIdle)) && C.Slots(ring[..], q, C.RIdle)
      && (C.HasRoom(View(C.RIdle)) || exists k: nat :: q.released <= k < |q.pushed| && k !in q.deleted)
    }

    /** isempty: whether nothing pushed is left undeleted. */
    method IsEmpty() returns (empty: bool)
      requires Scannable()
      ensures empty <==> F.Live(q) == []
    {
      hide Place, C.Slots, F.Undeleted;
      var tmp: nat := rptr;
      ghost var j := 0;
      SlotAt(View(C.RIdle), j);
      var blk := ring[C.Masked(tmp, size)];
      empty := true;
      while blk.valid
        invariant empty && j <= |q.pushed| - q.released && tmp == Wrap32(q.released + j)
        invariant F.Live(q) == F.Undeleted(q, q.released + j)
        invariant forall i: nat | q.released <= i < q.released + j :: i in q.deleted
        invariant blk == ring[C.Masked(tmp, size)]
        decreases |q.pushed| - q.released - j
      {
        SlotAt(View(C.RIdle), j);
        F.FirstPlace(q, q.released + j);
        if !blk.del {
          empty := false;
          break;
        }
        PlaceAdd(q.released + j, 1, TWO32);
        tmp := Wrap32(tmp + 1);
        j := j + 1;
        blk := ring[C.Masked(tmp, size)];
      }
      if !blk.valid {
        SlotAt(View(C.RIdle), j);
        F.NoneLeft(q);
      }
    }
  }

  /** A slot j places behind the receiver's pointer, all before it being tombstones. */
  lemma SlotAt<T>(s: C.State<T>, j: nat)
    requires C.Pointers(s) && C.Slots(s.ring, s.q, s.receiver) && s.receiver.RIdle?
    requires j <= |s.q.pushed| - s.q.released
    requires forall i: nat | s.q.released <= i < s.q.released + j :: i in s.q.deleted
    requires C.HasRoom(s) || exists k: nat :: s.q.released <= k < |s.q.pushed| && k !in s.q.deleted
    ensures var k, slot := s.q.released + j, s.ring[C.Masked(Wrap32(s.q.released + j), s.size)];
      && (slot.valid <==> k < |s.q.pushed|)
      && (slot.valid ==> (slot.del <==> k in s.q.deleted))
  {
    hide Place;
    var k := s.q.released + j;
    C.MaskedIsSlot(k, s.size);
    if k < |s.q.pushed| {
      assert C.Shows(s.ring[Place(k, s.size)], s.q, k, s.receiver);
    }
  }

  /** Collecting a returned batch leaves the sender with credits and a cleared flag. */
  lemma CollectSteps<T>(s: C.State<T>, x: T)
    requires C.Sound(s) && !s.disabled && s.sender.SIdle? && s.scredits == 0 && s.flag
    ensures C.Sound(s.(scredits := Wrap32(s.scredits + C.Batch(s.size)), flag := false,
                       sender := C.SReady(x)))
  {
    hide Place;
    var s1 := C.Next(s, C.PushCall(x));
    C.StepKeeps(s, C.PushCall(x));
    C.StepKeeps(s1, C.AddCredits);
    C.StepKeeps(C.Next(s1, C.AddCredits), C.ClearFlag);
  }

  lemma Admitted<T>(s: C.State<T>, x: T)
    requires C.Sound(s) && s.sender.SIdle? && (s.disabled || s.scredits != 0)
    ensures C.Sound(s.(sender := C.SReady(x)))
  {
    hide Place;
  }

  lemma RefusedWhenFull<T>(s: C.State<T>)
    requires C.Sound(s) && !s.disabled && s.sender.SIdle? && s.receiver.RIdle?
    requires s.scredits == 0 && !s.flag
    ensures F.Live(s.q) != []
  {
    hide Place;
  }

  lemma PushSteps<T>(s: C.State<T>)
    requires C.Sound(s) && s.sender.SReady? && (s.disabled ==> C.HasRoom(s))
    ensures C.Sound(C.Next(C.Next(s, C.WriteSlot), C.AdvanceSender))
  {
    hide Place;
    var s1 := C.Next(s, C.WriteSlot);
    C.LayoutKeeps(s, C.WriteSlot);
    C.LayoutKeeps(s1, C.AdvanceSender);
    if !s.disabled {
      C.StepKeeps(s, C.WriteSlot);
      C.StepKeeps(s1, C.AdvanceSender);
    }
  }

  /** Between dels the slot at the receiver's pointer is valid exactly when something is live, and
      then it holds the oldest live element. */
  lemma HeadSlot<T>(s: C.State<T>)
    requires C.Layout(s) && s.receiver.RIdle?
    ensures var slot := s.ring[C.Masked(s.rptr, s.size)];
      && (slot.valid <==> F.Live(s.q) != [])
      && (slot.valid ==> !slot.del && s.q.released < |s.q.pushed| && slot.data == s.q.pushed[s.q.released])
  {
    hide Place;
    var k := s.q.released;
    C.MaskedIsSlot(k, s.size);
    if k < |s.q.pushed| {
      assert C.Shows(s.ring[Place(k, s.size)], s.q, k, s.receiver);
    }
  }

  lemma TakingTheHead<T>(q: F.Queue<T>)
    requires F.Valid(q) && q.released < |q.pushed| && q.released !in q.deleted
    ensures F.Live(q) == [q.pushed[q.released]] + F.Undeleted(F.Next(q, F.Mark(q.released)), q.released)
  {
    F.SameAfter(q, F.Next(q, F.Mark(q.released)), q.released + 1);
  }

  /** One iteration of the loop in del, all its steps together. */
  ghost function Released<T>(s: C.State<T>): C.State<T>
    requires C.Shape(s)
  {
    var l := C.Masked(s.rptr, s.size);
    var full := Wrap32(s.rcredits + 1) == C.Batch(s.size);
    s.(ring := s.ring[l := s.ring[l].(valid := false)], rptr := Wrap32(s.rptr + 1),
       rcredits := if full then 0 else Wrap32(s.rcredits + 1), flag := s.flag || full,
       q := s.q.(released := s.q.released + 1))
  }

  lemma Shaped<T>(s: C.State<T>)
    requires C.Sound(s)
    ensures C.Shape(s) && F.Valid(s.q)
    ensures s.receiver.RIdle? ==> s.q.released !in s.q.deleted
  {
    hide Place, C.Slots;
  }

  lemma ReleaseSteps<T>(s: C.State<T>)
    requires C.Sound(s) && s.receiver.RTestValid?
    requires var l := C.Masked(s.rptr, s.size); s.ring[l].valid && s.ring[l].del
    ensures C.Sound(Released(s))
  {
    hide Place, C.Sound;
    Shaped(s);
    Step(s, C.TestValid);
    var s1 := C.Next(s, C.TestValid);
    Step(s1, C.TestDel);
    var s2 := C.Next(s1, C.TestDel);
    Step(s2, C.Invalidate);
    var s3 := C.Next(s2, C.Invalidate);
    Step(s3, C.AdvanceReceiver);
    var s4 := C.Next(s3, C.AdvanceReceiver);
    if s4.receiver.RReturn? {
      Step(s4, C.ReturnCredits);
      assert C.Next(s4, C.ReturnCredits) == Released(s);
    } else {
      assert s4 == Released(s);
    }
  }

  /** A step other than a push keeps the layout, and the credits when they are in use. */
  lemma Step<T>(s: C.State<T>, e: C.Event<T>)
    requires C.Sound(s) && C.Enabled(s, e) && !e.WriteSlot?
    ensures C.Sound(C.Next(s, e))
  {
    hide Place;
    C.LayoutKeeps(s, e);
    if !s.disabled {
      C.StepKeeps(s, e);
    }
  }

  /** The end of the loop in del: the slot at the pointer is free, or holds a live element. */
  lemma LoopEnds<T>(s: C.State<T>)
    requires C.Sound(s) && s.receiver.RTestValid?
    requires var l := C.Masked(s.rptr, s.size); !(s.ring[l].valid && s.ring[l].del)
    ensures C.Sound(s.(receiver := C.RIdle))
  {
    assert C.Shape(s);
    Step(s, C.TestValid);
    var s1 := C.Next(s, C.TestValid);
    if s1.receiver.RTestDel? {
      Step(s1, C.TestDel);
      assert C.Next(s1, C.TestDel) == s.(receiver := C.RIdle);
    }
  }
}
