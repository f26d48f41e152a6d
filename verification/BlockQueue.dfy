/** locklessqueue_t_v3 as the code writes it, each call running without interruption. Between
    calls the object is a state of the step system in TwoBlockQueue. */
module BlockQueue {
  import opened Modular
  import B = TwoBlockQueue
  import C = CreditQueue
  import F = TombstoneFifo

  class Queue<T> {
    const size: nat
    var blocks: seq<B.Block<T>>  // shared memory: slots and return flags
    var avail: seq<bool>         // is_avail, on the sender's side
    var sblk: nat                // startptr and pointer of the sender
    var sptr: nat
    var rblk: nat                // startptr and pointer of the receiver
    var rptr: nat
    ghost var sbase: nat
    ghost var rbase: nat
    ghost var q: F.Queue<T>

    ghost function View(receiver: C.Receiver): B.State<T>
      reads this
    {
      B.State(size, blocks, sblk, sptr, avail, B.SIdle, rblk, rptr, receiver, sbase, rbase, q)
    }

    ghost predicate Valid()
      reads this
    {
      B.Inv(View(C.RIdle))
    }

    constructor (size: nat, filler: T)
      requires C.ValidSize(size)
      ensures Valid() && q == F.Empty() && this.size == size
    {
      this.size := size;
      var cleared := seq(size, _ => C.Slot(filler, false, false));
      blocks, avail := [B.Block(cleared, false), B.Block(cleared, false)], [true, true];
      sblk, sptr, rblk, rptr := 0, 0, 0, 0;
      sbase, rbase, q := 0, 0, F.Empty();
      new;
      B.InitInv(View(C.RIdle));
    }

    function Get(b: nat, i: nat): C.Slot<T>
      requires b < |blocks| && i < |blocks[b].slots|
      reads this
    {
      blocks[b].slots[i]
    }

    method Put(b: nat, i: nat, slot: C.Slot<T>)
      requires |blocks| == 2 && b < 2 && i < |blocks[b].slots|
      modifies this`blocks
      ensures blocks == old(blocks)[b := old(blocks[b]).(slots := old(blocks[b]).slots[i := slot])]
    {
      blocks := blocks[b := blocks[b].(slots := blocks[b].slots[i := slot])];
    }

    method PutFlag(b: nat, flag: bool)
      requires |blocks| == 2 && b < 2
      modifies this`blocks
      ensures blocks == old(blocks)[b := old(blocks[b]).(flag := flag)]
    {
      blocks := blocks[b := blocks[b].(flag := flag)];
    }

    /** check_next_avail */
    method CheckNextAvail(b: nat) returns (ok: bool)
      requires |blocks| == 2 && |avail| == 2 && b < 2
      modifies this`blocks, this`avail
      ensures ok == (old(blocks[b].flag) || old(avail[b]))
      ensures avail == if old(blocks[b].flag) then old(avail)[b := true] else old(avail)
      ensures blocks == old(blocks)[b := old(blocks[b]).(flag := false)]
    {
      if blocks[b].flag {
        avail := avail[b := true];
        PutFlag(b, false);
        return true;
      }
      return avail[b];
    }

    /** push_nb: refused exactly when the block is full and the other has not come back. */
    method PushNb(x: T) returns (ok: bool)
      requires Valid()
      modifies this`blocks, this`avail, this`sblk, this`sptr, this`sbase, this`q
      ensures Valid()
      ensures ok <==> !B.Refused(old(View(C.RIdle)))
      ensures ok ==> q == F.Next(old(q), F.Push(x))
      ensures !ok ==> q == old(q) && |q.pushed| - q.released >= size
    {
      hide Place, B.Inv;
      Shaped(View(C.RIdle));
      if sptr == size {
        ok := NextBlock(x);
        if !ok {
          return;
        }
      } else {
        RoomSteps(View(C.RIdle), x);
      }
      ghost var s := View(C.RIdle);
      PushSteps(s, x);
      Put(sblk, sptr, C.Slot(x, true, false));
      sptr := sptr + 1;
      q := F.Next(q, F.Push(x));
      assert View(C.RIdle) == Pushed(s, x);
      return true;
    }

    /** The first half of push_nb on a full block. */
    method NextBlock(ghost x: T) returns (ok: bool)
      requires Valid() && sptr == size
      modifies this`blocks, this`avail, this`sblk, this`sptr, this`sbase
      ensures ok <==> !B.Refused(old(View(C.RIdle)))
      ensures ok ==> B.Inv(View(C.RIdle).(sender := B.SReady(x)))
      ensures !ok ==> Valid() && |q.pushed| - q.released >= size
    {
      hide Place, B.Inv;
      ghost var s := View(C.RIdle);
      MoveSteps(s, x);
      avail := avail[sblk := false];
      ok := CheckNextAvail(B.Other(sblk));
      if !ok {
        assert View(C.RIdle) == s.(avail := s.avail[s.sblk := false]);
        return;
      }
      sptr := 0;
      sblk := B.Other(sblk);
      sbase := sbase + size;
      assert View(C.RIdle) == Moved(s);
    }

    /** iterator::del of the element in place `place`. An iterator at the head of the queue moves
        on with the head; any other stays where it is. */
    method Del(it: B.Iterator, ghost place: nat) returns (it': B.Iterator)
      requires Valid() && q.released <= place < |q.pushed| && B.On(it, place, size)
      modifies this`blocks, this`rblk, this`rptr, this`rbase, this`q
      ensures Valid()
      ensures q.pushed == old(q.pushed) && q.deleted == old(q.deleted) + {place}
      ensures old(q.released) <= q.released && q.released !in q.deleted
      ensures B.On(it', if place == old(q.released) then q.released else place, size)
    {
      hide Place, B.BlockOf, B.OffsetOf, B.Inv;
      ghost var s := View(C.RIdle);
      Shaped(s);
      DelStep(s, it, place);
      Put(it.b, it.i, Get(it.b, it.i).(del := true));
      q := F.Next(q, F.Mark(place));
      assert View(C.RTestValid) == Marked(s, it, place);
      Shaped(View(C.RTestValid));
      it' := it;
      while Get(rblk, rptr).valid && Get(rblk, rptr).del
        invariant B.Inv(View(C.RTestValid)) && B.Shape(View(C.RTestValid)) && rptr < size
        invariant q.pushed == old(q.pushed) && q.deleted == old(q.deleted) + {place}
        invariant old(q.released) <= q.released <= |q.pushed|
        invariant B.On(it', if place == old(q.released) then q.released else place, size)
        invariant place != old(q.released) ==> q.released == old(q.released)
        decreases |q.pushed| - q.released
      {
        HeadDeleted(View(C.RTestValid));
        it' := Release(it');
        Shaped(View(C.RTestValid));
      }
      LoopEnds(View(C.RTestValid));
      Shaped(View(C.RIdle));
    }

    /** One iteration of the loop in del, with the iterator at the head. */
    method Release(it: B.Iterator) returns (it': B.Iterator)
      requires B.Inv(View(C.RTestValid)) && B.On(it, q.released, size)
      requires Get(rblk, rptr).valid && Get(rblk, rptr).del
      modifies this`blocks, this`rblk, this`rptr, this`rbase, this`q
      ensures B.Inv(View(C.RTestValid))
      ensures q == old(q).(released := old(q.released) + 1)
      ensures B.On(it', q.released, size)
    {
      hide Place, B.Inv, B.On;
      ghost var s := View(C.RTestValid);
      ReleaseStep(s, it);
      Put(rblk, rptr, Get(rblk, rptr).(valid := false));
      it' := it;
      if rblk == it'.b && it'.i == rptr {
        it' := B.Iterator(it'.b, it'.i + 1);
      }
      rptr := rptr + 1;
      q := q.(released := q.released + 1);
      if rptr == size {
        assert View(C.RReturn) == Passed(s);
        if rblk == it'.b && it'.i == rptr {
          it' := B.Iterator(B.Other(it'.b), 0);
        }
        HandBack();
      } else {
        assert View(C.RTestValid) == Passed(s);
      }
    }

    /** The receiver is through with a block. */
    method HandBack()
      requires B.Inv(View(C.RReturn))
      modifies this`blocks, this`rblk, this`rptr, this`rbase
      ensures B.Inv(View(C.RTestValid))
    {
      hide Place, B.Inv;
      ghost var s := View(C.RReturn);
      Shaped(s);
      B.StepKeeps(s, B.ReturnBlock);
      PutFlag(rblk, true);
      rbase := rbase + size;
      rblk := B.Other(rblk);
      rptr := 0;
      assert View(C.RTestValid) == B.Next(s, B.ReturnBlock);
    }
  }

  /** The receiver steps over the slot at its pointer. */
  ghost function Passed<T>(s: B.State<T>): B.State<T>
    requires B.Shape(s) && s.rptr < s.size
  {
    B.WithSlot(s, s.rblk, s.rptr, B.SlotAt(s, s.rblk, s.rptr).(valid := false))
      .(rptr := s.rptr + 1, q := s.q.(released := s.q.released + 1),
        receiver := if s.rptr + 1 == s.size then C.RReturn else C.RTestValid)
  }

  lemma ReleaseStep<T>(s: B.State<T>, it: B.Iterator)
    requires B.Inv(s) && s.receiver.RTestValid? && B.On(it, s.q.released, s.size)
    requires B.SlotAt(s, s.rblk, s.rptr).valid && B.SlotAt(s, s.rblk, s.rptr).del
    ensures B.Shape(s) && s.rptr < s.size && B.Inv(Passed(s))
    ensures it == B.Iterator(s.rblk, s.rptr) && B.On(B.Succ(it, s.size), s.q.released + 1, s.size)
  {
    hide Place;
    PassSteps(s);
    B.FlatAt(s.rbase, s.rblk, s.rptr, s.size);
    B.SuccIsNextPlace(it, s.q.released, s.size);
  }

  lemma Shaped<T>(s: B.State<T>)
    requires B.Inv(s)
    ensures B.Shape(s) && F.Valid(s.q) && s.sptr <= s.size && (s.sender.SReady? ==> s.sptr < s.size)
    ensures s.receiver.RTestValid? ==> s.rptr < s.size
    ensures s.receiver.RIdle? ==> s.q.released !in s.q.deleted
  {
    hide Place, C.Slots;
  }

  lemma TestSteps<T>(s: B.State<T>)
    requires B.Inv(s) && s.receiver.RTestValid?
    requires B.SlotAt(s, s.rblk, s.rptr).valid && B.SlotAt(s, s.rblk, s.rptr).del
    ensures B.Inv(s.(receiver := C.RInvalidate))
  {
    hide Place, B.Inv;
    Shaped(s);
    B.StepKeeps(s, B.TestValid);
    B.StepKeeps(B.Next(s, B.TestValid), B.TestDel);
    assert B.Next(B.Next(s, B.TestValid), B.TestDel) == s.(receiver := C.RInvalidate);
  }

  lemma PassSteps<T>(s: B.State<T>)
    requires B.Inv(s) && s.receiver.RTestValid?
    requires B.SlotAt(s, s.rblk, s.rptr).valid && B.SlotAt(s, s.rblk, s.rptr).del
    ensures B.Inv(Passed(s))
  {
    hide Place, B.Inv;
    Shaped(s);
    TestSteps(s);
    var s2 := s.(receiver := C.RInvalidate);
    B.StepKeeps(s2, B.Invalidate);
    var s3 := B.Next(s2, B.Invalidate);
    B.StepKeeps(s3, B.AdvanceReceiver);
    assert B.Next(s3, B.AdvanceReceiver) == Passed(s);
  }

  /** push_nb into a block with room. */
  ghost function Pushed<T>(s: B.State<T>, x: T): B.State<T>
    requires B.Shape(s) && s.sptr < s.size
  {
    B.WithSlot(s, s.sblk, s.sptr, C.Slot(x, true, false))
      .(sptr := s.sptr + 1, q := F.Next(s.q, F.Push(x)))
  }

  lemma PushSteps<T>(s: B.State<T>, x: T)
    requires B.Inv(s.(sender := B.SReady(x))) && s.sender.SIdle?
    ensures B.Shape(s) && s.sptr < s.size
    ensures B.Inv(Pushed(s, x))
  {
    hide Place, B.Inv;
    Shaped(s.(sender := B.SReady(x)));
    var s1 := s.(sender := B.SReady(x));
    B.StepKeeps(s1, B.WriteSlot);
    B.StepKeeps(B.Next(s1, B.WriteSlot), B.AdvanceSender);
    assert B.Next(B.Next(s1, B.WriteSlot), B.AdvanceSender) == Pushed(s, x);
  }

  /** push_nb on a full block: marks it used up and moves to the other one, if that is back. */
  ghost function Moved<T>(s: B.State<T>): B.State<T>
    requires B.Shape(s)
  {
    var o := B.Other(s.sblk);
    var avail := s.avail[s.sblk := false];
    B.Switched(B.WithFlag(s, o, false).(avail := if s.blocks[o].flag then avail[o := true] else avail))
  }

  lemma MoveSteps<T>(s: B.State<T>, x: T)
    requires B.Inv(s) && s.sender.SIdle? && s.sptr == s.size
    ensures B.Shape(s)
    ensures B.Refused(s) ==>
      B.Inv(s.(avail := s.avail[s.sblk := false])) && |s.q.pushed| - s.q.released >= s.size
    ensures !B.Refused(s) ==> B.Inv(Moved(s).(sender := B.SReady(x)))
  {
    hide Place, B.Inv;
    Shaped(s);
    var s1 := B.Next(s, B.PushCall(x));
    B.StepKeeps(s, B.PushCall(x));
    if B.Refused(s) {
      assert |s.q.pushed| - s.q.released >= s.size by { Outstanding(s); }
    } else if s.blocks[B.Other(s.sblk)].flag {
      B.StepKeeps(s1, B.ClearFlag);
      assert B.Next(s1, B.ClearFlag) == Moved(s).(sender := B.SReady(x));
    } else {
      assert s.blocks == B.WithFlag(s, B.Other(s.sblk), false).blocks;
      assert s1 == Moved(s).(sender := B.SReady(x));
    }
  }

  lemma Outstanding<T>(s: B.State<T>)
    requires B.Inv(s) && s.sender.SIdle? && B.Refused(s)
    ensures |s.q.pushed| - s.q.released >= s.size
  {
  }

  lemma RoomSteps<T>(s: B.State<T>, x: T)
    requires B.Inv(s) && s.sender.SIdle? && s.sptr < s.size
    ensures B.Inv(s.(sender := B.SReady(x)))
  {
    B.StepKeeps(s, B.PushCall(x));
  }

  lemma LoopEnds<T>(s: B.State<T>)
    requires B.Inv(s) && s.receiver.RTestValid?
    requires !(B.SlotAt(s, s.rblk, s.rptr).valid && B.SlotAt(s, s.rblk, s.rptr).del)
    ensures B.Inv(s.(receiver := C.RIdle))
  {
    hide Place, B.Inv;
    Shaped(s);
    B.StepKeeps(s, B.TestValid);
    var s1 := B.Next(s, B.TestValid);
    if s1.receiver.RTestDel? {
      B.StepKeeps(s1, B.TestDel);
      assert B.Next(s1, B.TestDel) == s.(receiver := C.RIdle);
    }
  }

  /** The loop goes on only over deleted elements. */
  lemma HeadDeleted<T>(s: B.State<T>)
    requires B.Inv(s) && s.receiver.RTestValid?
    requires B.SlotAt(s, s.rblk, s.rptr).valid && B.SlotAt(s, s.rblk, s.rptr).del
    ensures s.q.released in s.q.deleted
  {
    hide Place;
    assert B.Shape(s) && s.rptr < s.size;
    B.StepKeeps(s, B.TestValid);
    B.StepKeeps(B.Next(s, B.TestValid), B.TestDel);
  }

  ghost function Marked<T>(s: B.State<T>, it: B.Iterator, place: nat): B.State<T>
    requires B.Shape(s) && it.b < 2 && it.i < s.size && F.Enabled(s.q, F.Mark(place))
  {
    B.WithSlot(s, it.b, it.i, B.SlotAt(s, it.b, it.i).(del := true))
      .(receiver := C.RTestValid, q := F.Next(s.q, F.Mark(place)))
  }

  lemma DelStep<T>(s: B.State<T>, it: B.Iterator, place: nat)
    requires B.Inv(s) && s.receiver.RIdle? && F.Enabled(s.q, F.Mark(place)) && B.On(it, place, s.size)
    ensures B.Shape(s) && it.b < 2 && it.i < s.size && B.Inv(Marked(s, it, place))
    ensures s.q.released !in s.q.deleted
  {
    hide Place;
    B.StepKeeps(s, B.DelCall(place));
    B.SlotShows(s, it, place);
  }
}
