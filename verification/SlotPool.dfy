/** darray_t: a vector of slots that grows by doubling and hands out free slots, with a cursor that
    is always on a free one. */
module SlotPool {

  datatype Slot<T> = Slot(data: T, valid: bool)

  /** The occupied slots and what they hold. */
  ghost function Occupied<T>(data: seq<Slot<T>>): map<nat, T> {
    map i: nat | i < |data| && data[i].valid :: data[i].data
  }

  ghost function Taken<T>(data: seq<Slot<T>>): set<nat> {
    set i: nat | i < |data| && data[i].valid
  }

  class Pool<T> {
    const filler: T
    var data: seq<Slot<T>>
    var lowestAvailable: nat
    var highestPossible: nat
    var totalNum: int
    var size: nat

    ghost predicate Valid()
      reads this
    {
      && |data| == size
      && lowestAvailable < size && !data[lowestAvailable].valid
      && highestPossible < size
      && (forall i: nat | i < size && data[i].valid :: i <= highestPossible)
      && (highestPossible > 0 ==> data[highestPossible].valid)
      && totalNum == |Taken(data)|
    }

    ghost function Content(): map<nat, T>
      reads this
    {
      Occupied(data)
    }

    /** The first n slots are taken and the cursor is behind them. */
    ghost predicate Packed(n: nat)
      reads this
    {
      lowestAvailable == n && forall i: nat :: i in Content() <==> i < n
    }

    constructor (initSize: nat, filler: T)
      requires initSize > 0
      ensures Valid() && Content() == map[] && Packed(0)
    {
      this.filler := filler;
      data := seq(initSize, _ => Slot(filler, false));
      lowestAvailable, highestPossible, totalNum, size := 0, 0, 0, initSize;
      new;
      assert Taken(data) == {};
    }

    lemma InRange(loc: nat)
      requires Valid() && loc in Content()
      ensures loc < size
    {
    }

    /** add: takes the slot under the cursor and puts the cursor on the next free one. Slots are
        handed out in order until one is deleted. */
    method Add(input: T) returns (idx: nat)
      requires Valid()
      modifies this
      ensures Valid()
      ensures idx == old(lowestAvailable)
      ensures idx !in old(Content()) && Content() == old(Content())[idx := input]
      ensures old(Packed(lowestAvailable)) ==> Packed(idx + 1)
    {
      hide Occupied, Taken;
      idx := lowestAvailable;
      Free(data, idx);
      Updated(data, idx, Slot(input, true));
      data := data[lowestAvailable := Slot(input, true)];
      totalNum := totalNum + 1;
      ghost var free := Grow();
      if old(Packed(lowestAvailable)) {
        assert forall i: nat :: i in Content() <==> i in old(Content()) || i == idx;
        NextIsFree(data, idx, free);
      }
      AdvanceCursor(free);
      if idx > highestPossible {
        highestPossible := idx;
      }
    }

    /** Doubles the vector when it is full; there is a free slot afterwards. */
    method Grow() returns (ghost free: nat)
      requires 0 < size == |data| && totalNum == |Taken(data)|
      modifies this`data, this`size
      ensures |data| == size >= old(size) && free < size && !data[free].valid
      ensures Taken(data) == old(Taken(data)) && Content() == old(Content())
      ensures forall i | 0 <= i < old(size) :: data[i] == old(data)[i]
      ensures forall i | old(size) <= i < size :: !data[i].valid
    {
      if size <= totalNum {
        AtMostAll(data);
        free := size;
        data := data + seq(size, _ => Slot(filler, false));
        size := size * 2;
      } else {
        SomeFree(data);
        free :| free < size && !data[free].valid;
      }
    }

    /** The search loop of add. */
    method AdvanceCursor(ghost free: nat)
      requires |data| == size && lowestAvailable < size
      requires free < size && !data[free].valid && data[lowestAvailable].valid
      modifies this`lowestAvailable
      ensures lowestAvailable < size && !data[lowestAvailable].valid
      ensures var next := old(lowestAvailable) + 1;
        next < size && !data[next].valid ==> lowestAvailable == next
    {
      while true
        invariant lowestAvailable < size && lowestAvailable != free
        invariant var next := old(lowestAvailable) + 1;
          lowestAvailable == next - 1 || (next < size ==> data[next].valid)
        decreases if lowestAvailable < free then free - lowestAvailable else size - lowestAvailable + free
      {
        lowestAvailable := lowestAvailable + 1;
        if lowestAvailable == size {
          lowestAvailable := 0;
        }
        if !data[lowestAvailable].valid {
          break;
        }
      }
    }

    /** del. A slot that was free stays free, but is taken off the count all the same. */
    method Del(loc: nat)
      requires Valid() && loc < size
      modifies this
      ensures Valid() <==> loc in old(Content())
      ensures Content() == old(Content()) - {loc}
    {
      hide Occupied, Taken;
      Free(data, loc);
      Updated(data, loc, Slot(data[loc].data, false));
      data := data[loc := Slot(data[loc].data, false)];
      if loc == highestPossible {
        Lower();
      }
      totalNum := totalNum - 1;
    }

    /** The loop of del that looks for the highest slot still taken. */
    method Lower()
      requires |data| == size && highestPossible < size
      requires forall i: nat | i < size && data[i].valid :: i <= highestPossible
      modifies this`highestPossible
      ensures highestPossible < size && (highestPossible > 0 ==> data[highestPossible].valid)
      ensures forall i: nat | i < size && data[i].valid :: i <= highestPossible
    {
      while highestPossible > 0 && !data[highestPossible].valid
        invariant highestPossible < size
        invariant forall i: nat | i < size && data[i].valid :: i <= highestPossible
      {
        highestPossible := highestPossible - 1;
      }
    }

    function GetTotalSize(): (n: int)
      requires Valid()
      reads this
      ensures n == |Content()|
    {
      assert Content().Keys == Taken(data);
      totalNum
    }

    /** The highest occupied slot, or 0 when there is none. */
    function GetHighestPossible(): (h: nat)
      requires Valid()
      reads this
      ensures if Content() == map[] then h == 0 else h in Content() && forall i | i in Content() :: i <= h
    {
      assert highestPossible > 0 ==> highestPossible in Content();
      highestPossible
    }

    predicate IsValid(loc: int)
      requires Valid()
      reads this
      ensures IsValid(loc) <==> loc in Content()
    {
      0 <= loc <= highestPossible && data[loc].valid
    }

    function Get(loc: nat): T
      requires Valid() && loc in Content()
      reads this
      ensures Get(loc) == Content()[loc]
    {
      data[loc].data
    }

    /** Assignment through operator[]. */
    method Put(loc: nat, value: T)
      requires Valid() && loc in Content()
      modifies this`data
      ensures Valid() && Content() == old(Content())[loc := value]
    {
      Updated(data, loc, Slot(value, true));
      data := data[loc := Slot(value, true)];
    }

    /** iterator_init (from == 0) and iterator_next (from == prev + 1): the first occupied slot from
        there on, or -1. */
    method FirstFrom(from: nat) returns (loc: int)
      requires Valid()
      ensures loc == -1 ==> forall i | i in Content() :: i < from
      ensures loc != -1 ==>
        loc >= from && loc in Content() && forall i | i in Content() && from <= i :: loc <= i
    {
      loc := from;
      while loc <= highestPossible
        invariant loc >= from
        invariant forall i | i in Content() && from <= i :: loc <= i
      {
        if IsValid(loc) {
          return;
        }
        loc := loc + 1;
      }
      loc := -1;
    }
  }

  lemma Free<T>(data: seq<Slot<T>>, i: nat)
    requires i < |data|
    ensures data[i].valid <==> i in Occupied(data)
    ensures data[i].valid <==> i in Taken(data)
  {
  }

  /** When exactly the slots up to n are taken and one is free, the next one is. */
  lemma NextIsFree<T>(data: seq<Slot<T>>, n: nat, free: nat)
    requires forall i: nat :: i in Occupied(data) <==> i <= n
    requires free < |data| && !data[free].valid
    ensures n + 1 < |data| && !data[n + 1].valid
  {
    assert free !in Occupied(data) && n + 1 !in Occupied(data);
  }

  lemma Updated<T>(data: seq<Slot<T>>, i: nat, slot: Slot<T>)
    requires i < |data|
    ensures var data' := data[i := slot];
      && Occupied(data') == (if slot.valid then Occupied(data)[i := slot.data] else Occupied(data) - {i})
      && Taken(data') == (if slot.valid then Taken(data) + {i} else Taken(data) - {i})
  {
  }

  /** Fewer occupied slots than slots: one is free. */
  lemma SomeFree<T>(data: seq<Slot<T>>)
    requires |Taken(data)| < |data|
    ensures exists i: nat :: i < |data| && !data[i].valid
  {
    if forall i: nat | i < |data| :: data[i].valid {
      AllTaken(data);
    }
  }

  lemma {:induction false} AllTaken<T>(data: seq<Slot<T>>)
    requires forall i: nat | i < |data| :: data[i].valid
    ensures |Taken(data)| == |data|
    decreases |data|
  {
    if data != [] {
      var n := |data| - 1;
      AllTaken(data[..n]);
      assert Taken(data) == Taken(data[..n]) + {n};
    }
  }

  lemma {:induction false} AtMostAll<T>(data: seq<Slot<T>>)
    ensures |Taken(data)| <= |data|
    decreases |data|
  {
    if data != [] {
      var n := |data| - 1;
      AtMostAll(data[..n]);
      assert Taken(data) == Taken(data[..n]) + if data[n].valid then {n} else {};
    }
  }
}
