/** FdRemapTable in place: every operation updates the vectors, the free list and the watermark as
    the code does, and is proved to do to them what FdTable says it does. */
module FdRemapTable {
  import opened F = FdTable

  class RemapTable {
    var forward: seq<Mapping>
    var reverse: seq<seq<int>>
    var refcount: seq<seq<int>>
    var freeList: seq<nat>
    var watermark: nat

    function View(): Table
      reads this
    {
      Table(forward, reverse, refcount, freeList, watermark)
    }

    ghost predicate Valid()
      reads this
    {
      Shape(View())
    }

    constructor ()
      ensures Valid() && View() == F.Init() && Agrees(View())
    {
      forward := seq(INITIAL_CAPACITY, _ => FREE);
      reverse := seq(NUM_TYPES, _ => seq(INITIAL_CAPACITY, _ => -1));
      refcount := seq(NUM_TYPES, _ => seq(INITIAL_CAPACITY, _ => 0));
      freeList := [];
      watermark := 0;
      new;
      InitAgrees();
      assert View() == F.Init();
    }

    /** The capacity loop of both ensure functions. */
    static method NewSize(size: nat, needed: nat) returns (r: nat)
      requires size > 0
      ensures r == Doubled(size, needed)
    {
      r := size;
      while r < needed
        invariant r >= size > 0 && Doubled(r, needed) == Doubled(size, needed)
        decreases needed - r
      {
        r := r * 2;
      }
    }

    method EnsureCapacity(v: nat)
      requires Valid()
      modifies this`forward
      ensures Valid() && View() == GrowForward(old(View()), v)
    {
      if v + 1 <= |forward| {
        assert Padded(forward, |forward|, FREE) == forward;
        return;
      }
      var size := NewSize(|forward|, v + 1);
      forward := Padded(forward, size, FREE);
    }

    method EnsureReverseCapacity(m: Mapping)
      requires Valid() && m.fd >= 0
      modifies this`reverse, this`refcount
      ensures Valid() && View() == GrowRows(old(View()), m)
    {
      var k := Row(m.typ);
      if m.fd + 1 <= |reverse[k]| {
        assert Padded(reverse[k], |reverse[k]|, -1) == reverse[k];
        assert Padded(refcount[k], |refcount[k]|, 0) == refcount[k];
        return;
      }
      var size := NewSize(|reverse[k]|, m.fd + 1);
      reverse := reverse[k := Padded(reverse[k], size, -1)];
      refcount := refcount[k := Padded(refcount[k], size, 0)];
    }

    /** decref_locked, with its linear rescan. */
    method DecRef(m: Mapping, dropped: nat) returns (left: int)
      requires Valid()
      modifies this`reverse, this`refcount
      ensures Valid()
      ensures F.Outcome(View(), left) == F.DecRef(old(View()), m, dropped)
    {
      var k := Row(m.typ);
      if m.typ.Unknown? || m.fd < 0 { return 0; }
      if m.fd >= |refcount[k]| { return 0; }
      if refcount[k][m.fd] <= 0 { return 0; }
      left := refcount[k][m.fd] - 1;
      refcount := refcount[k := refcount[k][m.fd := left]];
      if left == 0 {
        if reverse[k][m.fd] == dropped {
          reverse := reverse[k := reverse[k][m.fd := -1]];
        }
      } else if reverse[k][m.fd] == dropped {
        var replacement := -1;
        var i := 0;
        while i < |forward|
          invariant 0 <= i <= |forward| && replacement == -1
          invariant FirstHolder(forward, m, 0) == FirstHolder(forward, m, i)
        {
          if forward[i] == m {
            replacement := i;
            break;
          }
          i := i + 1;
        }
        assert replacement == FirstHolder(forward, m, 0);
        reverse := reverse[k := reverse[k][m.fd := replacement]];
      }
    }

    /** alloc_locked */
    method Take() returns (v: nat)
      requires Valid()
      modifies this`forward, this`freeList, this`watermark
      ensures Valid() && F.Outcome(View(), v) == F.Take(old(View()))
    {
      if freeList != [] {
        v := freeList[|freeList| - 1];
        freeList := freeList[..|freeList| - 1];
      } else {
        v := watermark;
        watermark := watermark + 1;
      }
      EnsureCapacity(v);
    }

    method AddRef(m: Mapping, v: nat)
      requires Valid() && m.fd >= 0
      modifies this`reverse, this`refcount
      ensures Valid() && View() == F.AddRef(old(View()), m, v)
    {
      if !m.typ.Unknown? {
        EnsureReverseCapacity(m);
        var k := Row(m.typ);
        if reverse[k][m.fd] < 0 {
          reverse := reverse[k := reverse[k][m.fd := v]];
        }
        refcount := refcount[k := refcount[k][m.fd := refcount[k][m.fd] + 1]];
      }
    }

    method Alloc(m: Mapping) returns (v: int)
      requires Valid()
      modifies this
      ensures Valid() && F.Outcome(View(), v) == F.Alloc(old(View()), m)
    {
      if m.fd < 0 { return m.fd; }
      v := Take();
      forward := forward[v := m];
      AddRef(m, v);
    }

    method Lookup(v: int) returns (m: Mapping)
      ensures m == F.Lookup(View(), v)
    {
      if v < 0 { return FREE; }
      if v >= |forward| { return FREE; }
      return forward[v];
    }

    method ReverseLookup(m: Mapping) returns (v: int)
      requires Valid()
      ensures v == F.Reverse(View(), m)
      ensures ReverseOk(View()) && Counted(m) ==>
        if v < 0 then v == -1 && Holders(forward, m) == {} else v < |forward| && forward[v] == m
    {
      if m.fd < 0 { return -1; }
      var row := reverse[Row(m.typ)];
      if m.fd >= |row| { return -1; }
      return row[m.fd];
    }

    method RefCountOf(v: int) returns (n: int)
      requires Valid()
      ensures n == if Counted(F.Lookup(View(), v)) then F.RefCount(View(), F.Lookup(View(), v)) else 0
    {
      if v < 0 { return 0; }
      if v >= |forward| { return 0; }
      var m := forward[v];
      if m.typ.Unknown? || m.fd < 0 { return 0; }
      if m.fd >= |refcount[Row(m.typ)]| { return 0; }
      return refcount[Row(m.typ)][m.fd];
    }

    method Dup(v: int) returns (w: int)
      requires Valid()
      modifies this
      ensures Valid() && F.Outcome(View(), w) == F.Dup(old(View()), v)
    {
      if v < 0 || v >= |forward| || forward[v].typ.Unknown? || forward[v].fd < 0 { return -1; }
      var src := forward[v];
      w := Take();
      forward := forward[w := src];
      EnsureReverseCapacity(src);
      var k := Row(src.typ);
      refcount := refcount[k := refcount[k][src.fd := refcount[k][src.fd] + 1]];
    }

    /** The part set and dup_to share. */
    method Bind(v: nat, m: Mapping) returns (prev: Mapping, prevRefs: int)
      requires Valid() && m.fd >= 0
      modifies this
      ensures Valid() && View() == F.Bind(old(View()), v, m)
      ensures prev == F.Lookup(old(View()), v)
      ensures prevRefs == if Counted(prev) then F.DecRef(old(View()), prev, v).result else -1
    {
      hide F.AddRef;
      prevRefs := -1;
      EnsureCapacity(v);
      prev := forward[v];
      if !prev.typ.Unknown? && prev.fd >= 0 {
        prevRefs := DecRef(prev, v);
      }
      forward := forward[v := m];
      AddRef(m, v);
      if v >= watermark { watermark := v + 1; }
    }

    method Set(v: int, m: Mapping)
      requires Valid()
      modifies this
      ensures Valid() && View() == F.Set(old(View()), v, m)
    {
      if v < 0 || m.fd < 0 { return; }
      var prev, prevRefs := Bind(v, m);
    }

    /** dup_to, with the count that the dropped binding is left with. */
    method DupTo(src: int, dst: int) returns (prev: Mapping, prevRefs: int)
      requires Valid()
      modifies this
      ensures Valid()
      ensures F.Rebound(View(), prev, prevRefs) == F.DupTo(old(View()), src, dst)
    {
      hide F.Bind, F.DecRef;
      if src < 0 || dst < 0 { return FREE, -1; }
      if src >= |forward| || forward[src].typ.Unknown? || forward[src].fd < 0 { return FREE, -1; }
      var m := forward[src];
      if src == dst {
        prevRefs := if m.fd < |refcount[Row(m.typ)]| then refcount[Row(m.typ)][m.fd] else 0;
        return FREE, prevRefs;
      }
      prev, prevRefs := Bind(dst, m);
    }

    method Free(v: int) returns (left: int)
      requires Valid()
      modifies this
      ensures Valid() && F.Outcome(View(), left) == F.Free(old(View()), v)
    {
      if v < 0 { return 0; }
      if v >= |forward| { return 0; }
      var cur := forward[v];
      if cur == FREE { return 0; }
      forward := forward[v := FREE];
      freeList := freeList + [v];
      if cur.typ.Unknown? || cur.fd < 0 { return 0; }
      left := DecRef(cur, v);
    }

    method LiveCount() returns (n: int)
      ensures n == F.LiveCount(View())
      ensures SlotsOk(View()) ==> n == |Mapped(forward)|
    {
      n := watermark - |freeList|;
      if SlotsOk(View()) {
        LiveCountIsMapped(View());
      }
    }
  }
}
