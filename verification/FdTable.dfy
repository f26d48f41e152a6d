/** FdRemapTable on values: the vectors, the free list and the watermark, what every operation does
    to them, and when they agree with one another. FdRemapTable.dfy runs the same operations in
    place. All operations run under one mutex. */
module FdTable {

  datatype FdType = Unknown | System | Socket | Epoll | Eventfd | File

  datatype Mapping = Mapping(typ: FdType, fd: int)

  const FREE := Mapping(Unknown, -1)
  const INITIAL_CAPACITY: nat := 256
  const NUM_TYPES: nat := 6

  /** reverse and refcount are vectors per type, indexed by the real fd. */
  datatype Table = Table(
    forward: seq<Mapping>,
    reverse: seq<seq<int>>,
    refcount: seq<seq<int>>,
    free: seq<nat>,
    watermark: nat)

  /** A table and what the call returned. */
  datatype Outcome = Outcome(table: Table, result: int)

  function Row(t: FdType): nat
    ensures Row(t) < NUM_TYPES
  {
    match t
    case Unknown => 0
    case System => 1
    case Socket => 2
    case Epoll => 3
    case Eventfd => 4
    case File => 5
  }

  predicate Shape(t: Table) {
    && |t.forward| > 0 && |t.reverse| == NUM_TYPES && |t.refcount| == NUM_TYPES
    && forall r | 0 <= r < NUM_TYPES :: 0 < |t.reverse[r]| == |t.refcount[r]|
  }

  function Init(): Table {
    Table(seq(INITIAL_CAPACITY, _ => FREE),
          seq(NUM_TYPES, _ => seq(INITIAL_CAPACITY, _ => -1)),
          seq(NUM_TYPES, _ => seq(INITIAL_CAPACITY, _ => 0)), [], 0)
  }

  /** Capacities double until they suffice. */
  function Doubled(size: nat, needed: nat): (r: nat)
    requires size > 0
    ensures r >= size && r >= needed
    decreases if needed > size then needed - size else 0
  {
    if size >= needed then size else Doubled(2 * size, needed)
  }

  function Padded<X>(s: seq<X>, size: nat, x: X): (r: seq<X>)
    requires size >= |s|
    ensures |r| == size
  {
    s + seq(size - |s|, _ => x)
  }

  /** ensure_capacity_locked */
  function GrowForward(t: Table, v: nat): (r: Table)
    requires Shape(t)
    ensures Shape(r) && v < |r.forward|
  {
    t.(forward := Padded(t.forward, Doubled(|t.forward|, v + 1), FREE))
  }

  /** ensure_reverse_capacity_locked */
  function GrowRows(t: Table, m: Mapping): (r: Table)
    requires Shape(t) && m.fd >= 0
    ensures Shape(r) && m.fd < |r.reverse[Row(m.typ)]|
  {
    var k := Row(m.typ);
    var size := Doubled(|t.reverse[k]|, m.fd + 1);
    t.(reverse := t.reverse[k := Padded(t.reverse[k], size, -1)],
       refcount := t.refcount[k := Padded(t.refcount[k], size, 0)])
  }

  /** reverse_[type][real_fd], -1 where the vector is too short. */
  function Reverse(t: Table, m: Mapping): int
    requires Shape(t)
  {
    var row := t.reverse[Row(m.typ)];
    if 0 <= m.fd < |row| then row[m.fd] else -1
  }

  function RefCount(t: Table, m: Mapping): int
    requires Shape(t)
  {
    var row := t.refcount[Row(m.typ)];
    if 0 <= m.fd < |row| then row[m.fd] else 0
  }

  function WithReverse(t: Table, m: Mapping, v: int): (r: Table)
    requires Shape(t) && 0 <= m.fd < |t.reverse[Row(m.typ)]|
    ensures Shape(r)
  {
    var k := Row(m.typ);
    t.(reverse := t.reverse[k := t.reverse[k][m.fd := v]])
  }

  function WithRefCount(t: Table, m: Mapping, n: int): (r: Table)
    requires Shape(t) && 0 <= m.fd < |t.reverse[Row(m.typ)]|
    ensures Shape(r)
  {
    var k := Row(m.typ);
    t.(refcount := t.refcount[k := t.refcount[k][m.fd := n]])
  }

  function At(forward: seq<Mapping>, v: int): Mapping {
    if 0 <= v < |forward| then forward[v] else FREE
  }

  function Lookup(t: Table, v: int): Mapping {
    At(t.forward, v)
  }

  /** The first virtual fd bound to m, or -1: the rescan in decref_locked. */
  function FirstHolder(forward: seq<Mapping>, m: Mapping, from: nat): (r: int)
    requires from <= |forward|
    ensures r == -1 || from <= r < |forward|
    decreases |forward| - from
  {
    if from == |forward| then -1
    else if forward[from] == m then from
    else FirstHolder(forward, m, from + 1)
  }

  /** decref_locked: the table and the new count. */
  function DecRef(t: Table, m: Mapping, dropped: nat): (r: Outcome)
    requires Shape(t)
    ensures Shape(r.table) && r.table.forward == t.forward
  {
    if m.typ.Unknown? || m.fd < 0 || m.fd >= |t.refcount[Row(m.typ)]| || RefCount(t, m) <= 0 then Outcome(t, 0)
    else
      var rc := RefCount(t, m) - 1;
      var t1 := WithRefCount(t, m, rc);
      if Reverse(t, m) != dropped then Outcome(t1, rc)
      else if rc == 0 then Outcome(WithReverse(t1, m, -1), rc)
      else Outcome(WithReverse(t1, m, FirstHolder(t.forward, m, 0)), rc)
  }

  /** One more reference to m, held by v: what alloc, set and dup_to end with. */
  function AddRef(t: Table, m: Mapping, v: nat): (r: Table)
    requires Shape(t) && m.fd >= 0
    ensures Shape(r)
  {
    if m.typ.Unknown? then t
    else
      var t1 := GrowRows(t, m);
      var t2 := if Reverse(t1, m) < 0 then WithReverse(t1, m, v) else t1;
      WithRefCount(t2, m, RefCount(t2, m) + 1)
  }

  /** alloc_locked */
  function Take(t: Table): (r: Outcome)
    requires Shape(t)
    ensures Shape(r.table) && 0 <= r.result < |r.table.forward|
  {
    if t.free != [] then
      var v := t.free[|t.free| - 1];
      Outcome(GrowForward(t.(free := t.free[..|t.free| - 1]), v), v)
    else Outcome(GrowForward(t.(watermark := t.watermark + 1), t.watermark), t.watermark)
  }

  function Alloc(t: Table, m: Mapping): (r: Outcome)
    requires Shape(t)
    ensures Shape(r.table)
  {
    if m.fd < 0 then Outcome(t, m.fd)
    else
      var Outcome(t1, v) := Take(t);
      Outcome(AddRef(t1.(forward := t1.forward[v := m]), m, v), v)
  }

  function Dup(t: Table, v: int): (r: Outcome)
    requires Shape(t)
    ensures Shape(r.table)
  {
    var src := Lookup(t, v);
    if src.typ.Unknown? || src.fd < 0 then Outcome(t, -1)
    else
      var Outcome(t1, w) := Take(t);
      var t2 := GrowRows(t1.(forward := t1.forward[w := src]), src);
      Outcome(WithRefCount(t2, src, RefCount(t2, src) + 1), w)
  }

  function Free(t: Table, v: int): (r: Outcome)
    requires Shape(t)
    ensures Shape(r.table)
  {
    var cur := Lookup(t, v);
    if cur == FREE then Outcome(t, 0)
    else
      var t1 := t.(forward := t.forward[v := FREE], free := t.free + [v]);
      DecRef(t1, cur, v)
  }

  /** The first half of set and dup_to: the old binding of v is dropped while forward still shows it. */
  function Dropped(t: Table, v: nat): (r: Table)
    requires Shape(t)
    ensures Shape(r) && v < |r.forward|
  {
    var t1 := GrowForward(t, v);
    DecRef(t1, t1.forward[v], v).table
  }

  /** What set and dup_to have in common. */
  function Bind(t: Table, v: nat, m: Mapping): (r: Table)
    requires Shape(t) && m.fd >= 0
    ensures Shape(r)
  {
    var t2 := Dropped(t, v);
    var t3 := AddRef(t2.(forward := t2.forward[v := m]), m, v);
    t3.(watermark := if v >= t.watermark then v + 1 else t.watermark)
  }

  function Set(t: Table, v: int, m: Mapping): (r: Table)
    requires Shape(t)
    ensures Shape(r)
  {
    if v < 0 || m.fd < 0 then t else Bind(t, v, m)
  }

  datatype Rebound = Rebound(table: Table, prev: Mapping, prevRefs: int)

  /** dup_to: the table, the previous binding of dst, and its count after the drop. */
  function DupTo(t: Table, src: int, dst: int): (r: Rebound)
    requires Shape(t)
    ensures Shape(r.table)
  {
    var m := Lookup(t, src);
    if src < 0 || dst < 0 || m.typ.Unknown? || m.fd < 0 then Rebound(t, FREE, -1)
    else if src == dst then Rebound(t, FREE, RefCount(t, m))
    else
      var prev := Lookup(t, dst);
      var left := if prev.typ.Unknown? || prev.fd < 0 then -1 else DecRef(t, prev, dst).result;
      Rebound(Bind(t, dst, m), prev, left)
  }

  function LiveCount(t: Table): int {
    t.watermark - |t.free|
  }

  // ---------------------------------------------------------------- agreement

  ghost function Holders(forward: seq<Mapping>, m: Mapping): set<nat> {
    set v: nat | v < |forward| && forward[v] == m
  }

  ghost function Mapped(forward: seq<Mapping>): set<nat> {
    set v: nat | v < |forward| && forward[v] != FREE
  }

  /** A resource that is counted. */
  predicate Counted(m: Mapping) {
    !m.typ.Unknown? && m.fd >= 0
  }

  /** Each refcount is the number of virtual fds bound to that resource. */
  ghost predicate CountsOk(t: Table)
    requires Shape(t)
  {
    forall m | Counted(m) :: RefCount(t, m) == |Holders(t.forward, m)|
  }

  /** The reverse index names a holder exactly when there is one. */
  ghost predicate ReverseOk(t: Table)
    requires Shape(t)
  {
    forall m | Counted(m) ::
      if Holders(t.forward, m) == {} then Reverse(t, m) == -1
      else 0 <= Reverse(t, m) && Reverse(t, m) in Holders(t.forward, m)
  }

  /** Free-list entries are distinct and unmapped. */
  ghost predicate FreeOk(forward: seq<Mapping>, free: seq<nat>, watermark: nat) {
    && (forall i, j | 0 <= i < j < |free| :: free[i] != free[j])
    && (forall v | v in free :: v < watermark && At(forward, v) == FREE)
  }

  /** Below the watermark everything not on the free list is mapped, but for the gap; above it
      nothing is. */
  ghost predicate WatermarkOk(forward: seq<Mapping>, free: seq<nat>, watermark: nat, gap: set<nat>) {
    && (forall v: nat | v < watermark && v !in free && v !in gap :: At(forward, v) != FREE)
    && (forall v: nat | v >= watermark :: At(forward, v) == FREE)
    && (forall v: nat | At(forward, v) != FREE :: At(forward, v).fd >= 0)
  }

  ghost predicate SlotsOk(t: Table) {
    FreeOk(t.forward, t.free, t.watermark) && WatermarkOk(t.forward, t.free, t.watermark, {})
  }

  ghost predicate NoneAbove(forward: seq<Mapping>, watermark: nat) {
    forall v: nat | v >= watermark :: At(forward, v) == FREE
  }

  /** What the counts depend on: the reverse index may be stale and slots may be missing from the free
      list, as long as nothing on it, and nothing at or above the watermark, is mapped. */
  ghost predicate Countable(t: Table) {
    Shape(t) && CountsOk(t) && FreeOk(t.forward, t.free, t.watermark) && NoneAbove(t.forward, t.watermark)
  }

  /** What the reverse index depends on: the counts, and itself. */
  ghost predicate Indexed(t: Table) {
    Countable(t) && ReverseOk(t)
  }

  ghost predicate Agrees(t: Table) {
    Shape(t) && CountsOk(t) && ReverseOk(t) && SlotsOk(t)
  }

  lemma AgreesExactly(t: Table)
    ensures Agrees(t) <==> Indexed(t) && SlotsOk(t)
  {
    hide CountsOk, ReverseOk, Shape;
  }

  // ---------------------------------------------------------------- effects of the parts

  lemma GrowForwardShows(t: Table, v: nat)
    requires Shape(t)
    ensures var t' := GrowForward(t, v);
      && t' == t.(forward := t'.forward)
      && (forall w: int :: At(t'.forward, w) == At(t.forward, w))
      && (forall m :: m != FREE ==> Holders(t'.forward, m) == Holders(t.forward, m))
      && Mapped(t'.forward) == Mapped(t.forward)
  {
  }

  lemma GrowRowsShows(t: Table, m: Mapping)
    requires Shape(t) && m.fd >= 0
    ensures var t' := GrowRows(t, m);
      && t' == t.(reverse := t'.reverse, refcount := t'.refcount)
      && (forall x :: Reverse(t', x) == Reverse(t, x) && RefCount(t', x) == RefCount(t, x))
  {
  }

  lemma RowsDiffer(a: FdType, b: FdType)
    ensures Row(a) == Row(b) <==> a == b
  {
  }

  lemma WithReverseShows(t: Table, m: Mapping, v: int)
    requires Shape(t) && 0 <= m.fd < |t.reverse[Row(m.typ)]|
    ensures var t' := WithReverse(t, m, v);
      forall x :: Reverse(t', x) == (if x == m then v else Reverse(t, x)) && RefCount(t', x) == RefCount(t, x)
  {
    forall x: Mapping
      ensures Reverse(WithReverse(t, m, v), x) == if x == m then v else Reverse(t, x)
    {
      RowsDiffer(x.typ, m.typ);
    }
  }

  lemma WithRefCountShows(t: Table, m: Mapping, n: int)
    requires Shape(t) && 0 <= m.fd < |t.reverse[Row(m.typ)]|
    ensures var t' := WithRefCount(t, m, n);
      forall x :: RefCount(t', x) == (if x == m then n else RefCount(t, x)) && Reverse(t', x) == Reverse(t, x)
  {
    forall x: Mapping
      ensures RefCount(WithRefCount(t, m, n), x) == if x == m then n else RefCount(t, x)
    {
      RowsDiffer(x.typ, m.typ);
    }
  }

  lemma AddRefShows(t: Table, m: Mapping, v: nat)
    requires Shape(t) && m.fd >= 0
    ensures var t' := AddRef(t, m, v);
      && t' == t.(reverse := t'.reverse, refcount := t'.refcount)
      && forall x | Counted(x) ::
           && RefCount(t', x) == RefCount(t, x) + (if x == m then 1 else 0)
           && Reverse(t', x) == if x == m && Reverse(t, x) < 0 then v else Reverse(t, x)
  {
    if !m.typ.Unknown? {
      var t1 := GrowRows(t, m);
      GrowRowsShows(t, m);
      WithReverseShows(t1, m, v);
      var t2 := if Reverse(t1, m) < 0 then WithReverse(t1, m, v) else t1;
      WithRefCountShows(t2, m, RefCount(t2, m) + 1);
    }
  }

  lemma DecRefShows(t: Table, m: Mapping, v: nat)
    requires Shape(t) && Counted(m) && RefCount(t, m) > 0
    ensures var o := DecRef(t, m, v); var t' := o.table;
      && o.result == RefCount(t, m) - 1
      && t' == t.(reverse := t'.reverse, refcount := t'.refcount)
      && forall x ::
           && RefCount(t', x) == RefCount(t, x) - (if x == m then 1 else 0)
           && Reverse(t', x) == if x != m || Reverse(t, m) != v then Reverse(t, x)
                                else if o.result == 0 then -1 else FirstHolder(t.forward, m, 0)
  {
    var t1 := WithRefCount(t, m, RefCount(t, m) - 1);
    WithRefCountShows(t, m, RefCount(t, m) - 1);
    WithReverseShows(t1, m, -1);
    WithReverseShows(t1, m, FirstHolder(t.forward, m, 0));
  }

  lemma DecRefOfUncounted(t: Table, m: Mapping, v: nat)
    requires Shape(t) && !Counted(m)
    ensures DecRef(t, m, v) == Outcome(t, 0)
  {
  }

  lemma {:induction false} FirstHolderIsLeast(forward: seq<Mapping>, m: Mapping, from: nat)
    requires from <= |forward|
    ensures var r := FirstHolder(forward, m, from);
      && (r == -1 ==> forall i | from <= i < |forward| :: forward[i] != m)
      && (r != -1 ==> forward[r] == m && forall i | from <= i < r :: forward[i] != m)
    decreases |forward| - from
  {
    if from < |forward| {
      FirstHolderIsLeast(forward, m, from + 1);
    }
  }

  /** The rescan returns the lowest holder, or -1 when there is none. */
  lemma RescanFinds(forward: seq<Mapping>, m: Mapping)
    ensures var r, held := FirstHolder(forward, m, 0), Holders(forward, m);
      && (held == {} ==> r == -1)
      && (held != {} ==> r in held && forall w | w in held :: r <= w)
  {
    FirstHolderIsLeast(forward, m, 0);
    var r := FirstHolder(forward, m, 0);
    if r != -1 {
      assert r in Holders(forward, m);
    }
  }

  /** Rebinding one virtual fd moves it from one set of holders to another. */
  lemma Rebinding(forward: seq<Mapping>, v: nat, m: Mapping)
    requires v < |forward|
    ensures var forward' := forward[v := m];
      && (forall x :: Holders(forward', x) == (if x == m then Holders(forward, x) + {v} else Holders(forward, x) - {v}))
      && (forall x :: v in Holders(forward, x) <==> x == forward[v])
      && (forall w: int :: At(forward', w) == if w == v then m else At(forward, w))
  {
  }

  // ---------------------------------------------------------------- alloc, dup, free

  /** What alloc_locked hands out is unmapped, and is the only gap it leaves. */
  lemma TakeShows(t: Table)
    requires Shape(t) && FreeOk(t.forward, t.free, t.watermark) && NoneAbove(t.forward, t.watermark)
    ensures var o := Take(t); var t', v := o.table, o.result;
      && Lookup(t, v) == FREE && 0 <= v < |t'.forward| && t'.forward[v] == FREE
      && t' == t.(forward := t'.forward, free := t'.free, watermark := t'.watermark)
      && (forall w: int :: At(t'.forward, w) == At(t.forward, w))
      && (forall m :: m != FREE ==> Holders(t'.forward, m) == Holders(t.forward, m))
      && FreeOk(t'.forward, t'.free, t'.watermark) && v !in t'.free && v < t'.watermark
      && NoneAbove(t'.forward, t'.watermark)
      && (SlotsOk(t) ==> WatermarkOk(t'.forward, t'.free, t'.watermark, {v}))
      && LiveCount(t') == LiveCount(t) + 1
  {
    hide Holders, GrowForward;
    if t.free != [] {
      var v := t.free[|t.free| - 1];
      var t1 := t.(free := t.free[..|t.free| - 1]);
      GrowForwardShows(t1, v);
      assert t.free == t1.free + [v] && v in t.free;
      assert At(GrowForward(t1, v).forward, v) == FREE;
    } else {
      var t1 := t.(watermark := t.watermark + 1);
      GrowForwardShows(t1, t.watermark);
      assert At(GrowForward(t1, t.watermark).forward, t.watermark) == FREE;
    }
  }

  /** An unmapped slot that is off the free list is bound, and its resource counted. */
  ghost predicate Fills(t: Table, v: nat, m: Mapping, t': Table)
    requires Shape(t) && Shape(t')
  {
    && v < |t.forward| && t.forward[v] == FREE && v !in t.free && v < t.watermark && m.fd >= 0
    && t'.forward == t.forward[v := m] && t'.free == t.free && t'.watermark == t.watermark
    && forall x | Counted(x) :: RefCount(t', x) == RefCount(t, x) + (if x == m then 1 else 0)
  }

  lemma FillKeepsCounts(t: Table, v: nat, m: Mapping, t': Table)
    requires Shape(t) && Shape(t') && Fills(t, v, m, t') && CountsOk(t)
    ensures CountsOk(t')
  {
    hide RefCount, Holders, Shape;
    Rebinding(t.forward, v, m);
    forall x | Counted(x)
      ensures RefCount(t', x) == |Holders(t'.forward, x)|
    {
      var held := Holders(t.forward, x);
      assert v !in held;
      assert held - {v} == held;
    }
  }

  lemma FillKeepsReverse(t: Table, v: nat, m: Mapping, t': Table)
    requires Shape(t) && Shape(t') && Fills(t, v, m, t') && ReverseOk(t)
    requires forall x | Counted(x) :: Reverse(t', x) == if x == m && Reverse(t, x) < 0 then v else Reverse(t, x)
    ensures ReverseOk(t')
  {
    hide Reverse, RefCount, Holders, Shape;
    Rebinding(t.forward, v, m);
    forall x | Counted(x)
      ensures if Holders(t'.forward, x) == {} then Reverse(t', x) == -1
              else 0 <= Reverse(t', x) && Reverse(t', x) in Holders(t'.forward, x)
    {
      var held := Holders(t.forward, x);
      assert v !in held;
      assert held - {v} == held;
      assert v in held + {v};
    }
  }

  lemma FillKeepsSlots(t: Table, v: nat, m: Mapping, t': Table)
    requires Shape(t) && Shape(t') && Fills(t, v, m, t')
    requires FreeOk(t.forward, t.free, t.watermark) && NoneAbove(t.forward, t.watermark)
    ensures FreeOk(t'.forward, t'.free, t'.watermark) && NoneAbove(t'.forward, t'.watermark)
    ensures WatermarkOk(t.forward, t.free, t.watermark, {v}) ==> SlotsOk(t')
  {
    hide RefCount, Holders, Shape;
    Rebinding(t.forward, v, m);
  }

  /** Taking a slot leaves counts and reverse index as they were. */
  lemma TakeKeeps(t: Table)
    requires Shape(t) && FreeOk(t.forward, t.free, t.watermark) && NoneAbove(t.forward, t.watermark)
    ensures var t' := Take(t).table;
      && (forall x :: RefCount(t', x) == RefCount(t, x) && Reverse(t', x) == Reverse(t, x))
      && (CountsOk(t) ==> CountsOk(t')) && (ReverseOk(t) ==> ReverseOk(t'))
  {
    hide Take, Holders, FreeOk, NoneAbove;
    TakeShows(t);
    forall x | Counted(x)
      ensures Holders(Take(t).table.forward, x) == Holders(t.forward, x)
    {
      assert x != FREE;
    }
  }

  lemma AllocShows(t: Table, m: Mapping)
    requires Shape(t) && FreeOk(t.forward, t.free, t.watermark) && NoneAbove(t.forward, t.watermark) && m.fd >= 0
    ensures var o, taken := Alloc(t, m), Take(t);
      && o.result == taken.result && Fills(taken.table, o.result, m, o.table)
      && forall x | Counted(x) ::
           Reverse(o.table, x) == if x == m && Reverse(taken.table, x) < 0 then o.result else Reverse(taken.table, x)
  {
    hide Take, Holders, FreeOk, NoneAbove, AddRef;
    TakeShows(t);
    var Outcome(t1, v) := Take(t);
    var t2 := t1.(forward := t1.forward[v := m]);
    SameRows(t1, t2);
    AddRefShows(t2, m, v);
  }

  lemma DupShows(t: Table, v: int)
    requires Shape(t) && FreeOk(t.forward, t.free, t.watermark) && NoneAbove(t.forward, t.watermark)
    requires Counted(Lookup(t, v))
    ensures var o, taken := Dup(t, v), Take(t);
      && o.result == taken.result && Fills(taken.table, o.result, Lookup(t, v), o.table)
      && forall x :: Reverse(o.table, x) == Reverse(taken.table, x)
  {
    hide Take, Holders, FreeOk, NoneAbove, GrowRows;
    TakeShows(t);
    var src := Lookup(t, v);
    var Outcome(t1, w) := Take(t);
    var t2 := t1.(forward := t1.forward[w := src]);
    SameRows(t1, t2);
    GrowRowsShows(t2, src);
    var t3 := GrowRows(t2, src);
    WithRefCountShows(t3, src, RefCount(t3, src) + 1);
  }

  /** alloc keeps everything in agreement and returns a virtual fd that was unmapped. What it keeps of
      the counts does not depend on the reverse index, and what it keeps of the slots on neither. */
  lemma AllocKeeps(t: Table, m: Mapping)
    requires Shape(t) && FreeOk(t.forward, t.free, t.watermark) && NoneAbove(t.forward, t.watermark) && m.fd >= 0
    ensures var o := Alloc(t, m);
      && FreeOk(o.table.forward, o.table.free, o.table.watermark) && NoneAbove(o.table.forward, o.table.watermark)
      && (CountsOk(t) ==> CountsOk(o.table)) && (ReverseOk(t) ==> ReverseOk(o.table))
      && (SlotsOk(t) ==> SlotsOk(o.table))
      && o.result >= 0 && Lookup(t, o.result) == FREE && Lookup(o.table, o.result) == m
      && (forall w: int | w != o.result :: Lookup(o.table, w) == Lookup(t, w))
      && (forall x | Counted(x) && (x != m || Reverse(t, x) >= 0) :: Reverse(o.table, x) == Reverse(t, x))
      && LiveCount(o.table) == LiveCount(t) + 1
  {
    hide Take, Alloc, FreeOk, NoneAbove, WatermarkOk, CountsOk, ReverseOk, Reverse, RefCount, Holders;
    TakeShows(t);
    TakeKeeps(t);
    AllocShows(t, m);
    var t1, v, t' := Take(t).table, Take(t).result, Alloc(t, m).table;
    Rebinding(t1.forward, v, m);
    FillKeepsSlots(t1, v, m, t');
    if CountsOk(t) { FillKeepsCounts(t1, v, m, t'); }
    if ReverseOk(t) { FillKeepsReverse(t1, v, m, t'); }
  }

  /** dup shares the resource under a fresh virtual fd, or fails on an unmapped one. */
  lemma DupKeeps(t: Table, v: int)
    requires Shape(t) && FreeOk(t.forward, t.free, t.watermark) && NoneAbove(t.forward, t.watermark)
    ensures var o, src := Dup(t, v), Lookup(t, v);
      && FreeOk(o.table.forward, o.table.free, o.table.watermark) && NoneAbove(o.table.forward, o.table.watermark)
      && (CountsOk(t) ==> CountsOk(o.table)) && (ReverseOk(t) ==> ReverseOk(o.table))
      && (SlotsOk(t) ==> SlotsOk(o.table))
      && (!Counted(src) ==> o == Outcome(t, -1))
      && (Counted(src) ==>
            && o.result >= 0 && Lookup(t, o.result) == FREE && Lookup(o.table, o.result) == src
            && (forall w: int | w != o.result :: Lookup(o.table, w) == Lookup(t, w))
            && (forall x :: Reverse(o.table, x) == Reverse(t, x))
            && RefCount(o.table, src) == RefCount(t, src) + 1
            && LiveCount(o.table) == LiveCount(t) + 1)
  {
    hide Take, FreeOk, NoneAbove, WatermarkOk, CountsOk, ReverseOk, Reverse, RefCount, Holders, WithRefCount, GrowRows;
    var src := Lookup(t, v);
    if Counted(src) {
      TakeShows(t);
      TakeKeeps(t);
      DupShows(t, v);
      var t1, w, t' := Take(t).table, Take(t).result, Dup(t, v).table;
      Rebinding(t1.forward, w, src);
      FillKeepsSlots(t1, w, src, t');
      if CountsOk(t) { FillKeepsCounts(t1, w, src, t'); }
      if ReverseOk(t) {
        HeldIsIndexed(t, v);
        FillKeepsReverse(t1, w, src, t');
      }
    }
  }

  lemma HeldIsIndexed(t: Table, v: int)
    requires Shape(t) && ReverseOk(t) && Counted(Lookup(t, v))
    ensures Reverse(t, Lookup(t, v)) >= 0
  {
    assert v in Holders(t.forward, Lookup(t, v));
  }

  /** The table once the slot is cleared and listed, before the reference is dropped. */
  ghost function Listed(t: Table, v: nat): Table
    requires v < |t.forward|
  {
    t.(forward := t.forward[v := FREE], free := t.free + [v])
  }

  lemma ListedKeepsSlots(t: Table, v: nat)
    requires FreeOk(t.forward, t.free, t.watermark) && NoneAbove(t.forward, t.watermark)
    requires v < |t.forward| && t.forward[v] != FREE
    ensures var t' := Listed(t, v); FreeOk(t'.forward, t'.free, t'.watermark) && NoneAbove(t'.forward, t'.watermark)
    ensures SlotsOk(t) ==> SlotsOk(Listed(t, v))
  {
    hide Holders;
    assert At(t.forward, v) != FREE;
    assert v !in t.free && v < t.watermark;
    Rebinding(t.forward, v, FREE);
  }

  lemma FreeIsDecRef(t: Table, v: nat)
    requires Shape(t) && Lookup(t, v) != FREE
    ensures v < |t.forward| && t.forward[v] == Lookup(t, v) == At(t.forward, v) && Shape(Listed(t, v))
    ensures Free(t, v) == DecRef(Listed(t, v), Lookup(t, v), v)
  {
  }

  lemma FreeOfFree(t: Table, v: int)
    requires Shape(t) && Lookup(t, v) == FREE
    ensures Free(t, v) == Outcome(t, 0)
  {
  }

  lemma SameRows(t: Table, t': Table)
    requires Shape(t) && Shape(t') && t'.refcount == t.refcount && t'.reverse == t.reverse
    ensures forall x :: RefCount(t', x) == RefCount(t, x) && Reverse(t', x) == Reverse(t, x)
  {
  }

  /** free, whatever the state of the free list. */
  lemma FreeShows(t: Table, v: nat)
    requires Shape(t) && CountsOk(t) && Lookup(t, v) != FREE
    ensures v < |t.forward| && t.forward[v] == Lookup(t, v)
    ensures var o, t1, cur := Free(t, v), Listed(t, v), Lookup(t, v);
      && o.table == t1.(reverse := o.table.reverse, refcount := o.table.refcount)
      && o.result == (if Counted(cur) then RefCount(t, cur) - 1 else 0)
      && forall x | Counted(x) ::
           && RefCount(o.table, x) == RefCount(t, x) - (if x == cur then 1 else 0)
           && Reverse(o.table, x) == if x != cur || Reverse(t, cur) != v then Reverse(t, x)
                                     else if RefCount(t, cur) == 1 then -1 else FirstHolder(t1.forward, cur, 0)
  {
    hide DecRef, Free, RefCount, Reverse, FirstHolder;
    FreeIsDecRef(t, v);
    var cur, t1 := Lookup(t, v), Listed(t, v);
    SameRows(t, t1);
    if Counted(cur) {
      assert v in Holders(t.forward, cur);
      DecRefShows(t1, cur, v);
    } else {
      DecRefOfUncounted(t1, cur, v);
    }
  }

  lemma FreeKeepsCounts(t: Table, v: nat)
    requires Shape(t) && CountsOk(t) && Lookup(t, v) != FREE
    ensures CountsOk(Free(t, v).table)
    ensures var o, cur := Free(t, v), Lookup(t, v);
      o.result == if Counted(cur) then |Holders(o.table.forward, cur)| else 0
  {
    hide Free, Holders, RefCount, FirstHolder;
    FreeShows(t, v);
    Rebinding(t.forward, v, FREE);
    forall x | Counted(x)
      ensures RefCount(Free(t, v).table, x) == |Holders(Free(t, v).table.forward, x)|
    {
      var held := Holders(t.forward, x);
      assert v in held <==> x == Lookup(t, v);
      assert v !in held ==> held - {v} == held;
    }
  }

  /** free clears the slot before the rescan, so the reverse index never keeps a dropped fd. */
  lemma FreeKeepsReverse(t: Table, v: nat)
    requires Shape(t) && CountsOk(t) && ReverseOk(t) && Lookup(t, v) != FREE
    ensures ReverseOk(Free(t, v).table)
  {
    hide Free, RefCount, Reverse, FirstHolder, Holders;
    var cur, t', t1 := Lookup(t, v), Free(t, v).table, Listed(t, v);
    FreeShows(t, v);
    Rebinding(t.forward, v, FREE);
    RescanFinds(t1.forward, cur);
    if Counted(cur) {
      OthersHold(t, v, cur);
    }
    forall x | Counted(x)
      ensures if Holders(t'.forward, x) == {} then Reverse(t', x) == -1
              else 0 <= Reverse(t', x) && Reverse(t', x) in Holders(t'.forward, x)
    {
      var held := Holders(t.forward, x);
      assert x != cur ==> held - {v} == held;
      assert Reverse(t, x) in held && Reverse(t, x) != v ==> Reverse(t, x) in held - {v};
    }
  }

  lemma OthersHold(t: Table, v: nat, m: Mapping)
    requires Shape(t) && CountsOk(t) && Counted(m) && v in Holders(t.forward, m)
    ensures Holders(t.forward, m) - {v} == {} <==> RefCount(t, m) == 1
  {
    assert |Holders(t.forward, m) - {v}| == RefCount(t, m) - 1;
  }

  lemma FreeKeepsSlots(t: Table, v: int)
    requires Shape(t) && FreeOk(t.forward, t.free, t.watermark) && NoneAbove(t.forward, t.watermark)
    ensures var t' := Free(t, v).table;
      && FreeOk(t'.forward, t'.free, t'.watermark) && NoneAbove(t'.forward, t'.watermark)
      && (SlotsOk(t) ==> SlotsOk(t'))
      && Lookup(t', v) == FREE && (forall w: int | w != v :: Lookup(t', w) == Lookup(t, w))
      && LiveCount(t') == LiveCount(t) - (if Lookup(t, v) == FREE then 0 else 1)
  {
    hide Free, DecRef, Holders;
    if Lookup(t, v) == FREE {
      FreeOfFree(t, v);
    } else {
      FreeIsDecRef(t, v);
      DecRefFrame(Listed(t, v), Lookup(t, v), v);
      ListedKeepsSlots(t, v);
      Rebinding(t.forward, v, FREE);
    }
  }

  lemma DecRefFrame(t: Table, m: Mapping, v: nat)
    requires Shape(t)
    ensures var t' := DecRef(t, m, v).table; t' == t.(reverse := t'.reverse, refcount := t'.refcount)
  {
  }

  /** free unmaps that virtual fd alone. The result is the number of virtual fds still bound to the
      resource. */
  lemma FreeKeeps(t: Table, v: int)
    requires Countable(t)
    ensures var o, cur := Free(t, v), Lookup(t, v);
      && Countable(o.table) && (ReverseOk(t) ==> ReverseOk(o.table)) && (SlotsOk(t) ==> SlotsOk(o.table))
      && (cur == FREE ==> o == Outcome(t, 0))
      && Lookup(o.table, v) == FREE
      && (forall w: int | w != v :: Lookup(o.table, w) == Lookup(t, w))
      && o.result == (if Counted(cur) then |Holders(o.table.forward, cur)| else 0)
      && LiveCount(o.table) == LiveCount(t) - (if cur == FREE then 0 else 1)
  {
    hide Free, FreeOk, NoneAbove, SlotsOk, CountsOk, ReverseOk, Holders;
    FreeKeepsSlots(t, v);
    if Lookup(t, v) == FREE {
      FreeOfFree(t, v);
    } else {
      FreeKeepsCounts(t, v);
      if ReverseOk(t) { FreeKeepsReverse(t, v); }
    }
  }

  // ---------------------------------------------------------------- live_count

  lemma LiveCountIsMapped(t: Table)
    requires SlotsOk(t)
    ensures LiveCount(t) == |Mapped(t.forward)|
  {
    var listed, all := Elements(t.free), UpTo(t.watermark);
    forall v: nat
      ensures v in Mapped(t.forward) <==> v in all - listed
    {
      assert v in Mapped(t.forward) <==> At(t.forward, v) != FREE;
    }
    assert Mapped(t.forward) == all - listed;
    assert listed <= all;
    SizeOfDistinct(t.free);
  }

  ghost function UpTo(n: nat): (r: set<nat>)
    ensures |r| == n && forall i: nat :: i in r <==> i < n
  {
    if n == 0 then {} else UpTo(n - 1) + {n - 1}
  }

  ghost function Elements(s: seq<nat>): set<nat> {
    set v | v in s
  }

  lemma {:induction false} SizeOfDistinct(s: seq<nat>)
    requires forall i, j | 0 <= i < j < |s| :: s[i] != s[j]
    ensures |Elements(s)| == |s|
    decreases |s|
  {
    if s != [] {
      var n := |s| - 1;
      SizeOfDistinct(s[..n]);
      assert Elements(s) == Elements(s[..n]) + {s[n]};
    }
  }

  // ---------------------------------------------------------------- set and dup_to

  /** The reverse index after the drop of v's old binding. */
  ghost function ReverseAfterDrop(t: Table, v: nat, x: Mapping): int
    requires Shape(t)
  {
    var prev := Lookup(t, v);
    if !Counted(prev) || x != prev || Reverse(t, prev) != v then Reverse(t, x)
    else if RefCount(t, prev) == 1 then -1
    else FirstHolder(GrowForward(t, v).forward, prev, 0)
  }

  lemma DroppedShows(t: Table, v: nat)
    requires Shape(t) && CountsOk(t)
    ensures var t', prev := Dropped(t, v), Lookup(t, v);
      && t' == t.(forward := GrowForward(t, v).forward, reverse := t'.reverse, refcount := t'.refcount)
      && forall x | Counted(x) ::
           && RefCount(t', x) == RefCount(t, x) - (if x == prev then 1 else 0)
           && Reverse(t', x) == ReverseAfterDrop(t, v, x)
  {
    hide GrowForward, DecRef, FirstHolder;
    var t1 := GrowForward(t, v);
    GrowForwardShows(t, v);
    var prev := At(t1.forward, v);
    assert prev == Lookup(t, v);
    if Counted(prev) {
      assert v in Holders(t.forward, prev);
      DecRefShows(t1, prev, v);
    } else {
      DecRefOfUncounted(t1, prev, v);
    }
  }

  lemma BindShows(t: Table, v: nat, m: Mapping)
    requires Shape(t) && CountsOk(t) && m.fd >= 0
    ensures var t', prev := Bind(t, v, m), Lookup(t, v);
      && t'.forward == GrowForward(t, v).forward[v := m] && t'.free == t.free
      && t'.watermark == (if v >= t.watermark then v + 1 else t.watermark)
      && forall x | Counted(x) ::
           && RefCount(t', x) == RefCount(t, x) - (if x == prev then 1 else 0) + (if x == m then 1 else 0)
           && var mid := ReverseAfterDrop(t, v, x);
              Reverse(t', x) == if x == m && mid < 0 then v else mid
  {
    hide GrowForward, Dropped, AddRef, ReverseAfterDrop;
    DroppedShows(t, v);
    var t2 := Dropped(t, v);
    AddRefShows(t2.(forward := t2.forward[v := m]), m, v);
  }

  /** After Bind, v holds m and nothing else. */
  lemma HoldersAfterBind(t: Table, v: nat, m: Mapping)
    requires Shape(t) && CountsOk(t) && m.fd >= 0
    ensures var forward' := Bind(t, v, m).forward;
      && (forall x | x != FREE :: Holders(forward', x)
            == (if x == m then Holders(t.forward, x) + {v} else Holders(t.forward, x) - {v}))
      && (forall x | x != FREE :: v in Holders(t.forward, x) <==> x == Lookup(t, v))
      && (forall x | x != FREE :: Holders(GrowForward(t, v).forward, x) == Holders(t.forward, x))
      && (forall w: int :: At(forward', w) == if w == v then m else At(t.forward, w))
  {
    BindShows(t, v, m);
    GrowForwardShows(t, v);
    Rebinding(GrowForward(t, v).forward, v, m);
    assert GrowForward(t, v).forward[v] == At(GrowForward(t, v).forward, v);
  }

  /** The counts stay right whatever v was, and whatever else in the table is out of step. */
  lemma BindKeepsCounts(t: Table, v: nat, m: Mapping)
    requires Shape(t) && CountsOk(t) && m.fd >= 0
    ensures CountsOk(Bind(t, v, m))
  {
    hide Bind, GrowForward, RefCount;
    BindShows(t, v, m);
    HoldersAfterBind(t, v, m);
    forall x | Counted(x)
      ensures RefCount(Bind(t, v, m), x) == |Holders(Bind(t, v, m).forward, x)|
    {
      var held := Holders(t.forward, x);
      assert v in held ==> held + {v} == held && |held - {v}| == |held| - 1;
      assert v !in held ==> held - {v} == held && |held + {v}| == |held| + 1;
    }
  }

  /** The case in which the rescan finds the slot that is being dropped: v is the vfd the reverse
      index names, others hold the resource too, and v is the lowest of them. */
  ghost predicate RescanFindsItself(t: Table, v: nat, m: Mapping)
    requires Shape(t)
  {
    var prev := Lookup(t, v);
    && Counted(prev) && prev != m && Reverse(t, prev) == v && RefCount(t, prev) > 1
    && forall w: nat | w < v :: Lookup(t, w) != prev
  }

  /** The reverse index survives set and dup_to exactly when the rescan does not find the slot that
      is being dropped. */
  lemma BindKeepsReverse(t: Table, v: nat, m: Mapping)
    requires Shape(t) && CountsOk(t) && ReverseOk(t) && m.fd >= 0
    ensures ReverseOk(Bind(t, v, m)) <==> !RescanFindsItself(t, v, m)
  {
    hide Bind, GrowForward;
    var t', prev := Bind(t, v, m), Lookup(t, v);
    BindShows(t, v, m);
    HoldersAfterBind(t, v, m);
    RescanFinds(GrowForward(t, v).forward, prev);
    if Counted(prev) {
      OthersHold(t, v, prev);
    }
    if RescanFindsItself(t, v, m) {
      assert forall w | w in Holders(t.forward, prev) :: Lookup(t, w) == prev;
      assert Reverse(t', prev) == v;
    } else {
      forall x | Counted(x)
        ensures if Holders(t'.forward, x) == {} then Reverse(t', x) == -1
                else 0 <= Reverse(t', x) && Reverse(t', x) in Holders(t'.forward, x)
      {
        var held := Holders(t.forward, x);
        assert x != prev ==> held - {v} == held;
        assert Reverse(t, x) in held && Reverse(t, x) != v ==> Reverse(t, x) in held - {v};
        if x == prev && x != m && Reverse(t, x) == v && RefCount(t, x) > 1 {
          var w: nat :| w < v && Lookup(t, w) == prev;
          assert w in Holders(t.forward, x);
        }
      }
    }
  }

  /** What set and dup_to do to forward map, free list and watermark, whatever the rest. */
  lemma BindFrame(t: Table, v: nat, m: Mapping)
    requires Shape(t) && m.fd >= 0
    ensures var t' := Bind(t, v, m);
      && v < |t'.forward| && t'.forward == GrowForward(t, v).forward[v := m] && t'.free == t.free
      && t'.watermark == (if v >= t.watermark then v + 1 else t.watermark)
      && (forall w: int :: At(t'.forward, w) == if w == v then m else At(t.forward, w))
      && Mapped(t'.forward) == Mapped(t.forward) + {v}
  {
    hide GrowForward, DecRef, AddRef;
    var t1 := GrowForward(t, v);
    GrowForwardShows(t, v);
    DecRefFrame(t1, t1.forward[v], v);
    var t2 := Dropped(t, v);
    AddRefShows(t2.(forward := t2.forward[v := m]), m, v);
    assert forall w: nat :: w in Mapped(t2.forward[v := m]) <==> w in Mapped(t1.forward) || w == v;
  }

  /** The free list and the watermark survive exactly when v was mapped or is the next one that
      alloc would make, and exactly then live_count is right. Bind never takes v off the free list and
      never fills the gap it leaves when it raises the watermark by more than one. */
  lemma BindKeepsSlots(t: Table, v: nat, m: Mapping)
    requires Shape(t) && SlotsOk(t) && m.fd >= 0
    ensures SlotsOk(Bind(t, v, m)) <==> Lookup(t, v) != FREE || v == t.watermark
    ensures LiveCount(Bind(t, v, m)) == |Mapped(Bind(t, v, m).forward)| <==> Lookup(t, v) != FREE || v == t.watermark
  {
    hide Bind, GrowForward;
    var t', held := Bind(t, v, m), Mapped(t.forward);
    BindFrame(t, v, m);
    LiveCountIsMapped(t);
    assert v in held <==> Lookup(t, v) != FREE;
    assert v in held ==> held + {v} == held;
    if Lookup(t, v) == FREE && v != t.watermark {
      if v < t.watermark {
        assert v in t'.free;
      } else {
        assert At(t'.forward, t.watermark) == FREE && t.watermark !in t'.free;
      }
      assert !SlotsOk(t');
    } else {
      assert v !in t.free;
      assert SlotsOk(t');
    }
  }

  /** All together: set and dup_to keep the table in agreement if and only if the rescan does not
      find itself, and the target was mapped or is the next fresh one. */
  lemma BindExactly(t: Table, v: nat, m: Mapping)
    requires Agrees(t) && m.fd >= 0
    ensures Agrees(Bind(t, v, m)) <==>
      !RescanFindsItself(t, v, m) && (Lookup(t, v) != FREE || v == t.watermark)
  {
    hide Bind, CountsOk, ReverseOk, SlotsOk, RescanFindsItself, Lookup;
    BindKeepsCounts(t, v, m);
    BindKeepsReverse(t, v, m);
    BindKeepsSlots(t, v, m);
  }

  /** The drop with the slot cleared before the rescan, the order free uses. */
  function Cleared(t: Table, v: nat): (r: Table)
    requires Shape(t)
    ensures Shape(r) && v < |r.forward|
  {
    var t1 := GrowForward(t, v);
    DecRef(t1.(forward := t1.forward[v := FREE]), t1.forward[v], v).table
  }

  lemma ClearedDrop(t: Table, v: nat)
    requires Shape(t) && CountsOk(t) && ReverseOk(t)
    ensures var t' := Cleared(t, v);
      Shape(t') && ReverseOk(t') && v < |t'.forward| && t'.forward[v] == FREE
  {
    var t1 := GrowForward(t, v);
    GrowForwardShows(t, v);
    var prev := t1.forward[v];
    assert prev == At(t1.forward, v) == Lookup(t, v);
    var t1' := t1.(forward := t1.forward[v := FREE]);
    var t2 := DecRef(t1', prev, v).table;
    Rebinding(t1.forward, v, FREE);
    if Counted(prev) {
      DecRefShows(t1', prev, v);
      OthersHold(t, v, prev);
      RescanFinds(t1'.forward, prev);
    }
    forall x | Counted(x)
      ensures if Holders(t1'.forward, x) == {} then Reverse(t2, x) == -1
              else 0 <= Reverse(t2, x) && Reverse(t2, x) in Holders(t1'.forward, x)
    {
      var held := Holders(t.forward, x);
      assert x != prev ==> held - {v} == held;
      assert Reverse(t, x) in held && Reverse(t, x) != v ==> Reverse(t, x) in held - {v};
    }
  }

  /** In that order the reverse index would always survive. */
  lemma ClearingFirstKeepsReverse(t: Table, v: nat, m: Mapping)
    requires Shape(t) && CountsOk(t) && ReverseOk(t) && m.fd >= 0
    ensures var t2 := Cleared(t, v); ReverseOk(AddRef(t2.(forward := t2.forward[v := m]), m, v))
  {
    ClearedDrop(t, v);
    var t2 := Cleared(t, v);
    Rebinding(t2.forward, v, m);
    AddRefShows(t2.(forward := t2.forward[v := m]), m, v);
  }

  /** set binds the virtual fd it is given, and no other, or refuses and leaves the table as it is. */
  lemma SetBindsOne(t: Table, v: int, m: Mapping)
    requires Shape(t) && CountsOk(t)
    ensures v < 0 || m.fd < 0 ==> Set(t, v, m) == t
    ensures v >= 0 && m.fd >= 0 ==> forall w: int :: Lookup(Set(t, v, m), w) == if w == v then m else Lookup(t, w)
  {
    hide Bind;
    if v >= 0 && m.fd >= 0 {
      HoldersAfterBind(t, v, m);
    }
  }

  /** dup_to binds dst, and no other virtual fd, to what src is bound to, and reports the old binding of
      dst and how many virtual fds it leaves bound there. From an unbound src or to a negative dst it
      fails, and onto itself it reports how many share the binding; either way the table stays as it is. */
  lemma DupToReports(t: Table, src: int, dst: int)
    requires Shape(t) && CountsOk(t)
    ensures var r, prev, m := DupTo(t, src, dst), Lookup(t, dst), Lookup(t, src);
      if !Counted(m) || dst < 0 then r == Rebound(t, FREE, -1)
      else if src == dst then r == Rebound(t, FREE, |Holders(t.forward, m)|)
      else
        && r.prev == prev && Lookup(r.table, dst) == m
        && (forall w: int | w != dst :: Lookup(r.table, w) == Lookup(t, w))
        && r.prevRefs == if Counted(prev) then |Holders(t.forward, prev) - {dst}| else -1
  {
    var prev, m := Lookup(t, dst), Lookup(t, src);
    if Counted(m) && dst >= 0 && src != dst {
      HoldersAfterBind(t, dst, m);
      if Counted(prev) {
        assert dst in Holders(t.forward, prev);
        DecRefShows(t, prev, dst);
      }
    }
  }

  // ---------------------------------------------------------------- runs

  datatype Op =
    | AllocOp(m: Mapping)
    | DupOp(v: int)
    | FreeOp(v: int)
    | SetOp(v: int, m: Mapping)
    | DupToOp(src: int, dst: int)

  function Apply(t: Table, op: Op): (r: Table)
    requires Shape(t)
    ensures Shape(r)
  {
    match op
    case AllocOp(m) => Alloc(t, m).table
    case DupOp(v) => Dup(t, v).table
    case FreeOp(v) => Free(t, v).table
    case SetOp(v, m) => Set(t, v, m)
    case DupToOp(src, dst) => DupTo(t, src, dst).table
  }

  /** Whether an operation binds a virtual fd that its caller chose, which one, and to what. */
  predicate Binds(t: Table, op: Op) {
    match op
    case SetOp(v, m) => v >= 0 && m.fd >= 0
    case DupToOp(src, dst) => src >= 0 && dst >= 0 && Counted(Lookup(t, src)) && src != dst
    case _ => false
  }

  function Target(t: Table, op: Op): nat
    requires Binds(t, op)
  {
    if op.SetOp? then op.v else op.dst
  }

  function Bound(t: Table, op: Op): (m: Mapping)
    requires Binds(t, op)
    ensures m.fd >= 0
  {
    if op.SetOp? then op.m else Lookup(t, op.src)
  }

  lemma ApplyBinds(t: Table, op: Op)
    requires Shape(t) && Binds(t, op)
    ensures Apply(t, op) == Bind(t, Target(t, op), Bound(t, op))
  {
    hide Bind, DecRef;
  }

  lemma ApplyBindsNothing(t: Table, op: Op)
    requires Shape(t) && (op.SetOp? || op.DupToOp?) && !Binds(t, op)
    ensures Apply(t, op) == t
  {
    hide Bind, DecRef;
  }

  function Run(t: Table, ops: seq<Op>): (r: Table)
    requires Shape(t)
    ensures Shape(r)
    decreases |ops|
  {
    if ops == [] then t else Run(Apply(t, ops[0]), ops[1..])
  }

  lemma InitAgrees()
    ensures Agrees(Init())
  {
    var t := Init();
    assert forall m | Counted(m) :: Holders(t.forward, m) == {};
    assert forall m :: RefCount(t, m) == 0 && Reverse(t, m) == -1;
  }

  // ---------------------------------------------------------------- runs: the counts

  /** The operation binds nothing that is on the free list. */
  ghost predicate OffFreeList(t: Table, op: Op) {
    Binds(t, op) ==> Target(t, op) !in t.free
  }

  /** set and dup_to keep what the counts depend on if and only if their target is not on the free
      list. */
  lemma BindCountable(t: Table, v: nat, m: Mapping)
    requires Countable(t) && m.fd >= 0
    ensures Countable(Bind(t, v, m)) <==> v !in t.free
  {
    hide Bind, GrowForward, RefCount, Holders, CountsOk;
    var t' := Bind(t, v, m);
    BindFrame(t, v, m);
    BindKeepsCounts(t, v, m);
    assert At(t'.forward, v) == m;
  }

  lemma ApplyCountable(t: Table, op: Op)
    requires Countable(t)
    ensures Countable(Apply(t, op)) <==> OffFreeList(t, op)
  {
    hide FreeOk, NoneAbove, CountsOk, Alloc, Dup, Free, Bind;
    match op
    case AllocOp(m) => if m.fd >= 0 { AllocKeeps(t, m); } else { AllocRefuses(t, m); }
    case DupOp(v) => DupKeeps(t, v);
    case FreeOp(v) => FreeKeeps(t, v);
    case _ =>
      if Binds(t, op) {
        ApplyBinds(t, op);
        BindCountable(t, Target(t, op), Bound(t, op));
      } else {
        ApplyBindsNothing(t, op);
      }
  }

  lemma AllocRefuses(t: Table, m: Mapping)
    requires Shape(t) && m.fd < 0
    ensures Alloc(t, m).table == t
  {
  }

  ghost predicate AllOffFreeList(t: Table, ops: seq<Op>)
    requires Shape(t)
    decreases |ops|
  {
    ops == [] || (OffFreeList(t, ops[0]) && AllOffFreeList(Apply(t, ops[0]), ops[1..]))
  }

  lemma CountableShape(t: Table)
    requires Countable(t)
    ensures Shape(t) && CountsOk(t)
  {
  }

  lemma {:induction false} RunCountable(t: Table, ops: seq<Op>)
    requires Countable(t) && AllOffFreeList(t, ops)
    ensures Countable(Run(t, ops))
    decreases |ops|
  {
    hide Countable, Apply, OffFreeList;
    CountableShape(t);
    if ops != [] {
      ApplyCountable(t, ops[0]);
      RunCountable(Apply(t, ops[0]), ops[1..]);
    }
  }

  /** Over every run of all five operations in which no set or dup_to binds a virtual fd that is on the
      free list, each refcount is the number of virtual fds bound to its resource, whatever has become
      of the reverse index. */
  lemma EveryRunCounts(ops: seq<Op>)
    requires AllOffFreeList(Init(), ops)
    ensures CountsOk(Run(Init(), ops))
  {
    hide Countable, Init, Run;
    InitAgrees();
    AgreesExactly(Init());
    RunCountable(Init(), ops);
    CountableShape(Run(Init(), ops));
  }

  // ---------------------------------------------------------------- runs: the reverse index

  /** The operation makes no rescan find the slot that it is dropping. */
  ghost predicate FindsAnother(t: Table, op: Op)
    requires Shape(t)
  {
    Binds(t, op) ==> !RescanFindsItself(t, Target(t, op), Bound(t, op))
  }

  /** Any one operation keeps the reverse index right, and what it depends on, if and only if its target
      is off the free list and is not found by its own rescan; watermark and free list may have gaps. */
  lemma ApplyIndexed(t: Table, op: Op)
    requires Indexed(t)
    ensures Indexed(Apply(t, op)) <==> OffFreeList(t, op) && FindsAnother(t, op)
  {
    hide FreeOk, NoneAbove, CountsOk, ReverseOk, Alloc, Dup, Free, Bind, RescanFindsItself;
    ApplyCountable(t, op);
    match op
    case AllocOp(m) => if m.fd >= 0 { AllocKeeps(t, m); } else { AllocRefuses(t, m); }
    case DupOp(v) => DupKeeps(t, v);
    case FreeOp(v) => FreeKeeps(t, v);
    case _ =>
      if Binds(t, op) {
        ApplyBinds(t, op);
        BindKeepsReverse(t, Target(t, op), Bound(t, op));
      } else {
        ApplyBindsNothing(t, op);
      }
  }

  ghost predicate AllIndexed(t: Table, ops: seq<Op>)
    requires Shape(t)
    decreases |ops|
  {
    ops == [] ||
      (OffFreeList(t, ops[0]) && FindsAnother(t, ops[0]) && AllIndexed(Apply(t, ops[0]), ops[1..]))
  }

  lemma IndexedShape(t: Table)
    requires Indexed(t)
    ensures Shape(t) && Countable(t) && ReverseOk(t)
  {
  }

  lemma {:induction false} RunIndexed(t: Table, ops: seq<Op>)
    requires Indexed(t) && AllIndexed(t, ops)
    ensures Indexed(Run(t, ops))
    decreases |ops|
  {
    hide Indexed, Apply, OffFreeList, FindsAnother;
    IndexedShape(t);
    if ops != [] {
      ApplyIndexed(t, ops[0]);
      RunIndexed(Apply(t, ops[0]), ops[1..]);
    }
  }

  /** Over every run of all five operations in which no target of set or dup_to is on the free list or
      is found by its own rescan, the reverse index names a holder of each resource exactly when there
      is one, whatever has become of watermark and live_count. */
  lemma EveryRunIndexes(ops: seq<Op>)
    requires AllIndexed(Init(), ops)
    ensures ReverseOk(Run(Init(), ops))
  {
    hide Indexed, Init, Run;
    InitAgrees();
    AgreesExactly(Init());
    RunIndexed(Init(), ops);
    IndexedShape(Run(Init(), ops));
  }

  // ---------------------------------------------------------------- runs: live_count

  /** The operation binds a virtual fd that is mapped, or the next new one. */
  ghost predicate InPlace(t: Table, op: Op) {
    Binds(t, op) ==> Lookup(t, Target(t, op)) != FREE || Target(t, op) == t.watermark
  }

  lemma SlotsParts(t: Table)
    requires SlotsOk(t)
    ensures FreeOk(t.forward, t.free, t.watermark) && NoneAbove(t.forward, t.watermark)
  {
  }

  /** Any one operation keeps free list and watermark right, and with them live_count, if and only if it
      binds in place; counts and reverse index may be wrong. */
  lemma ApplyInPlace(t: Table, op: Op)
    requires Shape(t) && SlotsOk(t)
    ensures SlotsOk(Apply(t, op)) <==> InPlace(t, op)
    ensures LiveCount(Apply(t, op)) == |Mapped(Apply(t, op).forward)| <==> InPlace(t, op)
  {
    hide FreeOk, NoneAbove, SlotsOk, Alloc, Dup, Free, Bind, LiveCount, Mapped;
    SlotsParts(t);
    match op
    case AllocOp(m) =>
      if m.fd >= 0 { AllocKeeps(t, m); } else { AllocRefuses(t, m); }
      LiveCountIsMapped(Apply(t, op));
    case DupOp(v) =>
      DupKeeps(t, v);
      LiveCountIsMapped(Apply(t, op));
    case FreeOp(v) =>
      FreeKeepsSlots(t, v);
      LiveCountIsMapped(Apply(t, op));
    case _ =>
      if Binds(t, op) {
        ApplyBinds(t, op);
        BindKeepsSlots(t, Target(t, op), Bound(t, op));
      } else {
        ApplyBindsNothing(t, op);
        LiveCountIsMapped(t);
      }
  }

  ghost predicate AllInPlace(t: Table, ops: seq<Op>)
    requires Shape(t)
    decreases |ops|
  {
    ops == [] || (InPlace(t, ops[0]) && AllInPlace(Apply(t, ops[0]), ops[1..]))
  }

  lemma {:induction false} RunInPlace(t: Table, ops: seq<Op>)
    requires Shape(t) && SlotsOk(t) && AllInPlace(t, ops)
    ensures SlotsOk(Run(t, ops))
    decreases |ops|
  {
    hide SlotsOk, Apply, InPlace;
    if ops != [] {
      ApplyInPlace(t, ops[0]);
      RunInPlace(Apply(t, ops[0]), ops[1..]);
    }
  }

  /** Over every run of all five operations in which set and dup_to bind in place, live_count is the
      number of mapped virtual fds, whatever has become of the reverse index. */
  lemma EveryRunLive(ops: seq<Op>)
    requires AllInPlace(Init(), ops)
    ensures var t := Run(Init(), ops); SlotsOk(t) && LiveCount(t) == |Mapped(t.forward)|
  {
    hide SlotsOk, Init, Run;
    InitAgrees();
    AgreesExactly(Init());
    RunInPlace(Init(), ops);
    LiveCountIsMapped(Run(Init(), ops));
  }

  // ---------------------------------------------------------------- runs: all together

  /** alloc, dup and free always; set and dup_to when they bind nothing or bind it safely. */
  ghost predicate Safe(t: Table, op: Op)
    requires Shape(t)
  {
    FindsAnother(t, op) && InPlace(t, op)
  }

  /** One operation keeps the table in agreement if and only if it is safe. */
  lemma ApplyExactly(t: Table, op: Op)
    requires Agrees(t)
    ensures Agrees(Apply(t, op)) <==> Safe(t, op)
  {
    hide Indexed, Apply, FindsAnother, Bound, RescanFindsItself;
    AgreesExactly(t);
    AgreesExactly(Apply(t, op));
    ApplyIndexed(t, op);
    ApplyInPlace(t, op);
  }

  ghost predicate AllSafe(t: Table, ops: seq<Op>)
    requires Shape(t)
    decreases |ops|
  {
    ops == [] || (Safe(t, ops[0]) && AllSafe(Apply(t, ops[0]), ops[1..]))
  }

  lemma {:induction false} RunKeeps(t: Table, ops: seq<Op>)
    requires Agrees(t) && AllSafe(t, ops)
    ensures Agrees(Run(t, ops))
    decreases |ops|
  {
    if ops != [] {
      ApplyExactly(t, ops[0]);
      RunKeeps(Apply(t, ops[0]), ops[1..]);
    }
  }

  lemma {:induction false} AllocDupFreeAreSafe(t: Table, ops: seq<Op>)
    requires Shape(t) && forall op | op in ops :: op.AllocOp? || op.DupOp? || op.FreeOp?
    ensures AllSafe(t, ops)
    decreases |ops|
  {
    if ops != [] {
      AllocDupFreeAreSafe(Apply(t, ops[0]), ops[1..]);
    }
  }

  /** Over every run of alloc, dup and free from a new table: each refcount is the number of virtual
      fds bound to its resource, the reverse index names one of them exactly when there is one,
      free-list entries are distinct and unmapped, and live_count is the number of mapped fds. */
  lemma EveryRunAgrees(ops: seq<Op>)
    requires forall op | op in ops :: op.AllocOp? || op.DupOp? || op.FreeOp?
    ensures var t := Run(Init(), ops); Agrees(t) && LiveCount(t) == |Mapped(t.forward)|
  {
    InitAgrees();
    AllocDupFreeAreSafe(Init(), ops);
    RunKeeps(Init(), ops);
    LiveCountIsMapped(Run(Init(), ops));
  }

  lemma RunStep(t: Table, a: Op, rest: seq<Op>)
    requires Shape(t)
    ensures Run(t, [a] + rest) == Run(Apply(t, a), rest)
  {
    hide Apply, Shape;
    assert ([a] + rest)[1..] == rest;
  }

  lemma RunOfThree(t: Table, a: Op, b: Op, c: Op)
    requires Shape(t)
    ensures Run(t, [a, b, c]) == Apply(Apply(Apply(t, a), b), c)
  {
    hide Apply, Shape, Run;
    RunStep(t, a, [b, c]);
    RunStep(Apply(t, a), b, [c]);
    RunStep(Apply(Apply(t, a), b), c, []);
    assert [a, b, c] == [a] + [b, c] && [b, c] == [b] + [c] && [c] == [c] + [];
    RunOfNone(Apply(Apply(Apply(t, a), b), c));
  }

  lemma RunOfNone(t: Table)
    requires Shape(t)
    ensures Run(t, []) == t
  {
  }

  /** A state in which dup_to leaves the reverse index pointing at a virtual fd that no longer holds
      the resource: two fds share socket 5, and the first of them is made to share socket 7. */
  lemma DupToLosesReverse() returns (t: Table, src: nat, dst: nat, m: Mapping)
    ensures t == Run(Init(), [AllocOp(Mapping(Socket, 5)), DupOp(0), AllocOp(Mapping(Socket, 7))])
    ensures Counted(m)
    ensures var t' := DupTo(t, src, dst).table;
      Reverse(t', m) == dst && Lookup(t', dst) != m && Holders(t'.forward, m) != {}
  {
    hide Alloc, Dup, Init, Run;
    m := Mapping(Socket, 5);
    var seven, t0 := Mapping(Socket, 7), Init();
    RunOfThree(t0, AllocOp(m), DupOp(0), AllocOp(seven));
    InitAgrees();
    FirstAlloc(m);
    AllocKeeps(t0, m);
    var t1 := Alloc(t0, m).table;
    DupKeeps(t1, 0);
    var t2, other := Dup(t1, 0).table, Dup(t1, 0).result;
    AllocKeeps(t2, seven);
    t, src, dst := Alloc(t2, seven).table, Alloc(t2, seven).result, 0;
    Shared(t, src, dst, other, m, seven);
  }

  lemma AgreesCounts(t: Table)
    requires Agrees(t)
    ensures Shape(t) && CountsOk(t)
  {
  }

  lemma TakenAndFreed(m: Mapping) returns (t: Table)
    requires Counted(m)
    ensures t == Run(Init(), [AllocOp(m), FreeOp(0)]) && Agrees(t)
    ensures t.free != [] && t.free[|t.free| - 1] == 0 && forall w: int :: Lookup(t, w) == FREE
  {
    hide Alloc, Free, Init, Run, Holders, RefCount, GrowForward;
    var t0 := Init();
    InitAgrees();
    FirstAlloc(m);
    AllocKeeps(t0, m);
    var t1 := Alloc(t0, m).table;
    FreeKeeps(t1, 0);
    t := Free(t1, 0).table;
    RunOfTwo(t0, AllocOp(m), FreeOp(0));
    FreeLists(t1, 0);
    InitIsFree();
  }

  /** Where it ends: the slot of a freed virtual fd is bound again by set, alloc takes the same fd from
      the free list, and the resource it was bound to keeps a reference that nobody holds. */
  lemma SetOnFreeListLosesCount() returns (t: Table, m: Mapping)
    ensures Counted(m)
    ensures t == Run(Init(), [AllocOp(m), FreeOp(0), SetOp(0, m)])
    ensures Agrees(Run(Init(), [AllocOp(m), FreeOp(0)])) && CountsOk(t) && 0 in t.free && !SlotsOk(t)
    ensures var o := Alloc(t, Mapping(Socket, 7));
      && o.result == 0 && Lookup(t, 0) == m
      && RefCount(o.table, m) == 1 && Holders(o.table.forward, m) == {} && !CountsOk(o.table)
  {
    hide Alloc, Init, Run, Bind, Holders, RefCount, GrowForward, Agrees;
    m := Mapping(Socket, 5);
    var t2 := TakenAndFreed(m);
    RunOfTwo(Init(), AllocOp(m), FreeOp(0));
    RunOfThree(Init(), AllocOp(m), FreeOp(0), SetOp(0, m));
    AgreesCounts(t2);
    NoHolders(t2, m);
    t := Bind(t2, 0, m);
    BindShows(t2, 0, m);
    BindKeepsCounts(t2, 0, m);
    HoldersAfterBind(t2, 0, m);
    assert At(t.forward, 0) == m;
    assert Holders(t.forward, m) == {0};
    AllocTakesListed(t, m, Mapping(Socket, 7));
  }

  /** set above the watermark leaves a gap that live_count counts: one fd is mapped, two are reported. */
  lemma SetAboveWatermarkMiscounts() returns (t: Table, m: Mapping)
    ensures Counted(m) && t == Run(Init(), [SetOp(1, m)])
    ensures !SlotsOk(t) && LiveCount(t) == 2 && |Mapped(t.forward)| == 1
  {
    hide Init, Run, Bind, GrowForward, Holders, RefCount;
    m := Mapping(Socket, 5);
    var t0 := Init();
    InitAgrees();
    InitIsFree();
    InitIsEmpty();
    RunStep(t0, SetOp(1, m), []);
    assert [SetOp(1, m)] == [SetOp(1, m)] + [];
    t := Bind(t0, 1, m);
    RunOfNone(t);
    BindShows(t0, 1, m);
    HoldersAfterBind(t0, 1, m);
    assert At(t.forward, 0) == FREE && At(t.forward, 1) == m;
    forall v: nat
      ensures v in Mapped(t.forward) <==> v == 1
    {
      assert v in Mapped(t.forward) <==> At(t.forward, v) != FREE;
      assert v != 1 ==> At(t.forward, v) == Lookup(t0, v);
    }
    assert Mapped(t.forward) == {1};
  }

  lemma InitIsEmpty()
    ensures Init().free == [] && Init().watermark == 0
  {
  }

  lemma InitIsFree()
    ensures forall w: int :: Lookup(Init(), w) == FREE
  {
  }

  lemma FreeLists(t: Table, v: nat)
    requires Shape(t) && Lookup(t, v) != FREE
    ensures Free(t, v).table.free == t.free + [v]
  {
    FreeIsDecRef(t, v);
  }

  lemma NoHolders(t: Table, m: Mapping)
    requires Shape(t) && CountsOk(t) && Counted(m) && forall w: int :: Lookup(t, w) == FREE
    ensures Holders(t.forward, m) == {} && RefCount(t, m) == 0
  {
    hide RefCount;
    assert forall v: nat | v < |t.forward| :: t.forward[v] == Lookup(t, v);
    assert Holders(t.forward, m) == {};
  }

  /** alloc overwrites what it finds at the fd it takes from the free list. */
  lemma AllocTakesListed(t: Table, m: Mapping, m': Mapping)
    requires Shape(t) && t.free != [] && t.free[|t.free| - 1] == 0 && Counted(m) && Counted(m') && m != m'
    requires Holders(t.forward, m) == {0} && RefCount(t, m) == 1
    ensures var o := Alloc(t, m');
      o.result == 0 && RefCount(o.table, m) == 1 && Holders(o.table.forward, m) == {} && !CountsOk(o.table)
  {
    hide RefCount, Holders, AddRef, GrowForward;
    var t1 := t.(free := t.free[..|t.free| - 1]);
    GrowForwardShows(t1, 0);
    var t2 := GrowForward(t1, 0);
    SameRows(t, t2.(forward := t2.forward[0 := m']));
    AddRefShows(t2.(forward := t2.forward[0 := m']), m', 0);
    Rebinding(t2.forward, 0, m');
  }

  lemma RunOfTwo(t: Table, a: Op, b: Op)
    requires Shape(t)
    ensures Run(t, [a, b]) == Apply(Apply(t, a), b)
  {
    hide Apply, Shape, Run;
    RunStep(t, a, [b]);
    RunStep(Apply(t, a), b, []);
    assert [a, b] == [a] + [b] && [b] == [b] + [];
    RunOfNone(Apply(Apply(t, a), b));
  }

  lemma FirstAlloc(m: Mapping)
    requires Counted(m)
    ensures Alloc(Init(), m).result == 0 && Reverse(Alloc(Init(), m).table, m) == 0
  {
    InitAgrees();
    AllocKeeps(Init(), m);
    var t := Alloc(Init(), m).table;
    assert forall w | w in Holders(t.forward, m) :: Lookup(t, w) == m;
    assert 0 in Holders(t.forward, m);
  }

  lemma Shared(t: Table, src: nat, dst: nat, other: nat, m: Mapping, m': Mapping)
    requires Agrees(t) && Counted(m) && Counted(m') && m != m' && dst == 0 && other != dst
    requires Lookup(t, dst) == m && Lookup(t, other) == m && Lookup(t, src) == m'
    requires Reverse(t, m) == dst
    ensures var t' := DupTo(t, src, dst).table;
      Reverse(t', m) == dst && Lookup(t', dst) != m && Holders(t'.forward, m) != {}
  {
    BindShows(t, dst, m');
    HoldersAfterBind(t, dst, m');
    assert dst in Holders(t.forward, m) && other in Holders(t.forward, m);
    assert {dst, other} <= Holders(t.forward, m);
    OthersHold(t, dst, m);
    RescanFinds(GrowForward(t, dst).forward, m);
  }
}
