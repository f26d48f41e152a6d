/** FdRemapTable promises more of reverse_lookup than a holder: among several virtual fds that point to
    a resource, the first one registered. This follows the table with the moment at which each virtual
    fd was last bound, shows a run that breaks the promise, and says exactly when it is kept. */
module FdOrder {
  import opened FdTable

  /** born: when a virtual fd was last bound. */
  datatype Dated = Dated(table: Table, born: map<nat, nat>, now: nat)

  function Start(): Dated {
    Dated(FdTable.Init(), map[], 0)
  }

  function Born(d: Dated, v: int): nat {
    if v >= 0 && v in d.born then d.born[v] else 0
  }

  /** The virtual fd that the operation binds, or -1. */
  function Given(t: Table, op: Op): int
    requires Shape(t)
  {
    match op
    case AllocOp(m) => if m.fd < 0 then -1 else Alloc(t, m).result
    case DupOp(v) => Dup(t, v).result
    case FreeOp(_) => -1
    case _ => if Binds(t, op) then Target(t, op) else -1
  }

  function Dating(d: Dated, op: Op): (d': Dated)
    requires Shape(d.table)
    ensures Shape(d'.table)
  {
    var v := Given(d.table, op);
    Dated(Apply(d.table, op), if v < 0 then d.born else d.born[v := d.now], d.now + 1)
  }

  /** Whatever is mapped was bound at some moment in the past. */
  ghost predicate Dates(d: Dated) {
    forall v: nat | Lookup(d.table, v) != FREE :: v in d.born && d.born[v] < d.now
  }

  /** The reverse index names the holder that was bound first. */
  ghost predicate NamesFirst(d: Dated)
    requires Shape(d.table)
  {
    forall v: nat | Counted(Lookup(d.table, v)) ::
      var m := Lookup(d.table, v);
      Lookup(d.table, Reverse(d.table, m)) == m && Born(d, Reverse(d.table, m)) <= Born(d, v)
  }

  /** The virtual fd whose binding the operation drops, or -1. */
  function Dropping(t: Table, op: Op): int {
    if op.FreeOp? then op.v else if Binds(t, op) then Target(t, op) else -1
  }

  /** The forward map as the rescan of that operation reads it: free has cleared the slot, set and dup_to
      have not. */
  function Rescanned(t: Table, op: Op): seq<Mapping> {
    var v := Dropping(t, op);
    if op.FreeOp? && 0 <= v < |t.forward| then t.forward[v := FREE] else t.forward
  }

  /** If the operation makes a rescan, its lowest holder is the one that was bound first of those that
      stay. */
  ghost predicate FindsFirst(d: Dated, op: Op)
    requires Shape(d.table)
  {
    var t := d.table;
    var v := Dropping(t, op);
    var prev := Lookup(t, v);
    v >= 0 && Counted(prev) && Reverse(t, prev) == v && RefCount(t, prev) > 1 ==>
      var low := FirstHolder(Rescanned(t, op), prev, 0);
      low != v && forall w: nat | w != v && Lookup(t, w) == prev :: Born(d, low) <= Born(d, w)
  }

  // ---------------------------------------------------------------- one operation

  lemma HolderAt(forward: seq<Mapping>, m: Mapping, v: nat)
    requires m != FREE
    ensures v in Holders(forward, m) <==> At(forward, v) == m
  {
  }

  /** A new holder of m, which has nothing to say to what the index names already. */
  lemma FreshKeepsFirst(d: Dated, v: nat, m: Mapping, t': Table)
    requires Shape(d.table) && Shape(t') && Dates(d) && NamesFirst(d) && ReverseOk(d.table)
    requires Lookup(d.table, v) == FREE && Lookup(t', v) == m
    requires forall w: int | w != v :: Lookup(t', w) == Lookup(d.table, w)
    requires forall x | Counted(x) ::
      Reverse(t', x) == if x == m && Reverse(d.table, x) < 0 then v else Reverse(d.table, x)
    ensures var d' := Dated(t', d.born[v := d.now], d.now + 1); NamesFirst(d') && Dates(d')
  {
    hide Reverse, Lookup, Holders;
    var t, d' := d.table, Dated(t', d.born[v := d.now], d.now + 1);
    forall w: nat | Counted(Lookup(t', w))
      ensures var x := Lookup(t', w);
        Lookup(t', Reverse(t', x)) == x && Born(d', Reverse(t', x)) <= Born(d', w)
    {
      var x := Lookup(t', w);
      NamedOrNone(t, x);
      if Reverse(t, x) >= 0 {
        var r: nat := Reverse(t, x);
        assert Lookup(t, r) == x;
        assert Born(d', r) == Born(d, r) < d.now;
      } else {
        assert w == v;
      }
    }
  }

  /** The index is -1, or names a holder; and it is -1 only if there is none. */
  lemma NamedOrNone(t: Table, x: Mapping)
    requires Shape(t) && ReverseOk(t) && Counted(x)
    ensures Reverse(t, x) >= 0 ==> Lookup(t, Reverse(t, x)) == x
    ensures Reverse(t, x) < 0 ==> Reverse(t, x) == -1 && forall w: int :: Lookup(t, w) != x
  {
    hide Reverse;
    if Reverse(t, x) >= 0 {
      HolderAt(t.forward, x, Reverse(t, x));
    } else {
      forall w: int
        ensures Lookup(t, w) != x
      {
        if w >= 0 { HolderAt(t.forward, x, w); }
      }
    }
  }

  lemma AllocKeepsFirst(d: Dated, m: Mapping)
    requires Indexed(d.table) && Dates(d) && NamesFirst(d)
    ensures var d' := Dating(d, AllocOp(m)); NamesFirst(d') && Dates(d')
  {
    hide Alloc, FreeOk, NoneAbove, CountsOk, Take, NamesFirst, Lookup, Reverse;
    if m.fd >= 0 {
      AllocKeeps(d.table, m);
      AllocShows(d.table, m);
      TakeKeeps(d.table);
      FreshKeepsFirst(d, Alloc(d.table, m).result, m, Alloc(d.table, m).table);
    } else {
      AllocRefuses(d.table, m);
      Later(d);
    }
  }

  lemma DupKeepsFirst(d: Dated, v: int)
    requires Indexed(d.table) && Dates(d) && NamesFirst(d)
    ensures var d' := Dating(d, DupOp(v)); NamesFirst(d') && Dates(d')
  {
    hide Dup, FreeOk, NoneAbove, CountsOk, NamesFirst, Lookup, Reverse;
    DupKeeps(d.table, v);
    if Counted(Lookup(d.table, v)) {
      HeldIsIndexed(d.table, v);
      FreshKeepsFirst(d, Dup(d.table, v).result, Lookup(d.table, v), Dup(d.table, v).table);
    } else {
      Later(d);
    }
  }

  lemma Later(d: Dated)
    requires Shape(d.table) && Dates(d) && NamesFirst(d)
    ensures NamesFirst(d.(now := d.now + 1)) && Dates(d.(now := d.now + 1))
  {
    hide Lookup, Reverse;
  }

  /** What an operation that drops the binding of v does to everything but the resource dropped. */
  ghost predicate Drops(t: Table, v: nat, m: Mapping, low: int, t': Table)
    requires Shape(t) && Shape(t')
  {
    var prev := Lookup(t, v);
    && Lookup(t', v) == m && (forall w: int | w != v :: Lookup(t', w) == Lookup(t, w))
    && forall x | Counted(x) ::
         var mid := if !Counted(prev) || x != prev || Reverse(t, prev) != v then Reverse(t, x)
                    else if RefCount(t, prev) == 1 then -1 else low;
         Reverse(t', x) == if x == m && mid < 0 then v else mid
  }

  /** Dropping a binding keeps the promise if and only if the rescan, if there is one, finds the first of
      those that stay. */
  lemma DropKeepsFirst(d: Dated, v: nat, m: Mapping, low: int, d': Dated)
    requires Shape(d.table) && Shape(d'.table) && CountsOk(d.table) && ReverseOk(d.table) && Dates(d) && NamesFirst(d)
    requires Drops(d.table, v, m, low, d'.table) && d'.now == d.now + 1
    requires d'.born == if m == FREE then d.born else d.born[v := d.now]
    requires var prev := Lookup(d.table, v); Counted(prev) && RefCount(d.table, prev) > 1 ==>
      low >= 0 && Lookup(d.table, low) == prev && (m == FREE ==> low != v)
    ensures Dates(d')
    ensures var t := d.table; var prev := Lookup(t, v);
      NamesFirst(d') <==>
        (Counted(prev) && Reverse(t, prev) == v && RefCount(t, prev) > 1 ==>
           low != v && forall w: nat | w != v && Lookup(t, w) == prev :: Born(d, low) <= Born(d, w))
  {
    hide Reverse, RefCount, Lookup, Holders;
    var t, t' := d.table, d'.table;
    var prev := Lookup(t, v);
    assert forall w: nat | w != v :: Born(d', w) == Born(d, w);
    if Counted(prev) && Reverse(t, prev) == v && RefCount(t, prev) > 1 {
      OthersToo(t, v, prev);
      OthersFirst(d, v, m, low, d');
    }
    forall w: nat | Counted(Lookup(t', w)) && (Lookup(t', w) != prev || Reverse(t, prev) != v || RefCount(t, prev) == 1)
      ensures NamedFirst(d', w)
    {
      SameFirst(d, v, m, low, d', w);
    }
    PrevCounted(t, v);
    SplitNames(d');
  }

  /** The promise at one virtual fd. */
  ghost predicate NamedFirst(d: Dated, v: nat)
    requires Shape(d.table)
  {
    var m := Lookup(d.table, v);
    Lookup(d.table, Reverse(d.table, m)) == m && Born(d, Reverse(d.table, m)) <= Born(d, v)
  }

  lemma SplitNames(d: Dated)
    requires Shape(d.table)
    ensures NamesFirst(d) <==> forall v: nat | Counted(Lookup(d.table, v)) :: NamedFirst(d, v)
  {
    hide Lookup, Reverse;
  }

  lemma PrevCounted(t: Table, v: nat)
    requires Shape(t) && CountsOk(t)
    ensures Counted(Lookup(t, v)) ==> RefCount(t, Lookup(t, v)) >= 1
  {
    if Counted(Lookup(t, v)) {
      HolderAt(t.forward, Lookup(t, v), v);
    }
  }

  /** More than one reference: somebody else holds it. */
  lemma OthersToo(t: Table, v: nat, m: Mapping)
    requires Shape(t) && CountsOk(t) && Counted(m) && Lookup(t, v) == m && RefCount(t, m) > 1
    ensures exists w: nat :: w != v && Lookup(t, w) == m
  {
    HolderAt(t.forward, m, v);
    OthersHold(t, v, m);
    var w: nat :| w in Holders(t.forward, m) - {v};
    HolderAt(t.forward, m, w);
    assert Lookup(t, w) == m;
  }

  /** Where there was no rescan, or it is about another resource. */
  lemma SameFirst(d: Dated, v: nat, m: Mapping, low: int, d': Dated, w: nat)
    requires Shape(d.table) && Shape(d'.table) && CountsOk(d.table) && ReverseOk(d.table) && Dates(d) && NamesFirst(d)
    requires Drops(d.table, v, m, low, d'.table) && d'.now == d.now + 1
    requires d'.born == if m == FREE then d.born else d.born[v := d.now]
    requires Counted(Lookup(d'.table, w))
    requires var t, prev := d.table, Lookup(d.table, v);
      Lookup(d'.table, w) != prev || Reverse(t, prev) != v || RefCount(t, prev) == 1
    ensures NamedFirst(d', w)
  {
    hide Reverse, RefCount, Lookup, Holders, CountsOk, ReverseOk;
    var t, t', x := d.table, d'.table, Lookup(d'.table, w);
    var prev := Lookup(t, v);
    NamedOrNone(t, x);
    PrevCounted(t, v);
    if x == prev && Reverse(t, prev) == v && RefCount(t, prev) == 1 {
      AloneThere(t, v, x);
      assert w == v;
    } else if Reverse(t, x) >= 0 {
      var r: nat := Reverse(t, x);
      assert Lookup(t, r) == x && (r == v ==> x == prev);
      assert Born(d', r) == Born(d, r) < d.now;
    } else {
      assert w == v;
    }
  }

  lemma AloneThere(t: Table, v: nat, m: Mapping)
    requires Shape(t) && CountsOk(t) && Counted(m) && Lookup(t, v) == m && RefCount(t, m) == 1
    ensures forall w: nat | w != v :: Lookup(t, w) != m
  {
    HolderAt(t.forward, m, v);
    OthersHold(t, v, m);
    forall w: nat | w != v
      ensures Lookup(t, w) != m
    {
      HolderAt(t.forward, m, w);
      assert w in Holders(t.forward, m) ==> w in Holders(t.forward, m) - {v};
    }
  }

  /** After a rescan: the promise for the resource dropped is that of the lowest holder. */
  lemma OthersFirst(d: Dated, v: nat, m: Mapping, low: int, d': Dated)
    requires Shape(d.table) && Shape(d'.table) && Dates(d)
    requires Drops(d.table, v, m, low, d'.table)
    requires d'.born == if m == FREE then d.born else d.born[v := d.now]
    requires var t, prev := d.table, Lookup(d.table, v);
      && Counted(prev) && Reverse(t, prev) == v && RefCount(t, prev) > 1
      && low >= 0 && Lookup(t, low) == prev && (m == FREE ==> low != v)
      && exists w: nat :: w != v && Lookup(t, w) == prev
    ensures var t, prev := d.table, Lookup(d.table, v);
      (forall w: nat | Lookup(d'.table, w) == prev :: NamedFirst(d', w)) <==>
        low != v && forall w: nat | w != v && Lookup(t, w) == prev :: Born(d, low) <= Born(d, w)
  {
    hide Reverse, RefCount, Lookup;
    var t, t', prev := d.table, d'.table, Lookup(d.table, v);
    assert Reverse(t', prev) == low;
    assert forall w: nat | w != v :: Born(d', w) == Born(d, w);
    var other: nat :| other != v && Lookup(t, other) == prev;
    assert Lookup(t', other) == prev && Born(d', other) < d.now;
    if low == v {
      assert !NamedFirst(d', other);
    } else {
      assert Lookup(t', low) == prev && Born(d', low) == Born(d, low) < d.now;
      if forall w: nat | Lookup(t', w) == prev :: NamedFirst(d', w) {
        forall w: nat | w != v && Lookup(t, w) == prev
          ensures Born(d, low) <= Born(d, w)
        {
          assert Lookup(t', w) == prev && NamedFirst(d', w);
        }
      } else {
        var w: nat :| Lookup(t', w) == prev && !NamedFirst(d', w);
        assert w == v ==> m == prev;
      }
    }
  }

  lemma FreeKeepsFirst(d: Dated, v: int)
    requires Indexed(d.table) && Dates(d) && NamesFirst(d)
    ensures var d' := Dating(d, FreeOp(v)); Dates(d') && (NamesFirst(d') <==> FindsFirst(d, FreeOp(v)))
  {
    hide Free, NamesFirst, Lookup, Reverse, RefCount, CountsOk, ReverseOk, Dates, FirstHolder, FreeOk, NoneAbove;
    var t := d.table;
    if Lookup(t, v) == FREE {
      FreeOfFree(t, v);
      Later(d);
    } else {
      MappedIsNat(t, v);
      var low := FirstHolder(t.forward[v := FREE], Lookup(t, v), 0);
      FreeDrops(t, v);
      LowestHeld(t, v);
      DropKeepsFirst(d, v, FREE, low, Dating(d, FreeOp(v)));
    }
  }

  lemma MappedIsNat(t: Table, v: int)
    requires Lookup(t, v) != FREE
    ensures 0 <= v < |t.forward|
  {
  }

  lemma FreeDrops(t: Table, v: nat)
    requires Shape(t) && CountsOk(t) && Lookup(t, v) != FREE
    ensures v < |t.forward|
    ensures Drops(t, v, FREE, FirstHolder(t.forward[v := FREE], Lookup(t, v), 0), Free(t, v).table)
  {
    hide Free, Reverse, RefCount, FirstHolder, CountsOk;
    FreeShows(t, v);
    Rebinding(t.forward, v, FREE);
  }

  lemma LowestHeld(t: Table, v: nat)
    requires Shape(t) && CountsOk(t) && v < |t.forward| && Lookup(t, v) != FREE
    ensures var prev := Lookup(t, v); var low := FirstHolder(t.forward[v := FREE], prev, 0);
      Counted(prev) && RefCount(t, prev) > 1 ==> low >= 0 && low != v && Lookup(t, low) == prev
  {
    hide RefCount, FirstHolder;
    var prev, forward' := Lookup(t, v), t.forward[v := FREE];
    if Counted(prev) && RefCount(t, prev) > 1 {
      HolderAt(t.forward, prev, v);
      OthersHold(t, v, prev);
      Rebinding(t.forward, v, FREE);
      RescanFinds(forward', prev);
      var low := FirstHolder(forward', prev, 0);
      assert low in Holders(t.forward, prev) - {v};
      HolderAt(t.forward, prev, low);
    }
  }

  lemma BindKeepsFirst(d: Dated, v: nat, m: Mapping)
    requires Indexed(d.table) && Dates(d) && NamesFirst(d) && m.fd >= 0
    ensures var d' := Dated(Bind(d.table, v, m), d.born[v := d.now], d.now + 1); var t := d.table;
      var prev := Lookup(t, v); var low := FirstHolder(t.forward, prev, 0);
      && Dates(d')
      && (NamesFirst(d') <==>
            (Counted(prev) && Reverse(t, prev) == v && RefCount(t, prev) > 1 ==>
               low != v && forall w: nat | w != v && Lookup(t, w) == prev :: Born(d, low) <= Born(d, w)))
  {
    hide Bind, NamesFirst, Lookup, Reverse, RefCount, CountsOk, ReverseOk, Dates, FirstHolder, FreeOk, NoneAbove;
    var t := d.table;
    var low := FirstHolder(t.forward, Lookup(t, v), 0);
    BindDrops(t, v, m);
    LowestOfAll(t, v);
    DropKeepsFirst(d, v, m, low, Dated(Bind(t, v, m), d.born[v := d.now], d.now + 1));
  }

  lemma BindDrops(t: Table, v: nat, m: Mapping)
    requires Shape(t) && CountsOk(t) && m.fd >= 0
    ensures Drops(t, v, m, FirstHolder(t.forward, Lookup(t, v), 0), Bind(t, v, m))
  {
    hide Bind, Reverse, RefCount, FirstHolder, CountsOk, GrowForward;
    BindShows(t, v, m);
    BindFrame(t, v, m);
    if Counted(Lookup(t, v)) {
      GrownRescan(t, v, Lookup(t, v));
    }
  }

  /** Growing the forward map adds no holders. */
  lemma GrownRescan(t: Table, v: nat, m: Mapping)
    requires Shape(t) && Counted(m)
    ensures FirstHolder(GrowForward(t, v).forward, m, 0) == FirstHolder(t.forward, m, 0)
  {
    hide GrowForward, FirstHolder;
    GrowForwardShows(t, v);
    RescanFinds(GrowForward(t, v).forward, m);
    RescanFinds(t.forward, m);
    assert m != FREE;
    assert Holders(GrowForward(t, v).forward, m) == Holders(t.forward, m);
  }

  lemma LowestOfAll(t: Table, v: nat)
    requires Shape(t) && CountsOk(t)
    ensures var prev := Lookup(t, v); var low := FirstHolder(t.forward, prev, 0);
      Counted(prev) ==> low >= 0 && Lookup(t, low) == prev
  {
    hide RefCount, FirstHolder;
    var prev := Lookup(t, v);
    if Counted(prev) {
      HolderAt(t.forward, prev, v);
      RescanFinds(t.forward, prev);
      HolderAt(t.forward, prev, FirstHolder(t.forward, prev, 0));
    }
  }

  /** Any one operation keeps the promise if and only if its rescan, if it makes one, finds the holder
      that was bound first. */
  lemma NamesFirstExactly(d: Dated, op: Op)
    requires Indexed(d.table) && Dates(d) && NamesFirst(d)
    ensures Dates(Dating(d, op)) && (NamesFirst(Dating(d, op)) <==> FindsFirst(d, op))
  {
    hide NamesFirst, Dates, Indexed, Alloc, Dup, Free, Bind, Lookup, Reverse, RefCount, FirstHolder, Born, Counted;
    IndexedShape(d.table);
    match op
    case AllocOp(m) => AllocKeepsFirst(d, m);
    case DupOp(v) => DupKeepsFirst(d, v);
    case FreeOp(v) => FreeKeepsFirst(d, v);
    case _ =>
      if Binds(d.table, op) {
        ApplyBinds(d.table, op);
        BindKeepsFirst(d, Target(d.table, op), Bound(d.table, op));
      } else {
        ApplyBindsNothing(d.table, op);
        Later(d);
      }
  }

  // ---------------------------------------------------------------- runs

  function Run(d: Dated, ops: seq<Op>): (d': Dated)
    requires Shape(d.table)
    ensures Shape(d'.table)
    decreases |ops|
  {
    if ops == [] then d else Run(Dating(d, ops[0]), ops[1..])
  }

  ghost predicate AllFindFirst(d: Dated, ops: seq<Op>)
    requires Shape(d.table)
    decreases |ops|
  {
    ops == [] ||
      (OffFreeList(d.table, ops[0]) && FindsFirst(d, ops[0]) && AllFindFirst(Dating(d, ops[0]), ops[1..]))
  }

  /** A rescan that finds the first of those that stay does not find the slot that is dropped. */
  lemma FirstIsAnother(d: Dated, op: Op)
    requires Indexed(d.table) && FindsFirst(d, op)
    ensures FindsAnother(d.table, op)
  {
    hide Reverse, RefCount, Bound, Target, FirstHolder, RescanFindsItself;
    if Binds(d.table, op) && RescanFindsItself(d.table, Target(d.table, op), Bound(d.table, op)) {
      ItselfIsLowest(d.table, Target(d.table, op), Bound(d.table, op));
    }
  }

  lemma ItselfIsLowest(t: Table, v: nat, m: Mapping)
    requires Shape(t) && RescanFindsItself(t, v, m)
    ensures var prev := Lookup(t, v);
      Counted(prev) && Reverse(t, prev) == v && RefCount(t, prev) > 1 && FirstHolder(t.forward, prev, 0) == v
  {
    hide Reverse, RefCount, FirstHolder;
    var prev := Lookup(t, v);
    HolderAt(t.forward, prev, v);
    RescanFinds(t.forward, prev);
    var low := FirstHolder(t.forward, prev, 0);
    HolderAt(t.forward, prev, low);
    assert Lookup(t, low) == prev;
  }

  lemma {:induction false} RunNamesFirst(d: Dated, ops: seq<Op>)
    requires Indexed(d.table) && Dates(d) && NamesFirst(d) && AllFindFirst(d, ops)
    ensures Indexed(Run(d, ops).table) && NamesFirst(Run(d, ops))
    decreases |ops|
  {
    hide Indexed, Dates, NamesFirst, FindsFirst, FindsAnother, OffFreeList, Apply, Given;
    IndexedShape(d.table);
    if ops != [] {
      NamesFirstExactly(d, ops[0]);
      FirstIsAnother(d, ops[0]);
      ApplyIndexed(d.table, ops[0]);
      RunNamesFirst(Dating(d, ops[0]), ops[1..]);
    }
  }

  /** Over every run of all five operations whose rescans find the first of those that stay, with no
      target on the free list, reverse_lookup answers the first virtual fd registered. */
  lemma EveryRunNamesFirst(ops: seq<Op>)
    requires AllFindFirst(Start(), ops)
    ensures NamesFirst(Run(Start(), ops))
  {
    hide Indexed, Run, AllFindFirst;
    StartIsFirst();
    RunNamesFirst(Start(), ops);
  }

  lemma StartIsFirst()
    ensures Indexed(Start().table) && Dates(Start()) && NamesFirst(Start())
  {
    InitAgrees();
    AgreesExactly(FdTable.Init());
    InitIsFree();
  }

  // ---------------------------------------------------------------- a run that breaks the promise

  /** What alloc and dup hand out, and what is left for the next one. */
  lemma TakeGives(t: Table)
    requires Shape(t)
    ensures var o := Take(t);
      if t.free == [] then o.result == t.watermark && o.table.free == [] && o.table.watermark == t.watermark + 1
      else o.result == t.free[|t.free| - 1] && o.table.free == t.free[..|t.free| - 1] && o.table.watermark == t.watermark
  {
  }

  lemma AllocGives(t: Table, m: Mapping)
    requires Countable(t) && ReverseOk(t) && m.fd >= 0 && t.free == []
    ensures var o := Alloc(t, m);
      && Indexed(o.table) && o.result == t.watermark && o.table.free == [] && o.table.watermark == t.watermark + 1
      && (forall w: int :: Lookup(o.table, w) == if w == t.watermark then m else Lookup(t, w))
      && forall x | Counted(x) :: Reverse(o.table, x) == if x == m && Reverse(t, x) < 0 then t.watermark else Reverse(t, x)
  {
    hide Alloc, Take, FreeOk, NoneAbove, CountsOk, ReverseOk, Reverse, Lookup;
    TakeGives(t);
    TakeKeeps(t);
    AllocShows(t, m);
    AllocKeeps(t, m);
  }

  lemma DupGives(t: Table, v: int, w: nat)
    requires Indexed(t) && Counted(Lookup(t, v))
    requires w == if t.free == [] then t.watermark else t.free[|t.free| - 1]
    ensures var o := Dup(t, v);
      && Indexed(o.table) && o.result == w
      && o.table.free == (if t.free == [] then [] else t.free[..|t.free| - 1])
      && (forall u: int :: Lookup(o.table, u) == if u == w then Lookup(t, v) else Lookup(t, u))
      && (forall x :: Reverse(o.table, x) == Reverse(t, x))
      && RefCount(o.table, Lookup(t, v)) == RefCount(t, Lookup(t, v)) + 1
  {
    hide Dup, Take, FreeOk, NoneAbove, CountsOk, ReverseOk, Reverse, RefCount, Lookup;
    TakeGives(t);
    DupShows(t, v);
    DupKeeps(t, v);
  }

  lemma FreeGives(t: Table, v: nat, m: Mapping)
    requires Indexed(t) && Lookup(t, v) != FREE && Counted(m) && Lookup(t, v) != m
    ensures var t' := Free(t, v).table;
      && Indexed(t') && t'.free == t.free + [v]
      && (forall w: int :: Lookup(t', w) == if w == v then FREE else Lookup(t, w))
      && Reverse(t', m) == Reverse(t, m) && RefCount(t', m) == RefCount(t, m)
  {
    hide Free, FreeOk, NoneAbove, CountsOk, ReverseOk, Reverse, RefCount, Lookup, FirstHolder;
    FreeShows(t, v);
    FreeKeeps(t, v);
  }

  lemma TwoSockets(a: Mapping, b: Mapping) returns (d: Dated)
    requires Counted(a) && Counted(b) && a != b
    ensures d == Dating(Dating(Start(), AllocOp(a)), AllocOp(b))
    ensures Indexed(d.table) && d.table.free == [] && d.table.watermark == 2 && d.now == 2 && Born(d, 1) == 1
    ensures Lookup(d.table, 0) == a && Lookup(d.table, 1) == b && Reverse(d.table, b) == 1
  {
    hide Indexed, Alloc, Lookup, Reverse;
    StartIsFirst();
    IndexedShape(Start().table);
    InitIsEmpty();
    var d1 := Dating(Start(), AllocOp(a));
    AllocGives(Start().table, a);
    IndexedShape(d1.table);
    NoReverse(b);
    d := Dating(d1, AllocOp(b));
    AllocGives(d1.table, b);
  }

  /** Two sockets; the second is duplicated, the first freed, the second duplicated again into the freed
      slot. Virtual fds 1, 2 and 0 hold the second socket, bound in this order. */
  lemma ThreeHolders(a: Mapping, b: Mapping) returns (d: Dated)
    requires Counted(a) && Counted(b) && a != b
    ensures d == Run(Start(), [AllocOp(a), AllocOp(b), DupOp(1), FreeOp(0), DupOp(1)])
    ensures Indexed(d.table) && Reverse(d.table, b) == 1 && RefCount(d.table, b) > 1
    ensures forall w: nat | w <= 2 :: Lookup(d.table, w) == b
    ensures Born(d, 1) < Born(d, 2) < Born(d, 0)
  {
    hide Run, Start, Indexed, Alloc, Dup, Free, Lookup, Reverse, RefCount;
    var d2 := TwoSockets(a, b);
    IndexedShape(d2.table);
    HeldIsCounted(d2.table, 1);
    var d3 := Dating(d2, DupOp(1));
    DupGives(d2.table, 1, 2);
    IndexedShape(d3.table);
    var d4 := Dating(d3, FreeOp(0));
    FreeGives(d3.table, 0, b);
    IndexedShape(d4.table);
    d := Dating(d4, DupOp(1));
    DupGives(d4.table, 1, 0);
    StartIsFirst();
    IndexedShape(Start().table);
    FiveSteps(Start(), AllocOp(a), AllocOp(b), DupOp(1), FreeOp(0), DupOp(1));
  }

  lemma HeldIsCounted(t: Table, v: nat)
    requires Indexed(t) && Counted(Lookup(t, v))
    ensures RefCount(t, Lookup(t, v)) >= 1
  {
    PrevCounted(t, v);
  }

  lemma NoReverse(m: Mapping)
    requires Counted(m)
    ensures Reverse(FdTable.Init(), m) == -1
  {
  }

  lemma OneStep(d: Dated, op: Op, rest: seq<Op>)
    requires Shape(d.table)
    ensures Run(d, [op] + rest) == Run(Dating(d, op), rest)
  {
    hide Dating;
    assert ([op] + rest)[1..] == rest;
  }

  lemma TwoSteps(d: Dated, a: Op, b: Op)
    requires Shape(d.table)
    ensures Run(d, [a, b]) == Dating(Dating(d, a), b)
  {
    hide Dating, Run, Shape;
    OneStep(d, a, [b]);
    OneStep(Dating(d, a), b, []);
    assert [a, b] == [a] + [b] && [b] == [b] + [];
    NoOps(Dating(Dating(d, a), b));
  }

  lemma FiveSteps(d: Dated, a: Op, b: Op, c: Op, e: Op, f: Op)
    requires Shape(d.table)
    ensures Run(d, [a, b, c, e, f]) == Dating(Dating(Dating(Dating(Dating(d, a), b), c), e), f)
  {
    hide Dating, Run, Shape;
    var d1 := Dating(d, a);
    var d2 := Dating(d1, b);
    OneStep(d, a, [b, c, e, f]);
    OneStep(d1, b, [c, e, f]);
    OneStep(d2, c, [e, f]);
    TwoSteps(Dating(d2, c), e, f);
    Cut(a, b, c, e, f);
  }

  lemma Cut<T>(a: T, b: T, c: T, e: T, f: T)
    ensures [a, b, c, e, f] == [a] + [b, c, e, f]
    ensures [b, c, e, f] == [b] + [c, e, f]
    ensures [c, e, f] == [c] + [e, f]
  {
  }

  lemma NoOps(d: Dated)
    requires Shape(d.table)
    ensures Run(d, []) == d
  {
  }

  /** Then virtual fd 1 is freed: the rescan answers 0, although 2 was registered before it. */
  lemma RescanForgetsOrder(a: Mapping, b: Mapping) returns (d: Dated)
    requires Counted(a) && Counted(b) && a != b
    ensures d == Run(Start(), [AllocOp(a), AllocOp(b), DupOp(1), FreeOp(0), DupOp(1)])
    ensures var d' := Dating(d, FreeOp(1));
      && Reverse(d'.table, b) == 0 && Lookup(d'.table, 2) == b && Lookup(d'.table, 0) == b
      && Born(d', 2) < Born(d', 0) && !NamesFirst(d')
  {
    hide Run, Free, Lookup, RefCount, Indexed, FirstHolder, Reverse;
    d := ThreeHolders(a, b);
    IndexedShape(d.table);
    var t := d.table;
    FreeDrops(t, 1);
    LowestIsZero(t, b);
    assert Lookup(t, 2) == b && Lookup(t, 0) == b && Lookup(t, 1) == b;
  }

  lemma LowestIsZero(t: Table, m: Mapping)
    requires Shape(t) && 1 < |t.forward| && Lookup(t, 0) == m && Counted(m)
    ensures FirstHolder(t.forward[1 := FREE], m, 0) == 0
  {
  }
}
