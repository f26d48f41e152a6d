/** adjlist and its iterators: an index of keys and a pool of elements, each key pointing at the last
    element of its cyclic list. `rings` lists, per key, the slots in the order begin() and next()
    visit them. */
module AdjList {
  import opened Rings
  import opened SlotPool

  datatype Key<K> = Key(data: K, pointer: int)

  /** adjlist_iterator_t */
  datatype Iter = Iter(key: int, prev: int, start: int, curr: int, valid: bool)

  /** Where a slot stands on a list. */
  ghost function Pos(r: seq<nat>, s: int): (p: nat)
    requires s in r
    ensures p < |r| && r[p] == s
  {
    var p: nat :| p < |r| && r[p] == s; p
  }

  /** An iterator as the operations need it: on an element, with its predecessor in hand. */
  ghost predicate GoodFor<V>(it: Iter, w: World<V>) {
    it.valid ==>
      && it.key in w.rings && it.curr in w.rings[it.key] && it.prev in w.rings[it.key]
      && it.start in w.rings[it.key]
      && it.prev in w.pool && w.pool[it.prev].next == it.curr
  }

  /** The predecessor in hand is the element one position earlier. */
  lemma PrevIsBefore<V>(it: Iter, w: World<V>)
    requires WellFormed(w) && it.valid && GoodFor(it, w)
    ensures var r := w.rings[it.key]; var p := Pos(r, it.curr);
      && it.prev == r[Before(p, |r|)]
      && it.curr in w.pool && w.pool[it.curr].next == r[Rings.After(p, |r|)]
  {
    var r := w.rings[it.key];
    assert Follows(w.pool, r, Pos(r, it.prev)) && Follows(w.pool, r, Pos(r, it.curr));
  }

  /** What add_element does: a slot that held nothing heads the list. */
  ghost predicate Headed<V>(it: Iter, key: int, input: V, rings: map<nat, seq<nat>>, rings': map<nat, seq<nat>>,
                            data: map<nat, V>, data': map<nat, V>) {
    && key in rings && it.key == key && it.curr >= 0 && it.curr !in data
    && rings' == rings[key := [it.curr] + rings[key]]
    && data' == data[it.curr := input]
  }

  /** What del_element does to the lists, and the iterator it returns. */
  ghost predicate Deleted(it: Iter, it': Iter, rings: map<nat, seq<nat>>, rings': map<nat, seq<nat>>) {
    && it.key in rings && it.curr in rings[it.key] && it'.key == it.key
    && var r := rings[it.key]; var p := Pos(r, it.curr);
    && rings' == rings[it.key := Without(r, p)]
    && (|r| == 1 ==> !it'.valid)
    && (|r| > 1 ==>
          && it'.valid && it'.prev == it.prev && it'.curr == r[Rings.After(p, |r|)]
          && it'.start == if it.start == it.curr then it'.curr else it.start)
  }

  /** What next does to the lists and the iterator: reading starts behind the iterator's element, and
      the iterator moves there unless that is where it started. */
  ghost predicate Stepped(it: Iter, it': Iter, rings: map<nat, seq<nat>>, rings': map<nat, seq<nat>>) {
    && it.key in rings && it.curr in rings[it.key]
    && var r := rings[it.key]; var p := Pos(r, it.curr);
    && rings' == rings[it.key := Rot(r, p + 1)]
    && it' == (if r[Rings.After(p, |r|)] == it.start then it.(valid := false)
               else it.(prev := it.curr, curr := r[Rings.After(p, |r|)]))
  }

  lemma LastIsPooled<V>(w: World<V>, k: nat)
    requires WellFormed(w) && k in w.rings && w.rings[k] != []
    ensures var r := w.rings[k];
      && Last(r) in w.pool && w.pool[Last(r)].next == r[0] && r[0] in w.pool
      && Last(r) in r && r[0] in r
  {
    var r := w.rings[k];
    assert Follows(w.pool, r, |r| - 1) && Follows(w.pool, r, 0);
  }

  /** Each key points at the last element of its list. */
  ghost predicate PointersMatch<K>(index: map<nat, Key<K>>, rings: map<nat, seq<nat>>) {
    && rings.Keys == index.Keys
    && forall k | k in rings :: PointsAt(index[k], rings[k])
  }

  ghost predicate PointsAt<K>(key: Key<K>, r: seq<nat>) {
    key.pointer == if r == [] then -1 else Last(r)
  }

  class List<K, V> {
    const index: Pool<Key<K>>
    const pool: Pool<Elem<V>>
    ghost var rings: map<nat, seq<nat>>
    ghost var owner: map<nat, nat>

    ghost function View(): World<V>
      reads this, pool
    {
      World(pool.Content(), rings, owner)
    }

    ghost predicate PointersOk()
      reads this, index
    {
      PointersMatch(index.Content(), rings)
    }

    ghost predicate Valid()
      reads this, index, pool
    {
      && index.Valid() && pool.Valid() && PointersOk() && WellFormed(View())
    }

    constructor (keys: nat, elements: nat, k: K, v: V)
      requires keys > 0 && elements > 0
      ensures Valid() && rings == map[] && Data() == map[] && fresh(index) && fresh(pool) && index.Packed(0)
    {
      index := new Pool(keys, Key(k, -1));
      pool := new Pool(elements, Elem(v, -1));
      rings, owner := map[], map[];
    }

    method AddKey(data: K) returns (k: nat)
      requires Valid()
      modifies this, index
      ensures Valid() && k !in old(rings) && rings == old(rings)[k := []] && owner == old(owner)
      ensures index.Content() == old(index.Content())[k := Key(data, -1)]
      ensures k == old(index.lowestAvailable)
      ensures old(index.Packed(index.lowestAvailable)) ==> index.Packed(k + 1)
    {
      hide Pool.Valid, Pool.Content, Pool.Packed, WellFormed;
      ghost var w := View();
      k := index.Add(Key(data, -1));
      KeyKeeps(w, k);
      rings := rings[k := []];
      assert View() == w.(rings := w.rings[k := []]);
    }

    /** init: the keys 0 to size - 1, each with an empty list. */
    method Init(size: nat, data: K)
      requires Valid() && rings == map[] && index.Packed(0)
      modifies this, index
      ensures Valid()
      ensures forall k: nat :: k in rings <==> k < size
      ensures forall k | k in rings :: rings[k] == [] && k in KeyData() && KeyData()[k] == data
    {
      hide Pool.Valid, Pool.Content, WellFormed;
      for i := 0 to size
        invariant Valid() && index.Packed(i)
        invariant forall k: nat :: k in rings <==> k < i
        invariant forall k | k in rings :: rings[k] == [] && k in KeyData() && KeyData()[k] == data
      {
        var k := AddKey(data);
      }
    }

    /** Assignment through operator[] on a key. */
    method SetKey(key: nat, data: K)
      requires Valid() && key in rings
      modifies index
      ensures Valid() && KeyData() == old(KeyData())[key := data]
    {
      hide Pool.Valid, Pool.Content, WellFormed;
      index.Put(key, Key(data, index.Get(key).pointer));
    }

    /** operator[] on a key. */
    method GetKey(key: nat) returns (data: K)
      requires Valid() && key in rings
      ensures key in KeyData() && data == KeyData()[key]
    {
      data := index.Get(key).data;
    }

    /** begin */
    method Begin(key: int) returns (it: Iter)
      requires Valid()
      ensures GoodFor(it, View())
      ensures it.valid <==> key in rings && rings[key] != []
      ensures it.valid ==> it == Iter(key, Last(rings[key]), rings[key][0], rings[key][0], true)
    {
      hide Pool.Valid, Pool.Content, WellFormed;
      it := Iter(key, -1, -1, -1, false);
      if !index.IsValid(key) {
        return;
      }
      var ptr := index.Get(key).pointer;
      if ptr == -1 {
        return;
      }
      ghost var r := rings[key];
      LastIsPooled(View(), key);
      var first := pool.Get(ptr).next;
      it := Iter(key, ptr, first, first, true);
    }

    /** The data of the keys, without the pointers. */
    ghost function KeyData(): map<nat, K>
      reads index
    {
      map k | k in index.Content() :: index.Content()[k].data
    }

    ghost function Data(): map<nat, V>
      reads pool
    {
      Held(pool.Content())
    }

    /** The first element of an empty list. */
    method Start(key: nat, input: V) returns (n: nat)
      requires Valid() && key in rings && rings[key] == []
      modifies this, index, pool
      ensures Valid() && KeyData() == old(KeyData())
      ensures n !in old(pool.Content()) && View() == Started(old(View()), key, n, input)
    {
      hide Pool.Valid, Pool.Content, WellFormed;
      ghost var w := View();
      n := pool.Add(Elem(input, -1));
      pool.Put(n, Elem(input, n));
      assert pool.Content() == w.pool[n := Elem(input, n)];
      owner := owner[n := key];
      Repoint(key, n, [n]);
      assert View() == Started(w, key, n, input);
      StartKeeps(w, key, n, input);
    }

    /** index[key].pointer = ptr, for a list that is now r. */
    method Repoint(key: nat, ptr: int, ghost r: seq<nat>)
      requires index.Valid() && PointersOk() && key in rings
      requires ptr == if r == [] then -1 else Last(r)
      modifies this`rings, index
      ensures index.Valid() && PointersOk() && KeyData() == old(KeyData())
      ensures rings == old(rings)[key := r]
    {
      hide Pool.Valid, Pool.Content;
      index.Put(key, Key(index.Get(key).data, ptr));
      rings := rings[key := r];
    }

    /** A new element linked in behind the one at position p of its list. */
    method Link(key: nat, at: nat, input: V, ghost p: nat) returns (n: nat)
      requires Valid() && key in rings && p < |rings[key]| && rings[key][p] == at
      requires at in pool.Content()
      modifies this, pool
      ensures Valid()
      ensures n !in old(pool.Content()) && View() == InsertedBehind(old(View()), key, p, n, input)
    {
      hide Pool.Valid, Pool.Content, WellFormed;
      ghost var w := View();
      n := pool.Add(Elem(input, pool.Get(at).next));
      pool.Put(at, Elem(pool.Get(at).data, n));
      BehindKeeps(w, key, p, n, input);
      BehindLast(w.rings[key], p, n);
      SamePointer(index.Content(), rings, key, WithBehind(rings[key], p, n));
      rings, owner := rings[key := WithBehind(rings[key], p, n)], owner[n := key];
      assert View() == InsertedBehind(w, key, p, n, input);
    }

    /** add_element: the new element heads its list. The iterator returned has its predecessor in
        hand only when it is alone on the list. */
    method AddElement(key: int, input: V) returns (it: Iter)
      requires Valid()
      modifies this, index, pool
      ensures Valid() && KeyData() == old(KeyData())
      ensures it.valid <==> key in old(rings)
      ensures !it.valid ==> rings == old(rings) && Data() == old(Data())
      ensures it.valid ==> Headed(it, key, input, old(rings), rings, old(Data()), Data())
      ensures it.valid ==> (GoodFor(it, View()) <==> old(rings)[key] == [])
    {
      hide Pool.Valid, Pool.Content, WellFormed;
      it := Iter(key, -1, -1, -1, false);
      if !index.IsValid(key) {
        return;
      }
      var ptr := index.Get(key).pointer;
      if ptr == -1 {
        var n := Start(key, input);
        it := Iter(key, n, n, n, true);
        assert [n] + [] == [n];
      } else {
        LastIsPooled(View(), key);
        var n := Link(key, ptr, input, |rings[key]| - 1);
        it := Iter(key, n, n, n, true);
      }
    }

    /** add_element_at: behind the iterator's element. The iterator returned is the one passed in,
        with its predecessor brought up to date. */
    method AddElementAt(it: Iter, key: int, input: V) returns (it': Iter, ghost n: nat)
      requires Valid() && GoodFor(it, View())
      requires key in rings && rings[key] != [] ==> it.valid && it.key == key
      modifies this, index, pool
      ensures Valid() && KeyData() == old(KeyData()) && GoodFor(it', View())
      ensures it'.valid <==> key in old(rings)
      ensures !it'.valid ==> rings == old(rings) && Data() == old(Data())
      ensures it'.valid ==> n !in old(Data()) && Data() == old(Data())[n := input]
      ensures it'.valid && old(rings)[key] == [] ==> rings == old(rings)[key := [n]] && it'.curr == n
      ensures it'.valid && old(rings)[key] != [] ==>
        && rings == old(rings)[key := WithBehind(old(rings)[key], Pos(old(rings)[key], it.curr), n)]
        && it'.curr == it.curr && it'.start == it.start
    {
      hide Pool.Valid, Pool.Content, WellFormed, WithBehind, InsertedBehind;
      it', n := Iter(key, -1, -1, -1, false), 0;
      if !index.IsValid(key) {
        return;
      }
      var ptr := index.Get(key).pointer;
      if ptr == -1 {
        ghost var w := View();
        var slot := Start(key, input);
        it', n := Iter(key, slot, slot, slot, true), slot;
        HeldStarted(w, key, n, input);
      } else {
        ghost var w, r := View(), rings[key];
        ghost var p := Pos(r, it.curr);
        PrevIsBefore(it, View());
        var next := pool.Get(it.curr).next;
        var slot := Link(key, it.curr, input, p);
        n := slot;
        it' := it;
        if next == it'.curr {
          it' := it'.(prev := slot);
        }
        GoodAfterInsert(it, it', w, n, input);
      }
    }

    /** del_element, which returns an iterator on the next element. */
    method DelElement(it: Iter) returns (it': Iter)
      requires Valid() && GoodFor(it, View())
      modifies this, index, pool
      ensures Valid() && KeyData() == old(KeyData()) && GoodFor(it', View())
      ensures !it.valid ==> it' == it && rings == old(rings) && Data() == old(Data())
      ensures it.valid ==> Data() == old(Data()) - {it.curr} && Deleted(it, it', old(rings), rings)
    {
      hide Pool.Valid, Pool.Content, WellFormed, Without, Unlinked, Held;
      if !it.valid {
        return it;
      }
      PrevIsBefore(it, View());
      var next := pool.Get(it.curr).next;
      if next == it.curr {
        Alone(View(), it.key, Pos(rings[it.key], it.curr));
        LastOneGone(View().pool, rings[it.key]);
        DelOnly(it);
        it' := Iter(it.key, -1, -1, -1, false);
      } else {
        NotAlone(View(), it.key, Pos(rings[it.key], it.curr));
        AfterRemoval(View(), it.key, Pos(rings[it.key], it.curr));
        ghost var w := View();
        DelAmong(it, next, Pos(rings[it.key], it.curr));
        it' := it.(start := if it.start == it.curr then next else it.start, curr := next);
        GoodAfterRemoval(it, it', w);
      }
    }

    method DelOnly(it: Iter)
      requires Valid() && it.key in rings && rings[it.key] == [it.curr] && it.curr in pool.Content()
      modifies this, index, pool
      ensures Valid() && KeyData() == old(KeyData())
      ensures View() == Emptied(old(View()), it.key)
    {
      hide Pool.Valid, Pool.Content, WellFormed;
      ghost var w := View();
      EmptyKeeps(w, it.key);
      pool.InRange(it.curr);
      pool.Del(it.curr);
      owner := owner - {it.curr};
      Repoint(it.key, -1, []);
      assert View() == Emptied(w, it.key);
    }

    method DelAmong(it: Iter, next: int, ghost p: nat)
      requires Valid() && it.key in rings && |rings[it.key]| > 1 && p < |rings[it.key]|
      requires var r := rings[it.key];
        && it.curr == r[p] && it.prev == r[Before(p, |r|)] && next == r[Rings.After(p, |r|)]
        && it.curr in pool.Content() && it.prev in pool.Content()
        && it.curr != it.prev && pool.Content()[it.curr].next == next
        && Without(r, p) != [] && Last(Without(r, p)) == (if it.curr == Last(r) then next else Last(r))
        && index.Content()[it.key].pointer == Last(r)
      modifies this, index, pool
      ensures Valid() && KeyData() == old(KeyData())
      ensures View() == RemovedAt(old(View()), it.key, p)
    {
      hide Pool.Valid, Pool.Content, WellFormed;
      ghost var w, r := View(), rings[it.key];
      RemoveAtKeeps(w, it.key, p);
      pool.Put(it.prev, Elem(pool.Get(it.prev).data, next));
      pool.InRange(it.curr);
      pool.Del(it.curr);
      owner := owner - {it.curr};
      if index.Get(it.key).pointer == it.curr {
        Repoint(it.key, next, Without(r, p));
      } else {
        SamePointer(index.Content(), rings, it.key, Without(r, p));
        rings := rings[it.key := Without(r, p)];
      }
      assert View() == RemovedAt(w, it.key, p);
    }

    /** set_ptr_to: reading starts at the iterator's element from now on. */
    method SetPtrTo(key: int, it: Iter)
      requires Valid() && GoodFor(it, View()) && it.valid && it.key == key
      modifies this, index
      ensures Valid() && KeyData() == old(KeyData()) && Data() == old(Data())
      ensures rings == old(rings)[key := Rot(old(rings)[key], Pos(old(rings)[key], it.curr))]
      ensures GoodFor(it, View())
    {
      hide Pool.Valid, Pool.Content, WellFormed, Rot, PointersMatch;
      ghost var w, p := View(), Pos(rings[key], it.curr);
      PrevIsBefore(it, w);
      TurnKeeps(w, key, p);
      TurnedLast(rings[key], p);
      Repoint(key, it.prev, Rot(rings[key], p));
      assert View() == w.(rings := rings);
    }

    /** next */
    method Next(it: Iter) returns (it': Iter)
      requires Valid() && GoodFor(it, View()) && it.valid
      modifies this, index
      ensures Valid() && KeyData() == old(KeyData()) && Data() == old(Data()) && GoodFor(it', View())
      ensures Stepped(it, it', old(rings), rings)
    {
      hide Pool.Valid, Pool.Content, WellFormed, Rot, PointersMatch;
      ghost var w, r := View(), rings[it.key];
      ghost var p := Pos(r, it.curr);
      PrevIsBefore(it, w);
      TurnKeeps(w, it.key, p + 1);
      TurnedLast(r, p + 1);
      assert r[Rings.After(p, |r|)] in r;
      Repoint(it.key, it.curr, Rot(r, p + 1));
      assert View() == w.(rings := rings);
      var next := pool.Get(it.curr).next;
      if next == it.start {
        it' := it.(valid := false);
      } else {
        it' := it.(prev := it.curr, curr := next);
      }
    }

    lemma RingsAreDistinct(k: nat)
      requires Valid() && k in rings
      ensures Distinct(rings[k])
    {
      IsDistinct(View(), k);
    }

    /** operator* */
    method Deref(it: Iter) returns (v: V)
      requires Valid() && GoodFor(it, View()) && it.valid
      ensures it.curr in Data() && v == Data()[it.curr]
    {
      hide Pool.Valid, Pool.Content, WellFormed;
      PrevIsBefore(it, View());
      v := pool.Get(it.curr).data;
    }

    /** Assignment through operator-> */
    method Assign(it: Iter, v: V)
      requires Valid() && GoodFor(it, View()) && it.valid
      modifies pool
      ensures Valid() && GoodFor(it, View())
      ensures Data() == old(Data())[it.curr := v]
    {
      hide Pool.Valid, Pool.Content, WellFormed;
      ghost var w := View();
      PrevIsBefore(it, w);
      UpdateKeeps(w, it.curr, v);
      pool.Put(it.curr, Elem(v, pool.Get(it.curr).next));
    }
  }

  /** A list that keeps its last element needs no new pointer. */
  lemma SamePointer<K>(index: map<nat, Key<K>>, rings: map<nat, seq<nat>>, k: nat, r: seq<nat>)
    requires PointersMatch(index, rings) && k in rings && rings[k] != [] && r != []
    requires Last(r) == Last(rings[k])
    ensures PointersMatch(index, rings[k := r])
  {
  }

  /** An element that is its own successor is alone on its list. */
  lemma Alone<V>(w: World<V>, k: nat, p: nat)
    requires WellFormed(w) && k in w.rings && p < |w.rings[k]|
    requires w.rings[k][p] in w.pool && w.pool[w.rings[k][p]].next == w.rings[k][p]
    ensures |w.rings[k]| == 1
  {
    var r := w.rings[k];
    assert Follows(w.pool, r, p);
  }

  lemma NotAlone<V>(w: World<V>, k: nat, p: nat)
    requires WellFormed(w) && k in w.rings && p < |w.rings[k]|
    requires w.rings[k][p] in w.pool && w.pool[w.rings[k][p]].next != w.rings[k][p]
    ensures |w.rings[k]| > 1
  {
    assert Follows(w.pool, w.rings[k], p);
  }

  lemma BehindLast(r: seq<nat>, p: nat, slot: nat)
    requires p < |r|
    ensures WithBehind(r, p, slot) != [] && Last(WithBehind(r, p, slot)) == Last(r)
  {
  }

  lemma InBehind(r: seq<nat>, p: nat, slot: nat)
    requires p < |r|
    ensures forall s | s in r :: s in WithBehind(r, p, slot)
    ensures slot in WithBehind(r, p, slot)
  {
    var r' := WithBehind(r, p, slot);
    if p < |r| - 1 {
      assert r == r[..p + 1] + r[p + 1..];
    }
  }

  lemma HeldStarted<V>(w: World<V>, k: nat, slot: nat, v: V)
    ensures Held(Started(w, k, slot, v).pool) == Held(w.pool)[slot := v]
  {
  }

  /** The iterator of add_element_at. */
  lemma GoodAfterInsert<V>(it: Iter, it': Iter, w: World<V>, slot: nat, v: V)
    requires WellFormed(w) && it.valid && GoodFor(it, w) && slot !in w.pool && it.curr in w.pool
    requires it' == if w.pool[it.curr].next == it.curr then it.(prev := slot) else it
    ensures var r := w.rings[it.key]; var p := Pos(r, it.curr); var w' := InsertedBehind(w, it.key, p, slot, v);
      && GoodFor(it', w') && Held(w'.pool) == Held(w.pool)[slot := v]
      && w'.rings == w.rings[it.key := WithBehind(r, p, slot)]
  {
    hide WellFormed, WithBehind;
    var r := w.rings[it.key];
    var p := Pos(r, it.curr);
    PrevIsBefore(it, w);
    InBehind(r, p, slot);
    if w.pool[it.curr].next == it.curr {
      Alone(w, it.key, p);
    }
  }

  lemma LastOneGone<V>(pool: map<nat, Elem<V>>, r: seq<nat>)
    requires |r| == 1
    ensures Held(pool - {r[0]}) == Held(pool) - {r[0]} && Without(r, 0) == []
  {
  }

  /** The iterator of del_element, on a list with others. */
  lemma GoodAfterRemoval<V>(it: Iter, it': Iter, w: World<V>)
    requires WellFormed(w) && it.valid && GoodFor(it, w) && |w.rings[it.key]| > 1
    requires var r := w.rings[it.key]; var next := r[Rings.After(Pos(r, it.curr), |r|)];
      it' == it.(start := if it.start == it.curr then next else it.start, curr := next)
    ensures var r := w.rings[it.key]; var p := Pos(r, it.curr);
      && r[p] in w.pool && r[Before(p, |r|)] in w.pool
      && var w' := RemovedAt(w, it.key, p);
      && GoodFor(it', w') && Deleted(it, it', w.rings, w'.rings) && Held(w'.pool) == Held(w.pool) - {it.curr}
  {
    hide WellFormed, Without, RemovedAt;
    var r := w.rings[it.key];
    var p := Pos(r, it.curr);
    PrevIsBefore(it, w);
    AfterRemoval(w, it.key, p);
    RemovalDoes(w, it.key, p);
  }

  lemma HeldUnlinked<V>(pool: map<nat, Elem<V>>, prev: nat, curr: nat)
    requires prev in pool && curr in pool
    ensures Held(Unlinked(pool, prev, curr)) == Held(pool) - {curr}
  {
  }

  lemma RemovalDoes<V>(w: World<V>, k: nat, p: nat)
    requires WellFormed(w) && k in w.rings && p < |w.rings[k]| && |w.rings[k]| > 1
    ensures var r := w.rings[k]; var prev := r[Before(p, |r|)];
      && r[p] in w.pool && prev in w.pool
      && var w' := RemovedAt(w, k, p);
      && w'.rings == w.rings[k := Without(r, p)] && Held(w'.pool) == Held(w.pool) - {r[p]}
      && (prev != r[p] ==> prev in w'.pool && w'.pool[prev].next == w.pool[r[p]].next)
  {
    hide Without, Distinct, Held;
    var r := w.rings[k];
    assert Follows(w.pool, r, p) && Follows(w.pool, r, Before(p, |r|));
    HeldUnlinked(w.pool, r[Before(p, |r|)], r[p]);
  }

  /** What is left of a list when the element at position p is deleted. */
  lemma AfterRemoval<V>(w: World<V>, k: nat, p: nat)
    requires WellFormed(w) && k in w.rings && p < |w.rings[k]| && |w.rings[k]| > 1
    ensures var r := w.rings[k]; var r' := Without(r, p);
      && r' != [] && (forall s | s in r && s != r[p] :: s in r')
      && Last(r') == (if r[p] == Last(r) then r[Rings.After(p, |r|)] else Last(r))
      && r[Before(p, |r|)] != r[p] && r[Rings.After(p, |r|)] != r[p]
  {
    hide WellFormed, Without;
    IsDistinct(w, k);
    RemovalLeaves(w.rings[k], p);
  }

  lemma LastOnlyLast(r: seq<nat>, p: nat)
    requires Distinct(r) && p < |r|
    ensures r[p] == Last(r) <==> p == |r| - 1
  {
  }

  lemma RemovalLeaves(r: seq<nat>, p: nat)
    requires Distinct(r) && p < |r| && |r| > 1
    ensures Without(r, p) != [] && forall s | s in r && s != r[p] :: s in Without(r, p)
    ensures Last(Without(r, p)) == (if r[p] == Last(r) then r[Rings.After(p, |r|)] else Last(r))
  {
    hide Distinct;
    LastOnlyLast(r, p);
    forall i | 0 <= i < |r| && i != p
      ensures r[i] in Without(r, p)
    {
      if p == |r| - 1 {
        assert Without(r, p)[if i == 0 then |r| - 2 else i - 1] == r[i];
      } else {
        assert Without(r, p)[if i < p then i else i - 1] == r[i];
      }
    }
  }

  lemma TurnedLast(r: seq<nat>, p: nat)
    requires p <= |r| && r != []
    ensures Last(Rot(r, p)) == r[if p == 0 then |r| - 1 else p - 1]
    ensures forall s :: s in Rot(r, p) <==> s in r
  {
    forall s
      ensures s in Rot(r, p) <==> s in r
    {
      RotElements(r, p, s);
    }
  }

  // ---------------------------------------------------------------- walks

  /** An iterator on a round along a list that is read from its element on: k elements are left to
      visit, the iterator's own among them. */
  ghost predicate Round(it: Iter, port: nat, t: seq<nat>, k: nat) {
    && 1 <= k <= |t| && Distinct(t)
    && it.valid && it.key == port && it.curr == t[0]
    && it.start == (if k == |t| then t[0] else t[k])
  }

  lemma RoundSteps(t: seq<nat>, k: nat)
    requires 1 <= k <= |t| && Distinct(t)
    ensures t[0] in t && Pos(t, t[0]) == 0 && Rot(t, 0) == t
    ensures Distinct(Rot(t, 1)) && (|t| > 1 ==> Rot(t, 1)[0] == t[1])
    ensures Rot(t, 1)[k - 1] == (if k == |t| then t[0] else t[k])
    ensures t[Rings.After(0, |t|)] == (if k == |t| then t[0] else t[k]) <==> k == 1
  {
  }

  lemma IsDistinct<V>(w: World<V>, k: nat)
    requires WellFormed(w) && k in w.rings
    ensures Distinct(w.rings[k])
  {
  }

  lemma Turns(r: seq<nat>, j: nat)
    requires j < |r|
    ensures Rot(r, j)[0] == r[j] && Rot(Rot(r, j), 1) == Rot(r, j + 1)
    ensures Rot(r, 0) == r == Rot(r, |r|)
  {
  }

  /** A walk from begin to end visits each element of the list once, in order, and leaves the list
      as it was. */
  method Walk<K, V>(l: List<K, V>, key: int) returns (visited: seq<V>, ghost slots: seq<nat>)
    requires l.Valid()
    modifies l, l.index
    ensures l.Valid() && l.rings == old(l.rings) && l.KeyData() == old(l.KeyData()) && l.Data() == old(l.Data())
    ensures slots == (if key in l.rings then l.rings[key] else []) && Distinct(slots)
    ensures |visited| == |slots| && forall i | 0 <= i < |slots| :: slots[i] in l.Data() && visited[i] == l.Data()[slots[i]]
  {
    hide List.Valid, List.KeyData, List.View, List.Data, GoodFor, Distinct, Rot;
    visited, slots := [], [];
    var it := l.Begin(key);
    if !it.valid {
      NoneDistinct();
      return;
    }
    ghost var r := l.rings[key];
    l.RingsAreDistinct(key);
    Turns(r, 0);
    while it.valid
      invariant l.Valid() && GoodFor(it, l.View()) && l.KeyData() == old(l.KeyData()) && l.Data() == old(l.Data())
      invariant key in l.rings && |slots| <= |r| && l.rings == old(l.rings)[key := Rot(r, |slots|)]
      invariant slots == r[..|slots|] && (!it.valid ==> |slots| == |r|)
      invariant it.valid ==> |slots| < |r| && Round(it, key, Rot(r, |slots|), |r| - |slots|)
      invariant |visited| == |slots| && forall i | 0 <= i < |slots| :: slots[i] in l.Data() && visited[i] == l.Data()[slots[i]]
      decreases |r| - |slots|
    {
      ghost var j := |slots|;
      var v := l.Deref(it);
      Turns(r, j);
      RoundSteps(Rot(r, j), |r| - j);
      it := l.Next(it);
      visited, slots := visited + [v], slots + [r[j]];
    }
    Turns(r, 0);
  }

  lemma NoneDistinct()
    ensures Distinct([])
  {
  }
}
