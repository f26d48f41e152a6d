/** Cyclic lists that share one pool of slots: every element names its successor, and following the
    successors from any element of a list returns to it through all the others. */
module Rings {

  datatype Elem<V> = Elem(data: V, next: int)

  /** pool: the occupied slots. rings: per key, the slots of its list in order. owner: the key whose
      list a slot is on. */
  datatype World<V> = World(pool: map<nat, Elem<V>>, rings: map<nat, seq<nat>>, owner: map<nat, nat>)

  /** The position after i in a cycle of n. */
  function After(i: nat, n: nat): nat {
    if i + 1 == n then 0 else i + 1
  }

  ghost predicate Distinct(r: seq<nat>) {
    forall i, j | 0 <= i < j < |r| :: r[i] != r[j]
  }

  /** The element at position i names the one at the position after it. */
  ghost predicate Follows<V>(pool: map<nat, Elem<V>>, r: seq<nat>, i: nat)
    requires i < |r|
  {
    r[i] in pool && pool[r[i]].next == r[After(i, |r|)]
  }

  ghost predicate IsRing<V>(pool: map<nat, Elem<V>>, r: seq<nat>) {
    Distinct(r) && forall i: nat | i < |r| :: Follows(pool, r, i)
  }

  /** Disjoint cycles, one per key, that together cover exactly the occupied slots. */
  ghost predicate WellFormed<V>(w: World<V>) {
    && (forall k | k in w.rings :: IsRing(w.pool, w.rings[k]))
    && w.owner.Keys == w.pool.Keys
    && (forall s | s in w.owner :: w.owner[s] in w.rings && s in w.rings[w.owner[s]])
    && (forall k, s | k in w.rings && s in w.rings[k] :: s in w.owner && w.owner[s] == k)
  }

  /** The same cycle, read from position p on. */
  function Rot<T>(r: seq<T>, p: nat): (r': seq<T>)
    requires p <= |r|
    ensures |r'| == |r|
  {
    r[p..] + r[..p]
  }

  function Last(r: seq<nat>): nat
    requires r != []
  {
    r[|r| - 1]
  }

  lemma RotAt(r: seq<nat>, p: nat, i: nat)
    requires p <= |r| && i < |r|
    ensures Rot(r, p)[i] == r[if i < |r| - p then p + i else i - (|r| - p)]
  {
  }

  lemma RotIsRing<V>(pool: map<nat, Elem<V>>, r: seq<nat>, p: nat)
    requires IsRing(pool, r) && p <= |r|
    ensures IsRing(pool, Rot(r, p))
  {
    var n, r' := |r|, Rot(r, p);
    forall i, j | 0 <= i < j < n
      ensures r'[i] != r'[j]
    {
      RotAt(r, p, i);
      RotAt(r, p, j);
    }
    forall i: nat | i < n
      ensures Follows(pool, r', i)
    {
      RotAt(r, p, i);
      RotAt(r, p, After(i, n));
      assert Follows(pool, r, if i < n - p then p + i else i - (n - p));
    }
  }

  lemma RotElements(r: seq<nat>, p: nat, s: nat)
    requires p <= |r|
    ensures s in Rot(r, p) <==> s in r
  {
    assert r == r[..p] + r[p..];
  }

  lemma FrameRing<V>(pool: map<nat, Elem<V>>, pool': map<nat, Elem<V>>, r: seq<nat>)
    requires IsRing(pool, r)
    requires forall s | s in r :: s in pool && s in pool' && pool'[s].next == pool[s].next
    ensures IsRing(pool', r)
  {
    forall i: nat | i < |r|
      ensures Follows(pool', r, i)
    {
      assert Follows(pool, r, i) && r[i] in r;
    }
  }

  /** A new slot linked in behind the last element of a list heads it. */
  function Linked<V>(pool: map<nat, Elem<V>>, last: nat, slot: nat, v: V): map<nat, Elem<V>>
    requires last in pool
  {
    var pool1 := pool[slot := Elem(v, pool[last].next)];
    pool1[last := pool1[last].(next := slot)]
  }

  lemma LinkedIsRing<V>(pool: map<nat, Elem<V>>, r: seq<nat>, slot: nat, v: V)
    requires IsRing(pool, r) && r != [] && slot !in pool
    ensures Last(r) in pool && IsRing(Linked(pool, Last(r), slot, v), [slot] + r)
  {
    var n := |r|;
    assert Follows(pool, r, n - 1);
    forall i: nat | i < n
      ensures r[i] != slot
    {
      assert Follows(pool, r, i);
    }
    var r', pool' := [slot] + r, Linked(pool, Last(r), slot, v);
    assert Distinct(r');
    forall i: nat | i < n + 1
      ensures Follows(pool', r', i)
    {
      if i > 0 {
        assert r'[i] == r[i - 1] && Follows(pool, r, i - 1);
        assert i - 1 < n - 1 ==> r[i - 1] != r[n - 1];
      }
    }
  }

  /** The first element of a list taken out by its predecessor, the last. */
  function Unlinked<V>(pool: map<nat, Elem<V>>, prev: nat, curr: nat): map<nat, Elem<V>>
    requires prev in pool && curr in pool
  {
    pool[prev := pool[prev].(next := pool[curr].next)] - {curr}
  }

  lemma UnlinkedIsRing<V>(pool: map<nat, Elem<V>>, r: seq<nat>)
    requires IsRing(pool, r) && |r| > 1
    ensures Last(r) in pool && r[0] in pool && IsRing(Unlinked(pool, Last(r), r[0]), r[1..])
  {
    var n := |r|;
    assert Follows(pool, r, n - 1) && Follows(pool, r, 0);
    var r', pool' := r[1..], Unlinked(pool, Last(r), r[0]);
    forall i: nat | i < n - 1
      ensures Follows(pool', r', i)
    {
      assert r'[i] == r[i + 1] && r[i + 1] != r[0] && Follows(pool, r, i + 1);
      assert i + 1 < n - 1 ==> r[i + 1] != r[n - 1];
    }
  }

  // ---------------------------------------------------------------- the whole pool

  /** Any change that keeps the other lists' slots, and makes one list a cycle over the slots it
      should have, keeps the pool well formed. */
  lemma ReplaceRing<V>(w: World<V>, w': World<V>, k: nat, r: seq<nat>)
    requires WellFormed(w) && k in w.rings
    requires w'.rings == w.rings[k := r] && IsRing(w'.pool, r) && w'.owner.Keys == w'.pool.Keys
    requires forall s | s in w.pool && w.owner[s] != k ::
      s in w'.pool && w'.pool[s].next == w.pool[s].next && w'.owner[s] == w.owner[s]
    requires forall s | s in w'.pool && w'.owner[s] != k :: s in w.pool && w.owner[s] == w'.owner[s]
    requires forall s | s in w'.pool && w'.owner[s] == k :: s in r
    requires forall s | s in r :: s in w'.pool && w'.owner[s] == k
    ensures WellFormed(w')
  {
    hide IsRing;
    forall k' | k' in w'.rings
      ensures IsRing(w'.pool, w'.rings[k'])
    {
      if k' != k {
        forall s | s in w.rings[k']
          ensures s in w'.pool && w'.pool[s].next == w.pool[s].next
        {
          assert w.owner[s] == k';
        }
        FrameRing(w.pool, w'.pool, w.rings[k']);
      }
    }
    forall s | s in w'.owner
      ensures w'.owner[s] in w'.rings && s in w'.rings[w'.owner[s]]
    {
    }
    forall k', s | k' in w'.rings && s in w'.rings[k']
      ensures s in w'.owner && w'.owner[s] == k'
    {
      if k' != k {
        assert w.owner[s] == k';
      }
    }
  }

  /** Turning a list changes nothing but where it is read from. */
  lemma TurnKeeps<V>(w: World<V>, k: nat, p: nat)
    requires WellFormed(w) && k in w.rings && p <= |w.rings[k]|
    ensures WellFormed(w.(rings := w.rings[k := Rot(w.rings[k], p)]))
  {
    hide Rot, IsRing;
    var r := w.rings[k];
    RotIsRing(w.pool, r, p);
    forall s
      ensures s in Rot(r, p) <==> s in r
    {
      RotElements(r, p, s);
    }
    ReplaceRing(w, w.(rings := w.rings[k := Rot(r, p)]), k, Rot(r, p));
  }

  /** add_element to a list with elements. */
  function Inserted<V>(w: World<V>, k: nat, slot: nat, v: V): World<V>
    requires k in w.rings && w.rings[k] != [] && Last(w.rings[k]) in w.pool
  {
    World(Linked(w.pool, Last(w.rings[k]), slot, v), w.rings[k := [slot] + w.rings[k]], w.owner[slot := k])
  }

  lemma InsertKeeps<V>(w: World<V>, k: nat, slot: nat, v: V)
    requires WellFormed(w) && k in w.rings && w.rings[k] != [] && slot !in w.pool
    ensures Last(w.rings[k]) in w.pool && WellFormed(Inserted(w, k, slot, v))
  {
    var r := w.rings[k];
    LinkedIsRing(w.pool, r, slot, v);
    assert Last(r) in r;
    ReplaceRing(w, Inserted(w, k, slot, v), k, [slot] + r);
  }

  /** A new key has an empty list. */
  lemma KeyKeeps<V>(w: World<V>, k: nat)
    requires WellFormed(w) && k !in w.rings
    ensures WellFormed(w.(rings := w.rings[k := []]))
  {
    assert forall s | s in w.owner :: w.owner[s] != k;
  }

  /** What the slots hold, without the links. */
  ghost function Held<V>(pool: map<nat, Elem<V>>): map<nat, V> {
    map s | s in pool :: pool[s].data
  }

  /** The first element of a list. */
  function Started<V>(w: World<V>, k: nat, slot: nat, v: V): World<V> {
    World(w.pool[slot := Elem(v, slot)], w.rings[k := [slot]], w.owner[slot := k])
  }

  lemma StartKeeps<V>(w: World<V>, k: nat, slot: nat, v: V)
    requires WellFormed(w) && k in w.rings && w.rings[k] == [] && slot !in w.pool
    ensures WellFormed(Started(w, k, slot, v))
  {
    ReplaceRing(w, Started(w, k, slot, v), k, [slot]);
  }

  /** The first element of a list with others leaves it. */
  function Removed<V>(w: World<V>, k: nat): World<V>
    requires k in w.rings && |w.rings[k]| > 1
    requires Last(w.rings[k]) in w.pool && w.rings[k][0] in w.pool
  {
    var r := w.rings[k];
    World(Unlinked(w.pool, Last(r), r[0]), w.rings[k := r[1..]], w.owner - {r[0]})
  }

  lemma RemoveKeeps<V>(w: World<V>, k: nat)
    requires WellFormed(w) && k in w.rings && |w.rings[k]| > 1
    ensures var r := w.rings[k];
      Last(r) in w.pool && r[0] in w.pool && WellFormed(Removed(w, k))
  {
    var r := w.rings[k];
    UnlinkedIsRing(w.pool, r);
    var w' := Removed(w, k);
    assert Last(r) in r && r[0] in r;
    assert w'.owner.Keys == w'.pool.Keys;
    forall s
      ensures s in r[1..] <==> s in w'.pool && w'.owner[s] == k
    {
      InTail(r, s);
    }
    ReplaceRing(w, w', k, r[1..]);
  }

  lemma InTail(r: seq<nat>, s: nat)
    requires r != [] && Distinct(r)
    ensures s in r[1..] <==> s in r && s != r[0]
  {
    assert r == [r[0]] + r[1..];
  }

  /** The only element of a list leaves it. */
  function Emptied<V>(w: World<V>, k: nat): World<V>
    requires k in w.rings && |w.rings[k]| == 1
  {
    World(w.pool - {w.rings[k][0]}, w.rings[k := []], w.owner - {w.rings[k][0]})
  }

  lemma EmptyKeeps<V>(w: World<V>, k: nat)
    requires WellFormed(w) && k in w.rings && |w.rings[k]| == 1
    ensures WellFormed(Emptied(w, k))
  {
    assert w.rings[k] == [w.rings[k][0]];
    ReplaceRing(w, Emptied(w, k), k, []);
  }

  /** Changing what an element holds, not where it links. */
  lemma UpdateKeeps<V>(w: World<V>, s: nat, v: V)
    requires WellFormed(w) && s in w.pool
    ensures WellFormed(w.(pool := w.pool[s := w.pool[s].(data := v)]))
  {
    var k := w.owner[s];
    var w' := w.(pool := w.pool[s := w.pool[s].(data := v)]);
    FrameRing(w.pool, w'.pool, w.rings[k]);
    assert w'.rings == w.rings[k := w.rings[k]];
    ReplaceRing(w, w', k, w.rings[k]);
  }

  // ---------------------------------------------------------------- anywhere on a list

  /** What inserting behind position p leads to: behind the last is before the first. */
  function WithBehind(r: seq<nat>, p: nat, slot: nat): seq<nat>
    requires p < |r|
  {
    if p == |r| - 1 then [slot] + r else r[..p + 1] + [slot] + r[p + 1..]
  }

  /** What deleting the element at position p leaves. The key points at the last element; when that
      one goes, it is made to point at the first, so reading starts one further. */
  function Without(r: seq<nat>, p: nat): seq<nat>
    requires p < |r|
  {
    if |r| == 1 then [] else if p == |r| - 1 then r[1..p] + [r[0]] else r[..p] + r[p + 1..]
  }

  function Before(p: nat, n: nat): nat
    requires p < n
  {
    if p == 0 then n - 1 else p - 1
  }

  lemma TurnedBehind(r: seq<nat>, p: nat, slot: nat, turn: nat)
    requires p < |r| && turn == if p == |r| - 1 then 0 else |r| - p
    ensures Last(Rot(r, p + 1)) == r[p]
    ensures Rot([slot] + Rot(r, p + 1), turn) == WithBehind(r, p, slot)
  {
  }

  lemma TurnedWithout(r: seq<nat>, p: nat, turn: nat)
    requires p < |r| && |r| > 1 && turn == if p == |r| - 1 then 1 else |r| - 1 - p
    ensures Rot(r, p)[0] == r[p] && Last(Rot(r, p)) == r[Before(p, |r|)]
    ensures Rot(Rot(r, p)[1..], turn) == Without(r, p)
  {
    if p == |r| - 1 {
      assert Rot(r, p)[1..] == r[..p];
    } else {
      assert Rot(r, p)[1..] == r[p + 1..] + r[..p];
    }
  }

  function InsertedBehind<V>(w: World<V>, k: nat, p: nat, slot: nat, v: V): World<V>
    requires k in w.rings && p < |w.rings[k]| && w.rings[k][p] in w.pool
  {
    var r := w.rings[k];
    World(Linked(w.pool, r[p], slot, v), w.rings[k := WithBehind(r, p, slot)], w.owner[slot := k])
  }

  lemma BehindKeeps<V>(w: World<V>, k: nat, p: nat, slot: nat, v: V)
    requires WellFormed(w) && k in w.rings && p < |w.rings[k]| && slot !in w.pool
    ensures w.rings[k][p] in w.pool && WellFormed(InsertedBehind(w, k, p, slot, v))
  {
    hide WellFormed, Linked, Rot, WithBehind;
    var r := w.rings[k];
    var turn := if p == |r| - 1 then 0 else |r| - p;
    TurnedBehind(r, p, slot, turn);
    var w1 := w.(rings := w.rings[k := Rot(r, p + 1)]);
    TurnKeeps(w, k, p + 1);
    InsertKeeps(w1, k, slot, v);
    var w2 := Inserted(w1, k, slot, v);
    TurnKeeps(w2, k, turn);
    assert w2.(rings := w2.rings[k := Rot(w2.rings[k], turn)]) == InsertedBehind(w, k, p, slot, v);
  }

  function RemovedAt<V>(w: World<V>, k: nat, p: nat): World<V>
    requires k in w.rings && p < |w.rings[k]|
    requires w.rings[k][p] in w.pool && w.rings[k][Before(p, |w.rings[k]|)] in w.pool
  {
    var r := w.rings[k];
    World(Unlinked(w.pool, r[Before(p, |r|)], r[p]), w.rings[k := Without(r, p)], w.owner - {r[p]})
  }

  lemma RemoveAtKeeps<V>(w: World<V>, k: nat, p: nat)
    requires WellFormed(w) && k in w.rings && p < |w.rings[k]| && |w.rings[k]| > 1
    ensures w.rings[k][p] in w.pool && w.rings[k][Before(p, |w.rings[k]|)] in w.pool
    ensures WellFormed(RemovedAt(w, k, p))
  {
    hide WellFormed, Unlinked, Rot, Without;
    var r := w.rings[k];
    var turn := if p == |r| - 1 then 1 else |r| - 1 - p;
    TurnedWithout(r, p, turn);
    var w1 := w.(rings := w.rings[k := Rot(r, p)]);
    TurnKeeps(w, k, p);
    RemoveKeeps(w1, k);
    var w2 := Removed(w1, k);
    TurnKeeps(w2, k, turn);
    assert w2.(rings := w2.rings[k := Rot(w2.rings[k], turn)]) == RemovedAt(w, k, p);
  }
}
