/** What the two lockless queues implement: a FIFO whose elements can be deleted in any order.
    A deleted element stays where it is as a tombstone until everything before it is deleted
    too; only then is its place released. */
module TombstoneFifo {
  import opened Common

  /** pushed: every element ever pushed, as last overwritten by `set`. Places below `released`
      have been given back. */
  datatype Queue<T> = Queue(pushed: seq<T>, deleted: set<nat>, released: nat)

  datatype Event<T> = Push(x: T) | Mark(k: nat) | Update(k: nat, y: T) | Release

  ghost predicate Valid<T>(q: Queue<T>) {
    && q.released <= |q.pushed|
    && (forall k | k in q.deleted :: k < |q.pushed|)
    && (forall k: nat | k < q.released :: k in q.deleted)
  }

  function Empty<T>(): Queue<T> {
    Queue([], {}, 0)
  }

  ghost predicate Enabled<T>(q: Queue<T>, e: Event<T>) {
    match e
    case Push(_) => true
    case Mark(k) => q.released <= k < |q.pushed|
    case Update(k, _) => q.released <= k < |q.pushed| && k !in q.deleted
    case Release => q.released in q.deleted
  }

  ghost function Next<T>(q: Queue<T>, e: Event<T>): Queue<T>
    requires Enabled(q, e)
  {
    match e
    case Push(x) => q.(pushed := q.pushed + [x])
    case Mark(k) => q.(deleted := q.deleted + {k})
    case Update(k, y) => q.(pushed := q.pushed[k := y])
    case Release => q.(released := q.released + 1)
  }

  /** The elements from place k on that are not deleted, in order. */
  ghost function Undeleted<T>(q: Queue<T>, k: nat): seq<T>
    requires k <= |q.pushed|
    decreases |q.pushed| - k
  {
    if k == |q.pushed| then []
    else if k in q.deleted then Undeleted(q, k + 1)
    else [q.pushed[k]] + Undeleted(q, k + 1)
  }

  /** What a reader starting at the first unreleased place finds. */
  ghost function Live<T>(q: Queue<T>): seq<T>
    requires Valid(q)
  {
    Undeleted(q, q.released)
  }

  /** Released places hold nothing but deleted elements, so the reader misses nothing: the live
      elements are everything pushed minus everything deleted, in the order pushed. */
  lemma {:induction false} LiveIsPushedMinusDeleted<T>(q: Queue<T>, k: nat)
    requires Valid(q) && k <= q.released
    ensures Undeleted(q, k) == Live(q)
    decreases q.released - k
  {
    if k < q.released {
      LiveIsPushedMinusDeleted(q, k + 1);
    }
  }

  lemma {:induction false} PushAppends<T>(q: Queue<T>, x: T, k: nat)
    requires Valid(q) && k <= |q.pushed|
    ensures Undeleted(Next(q, Push(x)), k) == Undeleted(q, k) + [x]
    decreases |q.pushed| - k
  {
    if k < |q.pushed| {
      PushAppends(q, x, k + 1);
    } else {
      assert Undeleted(Next(q, Push(x)), k + 1) == [];
    }
  }

  /** The number of live elements before place k. */
  ghost function Rank<T>(q: Queue<T>, from: nat, k: nat): nat
    requires from <= k <= |q.pushed|
    ensures Rank(q, from, k) <= |Undeleted(q, from)|
    decreases k - from
  {
    if from == k then 0
    else (if from in q.deleted then 0 else 1) + Rank(q, from + 1, k)
  }

  lemma FirstPlace<T>(q: Queue<T>, k: nat)
    requires k < |q.pushed|
    ensures Undeleted(q, k) == if k in q.deleted then Undeleted(q, k + 1) else [q.pushed[k]] + Undeleted(q, k + 1)
  {
  }

  lemma NoneLeft<T>(q: Queue<T>)
    ensures Undeleted(q, |q.pushed|) == []
  {
  }

  lemma RankStep<T>(q: Queue<T>, from: nat, k: nat)
    requires from <= k <= |q.pushed|
    ensures Rank(q, from, k) ==
      if from == k then 0 else (if from in q.deleted then 0 else 1) + Rank(q, from + 1, k)
  {
  }

  lemma LaterGone<T>(x: T, rest: seq<T>, r: nat)
    requires r < |rest|
    ensures var live := [x] + rest;
      live[r + 1] == rest[r] && live[..r + 1] + live[r + 2..] == [x] + (rest[..r] + rest[r + 1..])
  {
    var live := [x] + rest;
    assert live[..r + 1] == [x] + rest[..r] && live[r + 2..] == rest[r + 1..];
  }

  /** Deleting a live element removes that one element and moves no other; marking a tombstone
      again changes nothing. */
  lemma {:induction false} MarkRemoves<T>(q: Queue<T>, k: nat, from: nat)
    requires Valid(q) && from <= k < |q.pushed|
    ensures var r, live := Rank(q, from, k), Undeleted(q, from);
      && (k in q.deleted ==> Undeleted(q.(deleted := q.deleted + {k}), from) == live)
      && (k !in q.deleted ==>
            && r < |live| && live[r] == q.pushed[k]
            && Undeleted(q.(deleted := q.deleted + {k}), from) == live[..r] + live[r + 1..])
    decreases k - from
  {
    hide Undeleted, Rank;
    var q' := q.(deleted := q.deleted + {k});
    FirstPlace(q, from);
    FirstPlace(q', from);
    RankStep(q, from, k);
    if from == k {
      SameAfter(q, q', k + 1);
    } else {
      MarkRemoves(q, k, from + 1);
      if from !in q.deleted && k !in q.deleted {
        LaterGone(q.pushed[from], Undeleted(q, from + 1), Rank(q, from + 1, k));
      }
    }
  }

  lemma {:induction false} SameAfter<T>(q: Queue<T>, q': Queue<T>, k: nat)
    requires k <= |q.pushed| && q'.pushed == q.pushed
    requires forall i | k <= i < |q.pushed| :: i in q.deleted <==> i in q'.deleted
    ensures Undeleted(q, k) == Undeleted(q', k)
    decreases |q.pushed| - k
  {
    if k < |q.pushed| {
      SameAfter(q, q', k + 1);
    }
  }

  /** Giving a place back shows the reader nothing new. */
  lemma ReleaseHidesNothing<T>(q: Queue<T>)
    requires Valid(q) && Enabled(q, Release)
    ensures Live(Next(q, Release)) == Live(q)
  {
    SameAfter(q, Next(q, Release), q.released + 1);
  }

  // ---------------------------------------------------------------- order per key

  /** The elements of one key, say of one file descriptor. */
  ghost function Only<T, K>(xs: seq<T>, keyOf: T -> K, key: K): seq<T> {
    if xs == [] then []
    else if keyOf(xs[0]) == key then [xs[0]] + Only(xs[1..], keyOf, key)
    else Only(xs[1..], keyOf, key)
  }

  lemma OnlyCons<T, K>(x: T, xs: seq<T>, keyOf: T -> K, key: K)
    ensures Only([x] + xs, keyOf, key)
         == if keyOf(x) == key then [x] + Only(xs, keyOf, key) else Only(xs, keyOf, key)
  {
    assert ([x] + xs)[1..] == xs;
  }

  lemma OnlyNone<T, K>(keyOf: T -> K, key: K)
    ensures Only([], keyOf, key) == []
  {
  }

  lemma OnlyOne<T, K>(x: T, keyOf: T -> K, key: K)
    ensures Only([x], keyOf, key) == if keyOf(x) == key then [x] else []
  {
    assert [x][1..] == [];
  }

  lemma {:induction false} OnlyConcat<T, K>(xs: seq<T>, ys: seq<T>, keyOf: T -> K, key: K)
    ensures Only(xs + ys, keyOf, key) == Only(xs, keyOf, key) + Only(ys, keyOf, key)
    decreases |xs|
  {
    hide Only;
    if xs == [] {
      OnlyNone(keyOf, key);
      assert xs + ys == ys && [] + Only(ys, keyOf, key) == Only(ys, keyOf, key);
    } else {
      var x, rest := xs[0], xs[1..];
      OnlyConcat(rest, ys, keyOf, key);
      OnlyCons(x, rest, keyOf, key);
      OnlyCons(x, rest + ys, keyOf, key);
      assert xs == [x] + rest && xs + ys == [x] + (rest + ys);
      assert ([x] + Only(rest, keyOf, key)) + Only(ys, keyOf, key)
          == [x] + (Only(rest, keyOf, key) + Only(ys, keyOf, key));
    }
  }

  /** Place k holds the first live element of the key. */
  ghost predicate FirstMatch<T, K>(q: Queue<T>, keyOf: T -> K, key: K, k: nat) {
    && q.released <= k < |q.pushed| && k !in q.deleted && keyOf(q.pushed[k]) == key
    && (forall i: nat | q.released <= i < k && i !in q.deleted :: keyOf(q.pushed[i]) != key)
  }

  /** There is one as long as an element of the key is live. */
  lemma {:induction false} FirstMatchIsFound<T, K>(q: Queue<T>, keyOf: T -> K, i: nat) returns (k: nat)
    requires q.released <= i < |q.pushed| && i !in q.deleted
    ensures FirstMatch(q, keyOf, keyOf(q.pushed[i]), k) && k <= i
    decreases i
  {
    var key := keyOf(q.pushed[i]);
    if j: nat :| q.released <= j < i && j !in q.deleted && keyOf(q.pushed[j]) == key {
      k := FirstMatchIsFound(q, keyOf, j);
    } else {
      k := i;
    }
  }

  /** The elements from place k on that are deleted, in order. */
  ghost function Gone<T>(q: Queue<T>, k: nat): seq<T>
    requires k <= |q.pushed|
    decreases |q.pushed| - k
  {
    if k == |q.pushed| then []
    else if k in q.deleted then [q.pushed[k]] + Gone(q, k + 1)
    else Gone(q, k + 1)
  }

  lemma FirstGone<T>(q: Queue<T>, k: nat)
    requires k < |q.pushed|
    ensures Gone(q, k) == if k in q.deleted then [q.pushed[k]] + Gone(q, k + 1) else Gone(q, k + 1)
  {
  }

  /** Elements of the key are deleted from the oldest on. */
  ghost predicate OldestGone<T, K>(q: Queue<T>, keyOf: T -> K, key: K) {
    forall i: nat, j: nat | i in q.deleted && i < |q.pushed| && j < |q.pushed| && j !in q.deleted ::
      keyOf(q.pushed[i]) == key && keyOf(q.pushed[j]) == key ==> i < j
  }

  /** Pushing, and overwriting what is not deleted, changes nothing among the deleted. */
  lemma {:induction false} SameGone<T>(q: Queue<T>, q': Queue<T>, k: nat)
    requires k <= |q.pushed| <= |q'.pushed| && q'.deleted == q.deleted
    requires forall i | i in q.deleted :: i < |q.pushed| && q'.pushed[i] == q.pushed[i]
    ensures Gone(q', k) == Gone(q, k)
    decreases |q'.pushed| - k
  {
    if k < |q.pushed| {
      SameGone(q, q', k + 1);
    } else if k < |q'.pushed| {
      NoneGone(q', k);
    }
  }

  lemma {:induction false} NoneGone<T>(q: Queue<T>, k: nat)
    requires k <= |q.pushed| && forall i | i in q.deleted :: i < k
    ensures Gone(q, k) == []
    decreases |q.pushed| - k
  {
    if k < |q.pushed| {
      NoneGone(q, k + 1);
    }
  }

  lemma {:induction false} NoneOfKeyGone<T, K>(q: Queue<T>, k: nat, keyOf: T -> K, key: K)
    requires k <= |q.pushed|
    requires forall i: nat | i in q.deleted && k <= i < |q.pushed| :: keyOf(q.pushed[i]) != key
    ensures Only(Gone(q, k), keyOf, key) == []
    decreases |q.pushed| - k
  {
    hide Only, Gone;
    if k == |q.pushed| {
      NoneBehind(q);
      OnlyNone(keyOf, key);
    } else {
      FirstGone(q, k);
      NoneOfKeyGone(q, k + 1, keyOf, key);
      OnlyCons(q.pushed[k], Gone(q, k + 1), keyOf, key);
    }
  }

  lemma NoneBehind<T>(q: Queue<T>)
    ensures Gone(q, |q.pushed|) == []
  {
  }

  /** Deleting the first live element of its key puts it behind the deleted ones of that key. */
  lemma {:induction false} GoneGrows<T, K>(q: Queue<T>, k: nat, from: nat, keyOf: T -> K, key: K)
    requires from <= k < |q.pushed| && k !in q.deleted
    requires keyOf(q.pushed[k]) == key ==>
      forall i: nat | i in q.deleted && k < i < |q.pushed| :: keyOf(q.pushed[i]) != key
    ensures Only(Gone(q.(deleted := q.deleted + {k}), from), keyOf, key)
         == Only(Gone(q, from), keyOf, key) + (if keyOf(q.pushed[k]) == key then [q.pushed[k]] else [])
    decreases k - from
  {
    hide Only, Gone;
    var q', x := q.(deleted := q.deleted + {k}), q.pushed[from];
    FirstGone(q, from);
    FirstGone(q', from);
    if from == k {
      SameGoneAfter(q, q', k + 1);
      OnlyCons(x, Gone(q, k + 1), keyOf, key);
      if keyOf(x) == key {
        NoneOfKeyGone(q, k + 1, keyOf, key);
      }
    } else {
      GoneGrows(q, k, from + 1, keyOf, key);
      OnlyCons(x, Gone(q, from + 1), keyOf, key);
      OnlyCons(x, Gone(q', from + 1), keyOf, key);
      var more := if keyOf(q.pushed[k]) == key then [q.pushed[k]] else [];
      Regrouped([x], Only(Gone(q, from + 1), keyOf, key), more);
    }
  }

  lemma {:induction false} SameGoneAfter<T>(q: Queue<T>, q': Queue<T>, k: nat)
    requires k <= |q.pushed| && q'.pushed == q.pushed
    requires forall i | k <= i < |q.pushed| :: i in q.deleted <==> i in q'.deleted
    ensures Gone(q, k) == Gone(q', k)
    decreases |q.pushed| - k
  {
    if k < |q.pushed| {
      SameGoneAfter(q, q', k + 1);
    }
  }

  /** Of a key that is deleted from the oldest on, the deleted elements followed by the others are all. */
  lemma {:induction false} GoneThenLive<T, K>(q: Queue<T>, from: nat, keyOf: T -> K, key: K)
    requires OldestGone(q, keyOf, key) && from <= |q.pushed|
    ensures Only(Gone(q, from), keyOf, key) + Only(Undeleted(q, from), keyOf, key) == Only(q.pushed[from..], keyOf, key)
    decreases |q.pushed| - from
  {
    hide Only, Gone, Undeleted;
    OnlyNone(keyOf, key);
    if from == |q.pushed| {
      NoneBehind(q);
      NoneLeft(q);
    } else {
      FirstGone(q, from);
      FirstPlace(q, from);
      GoneThenLive(q, from + 1, keyOf, key);
      var x, gone, left := q.pushed[from], Gone(q, from + 1), Undeleted(q, from + 1);
      assert q.pushed[from..] == [x] + q.pushed[from + 1..];
      OnlyCons(x, q.pushed[from + 1..], keyOf, key);
      if from in q.deleted {
        ConsBefore(x, gone, left, keyOf, key);
      } else {
        if keyOf(x) == key {
          NoneOfKeyGone(q, from + 1, keyOf, key);
        }
        ConsBehind(x, gone, left, keyOf, key);
      }
    }
  }

  lemma ConsBefore<T, K>(x: T, gone: seq<T>, left: seq<T>, keyOf: T -> K, key: K)
    ensures var rest := Only(gone, keyOf, key) + Only(left, keyOf, key);
      Only([x] + gone, keyOf, key) + Only(left, keyOf, key) == if keyOf(x) == key then [x] + rest else rest
  {
    hide Only;
    OnlyCons(x, gone, keyOf, key);
    Regrouped([x], Only(gone, keyOf, key), Only(left, keyOf, key));
  }

  lemma ConsBehind<T, K>(x: T, gone: seq<T>, left: seq<T>, keyOf: T -> K, key: K)
    requires keyOf(x) == key ==> Only(gone, keyOf, key) == []
    ensures var rest := Only(gone, keyOf, key) + Only(left, keyOf, key);
      Only(gone, keyOf, key) + Only([x] + left, keyOf, key) == if keyOf(x) == key then [x] + rest else rest
  {
    hide Only;
    OnlyCons(x, left, keyOf, key);
  }

  /** What was taken of a key are its oldest elements, in order. */
  ghost predicate InOrder<T, K>(q: Queue<T>, taken: seq<T>, keyOf: T -> K, key: K) {
    Valid(q) && OldestGone(q, keyOf, key) && Only(taken, keyOf, key) == Only(Gone(q, 0), keyOf, key)
  }

  lemma PushKeepsOrder<T, K>(q: Queue<T>, taken: seq<T>, x: T, keyOf: T -> K, key: K)
    requires InOrder(q, taken, keyOf, key)
    ensures InOrder(Next(q, Push(x)), taken, keyOf, key)
  {
    hide Only, Gone;
    SameGone(q, Next(q, Push(x)), 0);
  }

  /** An element is overwritten where it is, with one of the same key. */
  lemma UpdateKeepsOrder<T, K>(q: Queue<T>, taken: seq<T>, k: nat, y: T, keyOf: T -> K, key: K)
    requires InOrder(q, taken, keyOf, key) && Enabled(q, Update(k, y)) && keyOf(y) == keyOf(q.pushed[k])
    ensures InOrder(Next(q, Update(k, y)), taken, keyOf, key)
  {
    hide Only, Gone;
    SameGone(q, Next(q, Update(k, y)), 0);
  }

  lemma TakeKeepsOrder<T, K>(q: Queue<T>, taken: seq<T>, k: nat, keyOf: T -> K, key: K)
    requires InOrder(q, taken, keyOf, key) && k < |q.pushed| && FirstMatch(q, keyOf, keyOf(q.pushed[k]), k)
    ensures InOrder(Next(q, Mark(k)), taken + [q.pushed[k]], keyOf, key)
  {
    hide Only, Gone;
    OnlyConcat(taken, [q.pushed[k]], keyOf, key);
    OnlyOne(q.pushed[k], keyOf, key);
    GoneGrows(q, k, 0, keyOf, key);
  }

  lemma ReleaseKeepsOrder<T, K>(q: Queue<T>, taken: seq<T>, keyOf: T -> K, key: K)
    requires InOrder(q, taken, keyOf, key) && Enabled(q, Release)
    ensures InOrder(Next(q, Release), taken, keyOf, key)
  {
    hide Only, Gone;
    SameGoneAfter(q, Next(q, Release), 0);
  }

  lemma NothingYet<T, K>(keyOf: T -> K, key: K)
    ensures InOrder(Empty(), [], keyOf, key)
  {
  }

  /** What was taken of a key, followed by what is left of it, is what was pushed of it. */
  lemma TakenThenLeft<T, K>(q: Queue<T>, taken: seq<T>, keyOf: T -> K, key: K)
    requires InOrder(q, taken, keyOf, key)
    ensures Only(taken, keyOf, key) + Only(Live(q), keyOf, key) == Only(q.pushed, keyOf, key)
  {
    hide Only, Gone, Undeleted;
    GoneThenLive(q, 0, keyOf, key);
    LiveIsPushedMinusDeleted(q, 0);
    assert q.pushed[0..] == q.pushed;
  }
}
