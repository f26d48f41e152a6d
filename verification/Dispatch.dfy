/** What the monitor's listener table promises, on the lists of listeners alone: which listener a
    connect goes to, and what listen, accept, close and garbage collection do to the order. A list
    is read in the order in which the next connect would look at it. */
module Dispatch {
  import opened Common
  import opened Modular
  import opened Rings

  datatype Listener = Listener(qid: int, accepting: bool)

  /** The first position from which p holds, or the length. */
  function First(ls: seq<Listener>, p: Listener -> bool): (j: nat)
    ensures j <= |ls| && (j < |ls| ==> p(ls[j])) && forall i | 0 <= i < j :: !p(ls[i])
  {
    if ls == [] then 0
    else if p(ls[0]) then 0
    else
      var j := First(ls[1..], p);
      assert forall i | 0 < i < 1 + j :: !p(ls[i]) by {
        assert forall i | 0 < i < 1 + j :: ls[i] == ls[1..][i - 1];
      }
      1 + j
  }

  function IsAccepting(): (p: Listener -> bool)
    ensures forall l :: p(l) <==> l.accepting
  {
    (l: Listener) => l.accepting
  }

  function HasQid(qid: int): (p: Listener -> bool)
    ensures forall l :: p(l) <==> l.qid == qid
  {
    (l: Listener) => l.qid == qid
  }

  /** Position j holds the first listener that accepts. */
  ghost predicate FirstAccepting(ls: seq<Listener>, j: nat) {
    j < |ls| && ls[j].accepting && forall i | 0 <= i < j :: !ls[i].accepting
  }

  /** Position j holds the first listener of that process. */
  ghost predicate FirstOf(ls: seq<Listener>, qid: int, j: nat) {
    j < |ls| && ls[j].qid == qid && forall i | 0 <= i < j :: ls[i].qid != qid
  }

  /** connect: the next accepting listener is chosen, and reading goes on behind it. */
  function ConnectTo(ls: seq<Listener>): (j: nat)
    ensures j <= |ls| && (j < |ls| ==> FirstAccepting(ls, j))
    ensures j == |ls| ==> forall i | 0 <= i < |ls| :: !ls[i].accepting
  {
    First(ls, IsAccepting())
  }

  function AfterConnect(ls: seq<Listener>): (r: seq<Listener>)
    ensures (forall i | 0 <= i < |ls| :: !ls[i].accepting) ==> r == ls
    ensures forall j: nat | FirstAccepting(ls, j) :: r == ls[j + 1..] + ls[..j + 1]
  {
    var j := ConnectTo(ls);
    if j < |ls| then Rot(ls, j + 1) else ls
  }

  /** Where accept and close find the listener of a process, or the length. */
  function PlaceOf(ls: seq<Listener>, qid: int): (j: nat)
    ensures j <= |ls| && (j < |ls| ==> FirstOf(ls, qid, j))
    ensures j == |ls| ==> forall i | 0 <= i < |ls| :: ls[i].qid != qid
  {
    First(ls, HasQid(qid))
  }

  /** accept: the listener is marked, and reading starts at it. */
  function AfterAccept(ls: seq<Listener>, qid: int): (r: seq<Listener>)
    ensures (forall i | 0 <= i < |ls| :: ls[i].qid != qid) ==> r == ls
    ensures forall j: nat | FirstOf(ls, qid, j) :: r == [Listener(qid, true)] + ls[j + 1..] + ls[..j]
  {
    var j := PlaceOf(ls, qid);
    assert forall k: nat | FirstOf(ls, qid, k) :: k == j;
    if j < |ls| then Rot(ls[j := ls[j].(accepting := true)], j) else ls
  }

  /** close: the listener is taken out, and reading goes on behind it. */
  function AfterClose(ls: seq<Listener>, qid: int): (r: seq<Listener>)
    ensures (forall i | 0 <= i < |ls| :: ls[i].qid != qid) ==> r == ls
    ensures forall j: nat | FirstOf(ls, qid, j) :: r == ls[j + 1..] + ls[..j]
  {
    var j := PlaceOf(ls, qid);
    assert forall k: nat | FirstOf(ls, qid, k) :: k == j;
    if j < |ls| then ls[j + 1..] + ls[..j] else ls
  }

  /** The listeners of which p holds, in order. */
  function Filter(ls: seq<Listener>, p: Listener -> bool): seq<Listener> {
    if ls == [] then []
    else if p(ls[0]) then [ls[0]] + Filter(ls[1..], p)
    else Filter(ls[1..], p)
  }

  /** The listeners that accept, in order. */
  function Accepting(ls: seq<Listener>): seq<Listener> {
    if ls == [] then [] else (if ls[0].accepting then [ls[0]] else []) + Accepting(ls[1..])
  }

  lemma {:induction false} AcceptingAre(ls: seq<Listener>, l: Listener)
    ensures l in Accepting(ls) <==> l in ls && l.accepting
    decreases |ls|
  {
    if ls != [] {
      AcceptingAre(ls[1..], l);
    }
  }

  lemma {:induction false} FilterAre(ls: seq<Listener>, p: Listener -> bool, l: Listener)
    ensures l in Filter(ls, p) <==> l in ls && p(l)
    decreases |ls|
  {
    if ls != [] {
      FilterAre(ls[1..], p, l);
    }
  }

  lemma FilterCons(l: Listener, ls: seq<Listener>, p: Listener -> bool)
    ensures Filter([l] + ls, p) == if p(l) then [l] + Filter(ls, p) else Filter(ls, p)
  {
    assert ([l] + ls)[1..] == ls;
  }

  lemma {:induction false} FilterConcat(a: seq<Listener>, b: seq<Listener>, p: Listener -> bool)
    ensures Filter(a + b, p) == Filter(a, p) + Filter(b, p)
    decreases |a|
  {
    if a == [] {
      assert a + b == b;
    } else {
      var l, rest := a[0], a[1..];
      FilterConcat(rest, b, p);
      FilterCons(l, rest + b, p);
      assert a + b == [l] + (rest + b);
      Regrouped([l], Filter(rest, p), Filter(b, p));
    }
  }

  // ---------------------------------------------------------------- fairness

  lemma AcceptingCons(l: Listener, ls: seq<Listener>)
    ensures Accepting([l] + ls) == if l.accepting then [l] + Accepting(ls) else Accepting(ls)
  {
    assert ([l] + ls)[1..] == ls;
  }

  lemma {:induction false} AcceptingConcat(a: seq<Listener>, b: seq<Listener>)
    ensures Accepting(a + b) == Accepting(a) + Accepting(b)
    decreases |a|
  {
    if a == [] {
      assert a + b == b;
    } else {
      var l, rest := a[0], a[1..];
      AcceptingConcat(rest, b);
      AcceptingCons(l, rest + b);
      AcceptingCons(l, rest);
      assert a + b == [l] + (rest + b) && a == [l] + rest;
      Regrouped([l], Accepting(rest), Accepting(b));
    }
  }

  lemma {:induction false} NoneAccepting(ls: seq<Listener>)
    requires forall i | 0 <= i < |ls| :: !ls[i].accepting
    ensures Accepting(ls) == []
    decreases |ls|
  {
    if ls != [] {
      NoneAccepting(ls[1..]);
    }
  }

  /** The accepting listeners begin with the first one found. */
  lemma SplitAtFirst(ls: seq<Listener>, j: nat)
    requires FirstAccepting(ls, j)
    ensures Accepting(ls) == [ls[j]] + Accepting(ls[j + 1..]) && Accepting(ls[..j + 1]) == [ls[j]]
  {
    hide Accepting;
    var l, front, back := ls[j], ls[..j], ls[j + 1..];
    NoneAccepting(front);
    NoneAccepting([]);
    AcceptingCons(l, back);
    AcceptingCons(l, []);
    AcceptingConcat(front, [l] + back);
    AcceptingConcat(front, [l] + []);
    assert ls == front + ([l] + back) && ls[..j + 1] == front + ([l] + []);
  }

  lemma HeadBehind(l: Listener, front: seq<Listener>, back: seq<Listener>)
    requires Accepting(front) == [l]
    ensures var acc := [l] + Accepting(back); Accepting(back + front) == acc[1..] + [acc[0]]
  {
    hide Accepting;
    AcceptingConcat(back, front);
  }

  lemma ConnectTurns(ls: seq<Listener>)
    requires ConnectTo(ls) < |ls|
    ensures var j := ConnectTo(ls); AfterConnect(ls) == ls[j + 1..] + ls[..j + 1] && FirstAccepting(ls, j)
  {
    hide ConnectTo;
  }

  /** A connect that finds nobody accepting leaves the rotation as it was. */
  lemma RefusedConnectChangesNothing(ls: seq<Listener>)
    ensures ConnectTo(ls) == |ls| <==> Accepting(ls) == []
    ensures ConnectTo(ls) == |ls| ==> AfterConnect(ls) == ls
  {
    hide Accepting, AfterConnect, ConnectTo;
    var j := ConnectTo(ls);
    if j == |ls| {
      NoneAccepting(ls);
    } else {
      SplitAtFirst(ls, j);
    }
  }

  /** One connect serves the first of the accepting listeners and sends it to the back of them. */
  lemma ConnectRotatesAccepting(ls: seq<Listener>)
    requires Accepting(ls) != []
    ensures var acc, j := Accepting(ls), ConnectTo(ls);
      && j < |ls| && ls[j] == acc[0]
      && Accepting(AfterConnect(ls)) == acc[1..] + [acc[0]]
  {
    hide *;
    RefusedConnectChangesNothing(ls);
    var j := ConnectTo(ls);
    ConnectTurns(ls);
    SplitAtFirst(ls, j);
    HeadBehind(ls[j], ls[..j + 1], ls[j + 1..]);
  }

  /** The listeners chosen by n connects in a row. */
  function Chosen(ls: seq<Listener>, n: nat): seq<Listener>
    decreases n
  {
    if n == 0 || ConnectTo(ls) == |ls| then []
    else [ls[ConnectTo(ls)]] + Chosen(AfterConnect(ls), n - 1)
  }

  /** Round robin: with k listeners accepting, n connects in a row go to them one after the other,
      in order and starting over after the k-th (Place is the remainder); so any k of them reach
      each exactly once. */
  lemma {:induction false} RoundRobin(ls: seq<Listener>, n: nat, i: nat)
    requires Accepting(ls) != [] && i < n
    ensures var acc := Accepting(ls);
      |Chosen(ls, n)| == n && Chosen(ls, n)[i] == acc[Place(i, |acc|)]
    decreases n
  {
    hide Accepting, ConnectTo, AfterConnect, Place, Chosen;
    var acc := Accepting(ls);
    ConnectRotatesAccepting(ls);
    RotatedAt(acc, i);
    ChosenStep(ls, n);
    if n == 1 {
      NoneChosen(AfterConnect(ls));
    } else {
      RoundRobin(AfterConnect(ls), n - 1, if i == 0 then 0 else i - 1);
    }
  }

  /** In particular, as many connects as there are accepting listeners reach each once, in order. */
  lemma OneRound(ls: seq<Listener>)
    ensures var acc := Accepting(ls); Chosen(ls, |acc|) == acc
  {
    hide Accepting, Chosen;
    var acc := Accepting(ls);
    if acc == [] {
      NoneChosen(ls);
    } else {
      RoundRobin(ls, |acc|, 0);
      forall i | 0 <= i < |acc|
        ensures Chosen(ls, |acc|)[i] == acc[i]
      {
        RoundRobin(ls, |acc|, i);
      }
    }
  }

  lemma ChosenStep(ls: seq<Listener>, n: nat)
    requires n > 0 && ConnectTo(ls) < |ls|
    ensures Chosen(ls, n) == [ls[ConnectTo(ls)]] + Chosen(AfterConnect(ls), n - 1)
  {
  }

  lemma NoneChosen(ls: seq<Listener>)
    ensures Chosen(ls, 0) == []
  {
  }

  lemma RotatedAt(acc: seq<Listener>, i: nat)
    requires acc != []
    ensures Place(0, |acc|) == 0
    ensures i > 0 ==> (acc[1..] + [acc[0]])[Place(i - 1, |acc|)] == acc[Place(i, |acc|)]
  {
    if i > 0 && |acc| > 1 {
      PlaceAfter(i - 1, 1, |acc|);
    }
  }
}
