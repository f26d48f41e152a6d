/** The monitor's listener table: listen, accept, connect, close and garbage collection over the
    shared cyclic lists, one list per port. Each handler is proved to do to the port's list what
    Dispatch says, and to leave every other port alone. */
module Listeners {
  import opened Common
  import opened Modular
  import opened Rings
  import opened SlotPool
  import opened AdjList
  import D = Dispatch

  /** monitor_sock_node_t */
  datatype Node = Node(listening: bool, reuse: bool)

  type Slots = map<nat, seq<nat>>
  type Holds = map<nat, D.Listener>

  // ---------------------------------------------------------------- the lists, by their listeners

  function Holding(data: Holds, s: nat): D.Listener {
    if s in data then data[s] else D.Listener(0, false)
  }

  /** The listeners on a list, in order. */
  function Members(r: seq<nat>, data: Holds): (ls: seq<D.Listener>)
    ensures |ls| == |r|
  {
    seq(|r|, i requires 0 <= i < |r| => Holding(data, r[i]))
  }

  function Lists(rings: Slots, data: Holds): map<nat, seq<D.Listener>> {
    map p | p in rings :: Members(rings[p], data)
  }

  /** The lists share nothing and hold data throughout. */
  ghost predicate Sound(rings: Slots, data: Holds) {
    && (forall p | p in rings :: Distinct(rings[p]))
    && (forall p, s | p in rings && s in rings[p] :: s in data)
    && (forall p, q, s | p in rings && q in rings && s in rings[p] && s in rings[q] :: p == q)
  }

  lemma SoundOf(w: World<D.Listener>)
    requires WellFormed(w)
    ensures Sound(w.rings, Held(w.pool))
  {
    forall p, q, s | p in w.rings && q in w.rings && s in w.rings[p] && s in w.rings[q]
      ensures p == q
    {
      assert w.owner[s] == p && w.owner[s] == q;
    }
  }

  lemma ListsTurned(rings: Slots, data: Holds, port: nat, p: nat)
    requires port in rings && p <= |rings[port]|
    ensures Lists(rings[port := Rot(rings[port], p)], data)
         == Lists(rings, data)[port := Rot(Lists(rings, data)[port], p)]
  {
    assert Members(Rot(rings[port], p), data) == Rot(Members(rings[port], data), p);
  }

  lemma ListsHeadless(rings: Slots, data: Holds, port: nat)
    requires Sound(rings, data) && port in rings && rings[port] != []
    ensures Lists(rings[port := rings[port][1..]], data - {rings[port][0]})
         == Lists(rings, data)[port := Lists(rings, data)[port][1..]]
  {
    var head, data' := rings[port][0], data - {rings[port][0]};
    forall q | q in rings && q != port
      ensures Members(rings[q], data') == Members(rings[q], data)
    {
      assert head in rings[port];
      assert forall i | 0 <= i < |rings[q]| :: rings[q][i] in rings[q];
    }
    assert Members(rings[port][1..], data') == Members(rings[port], data)[1..];
  }

  lemma ListsHeadSet(rings: Slots, data: Holds, port: nat, v: D.Listener)
    requires Sound(rings, data) && port in rings && rings[port] != []
    ensures Lists(rings, data[rings[port][0] := v])
         == Lists(rings, data)[port := [v] + Lists(rings, data)[port][1..]]
  {
    var head, data' := rings[port][0], data[rings[port][0] := v];
    forall q | q in rings && q != port
      ensures Members(rings[q], data') == Members(rings[q], data)
    {
      assert head in rings[port];
      assert forall i | 0 <= i < |rings[q]| :: rings[q][i] in rings[q];
    }
    assert Members(rings[port], data') == [v] + Members(rings[port], data)[1..];
  }

  lemma ListsWithHead(rings: Slots, data: Holds, port: nat, n: nat, v: D.Listener)
    requires Sound(rings, data) && port in rings && n !in data
    ensures Lists(rings[port := [n] + rings[port]], data[n := v])
         == Lists(rings, data)[port := [v] + Lists(rings, data)[port]]
  {
    var data' := data[n := v];
    forall q | q in rings
      ensures Members(rings[q], data') == Members(rings[q], data)
    {
      assert forall i | 0 <= i < |rings[q]| :: rings[q][i] in rings[q];
    }
    assert Members([n] + rings[port], data') == [v] + Members(rings[port], data);
  }

  // ---------------------------------------------------------------- a round along one list

  /** The round after its first element is deleted: when that was the last to visit, a new one. */
  ghost predicate RoundAfter(it: Iter, port: nat, t: seq<nat>, k: nat) {
    1 <= k <= |t| &&
    if |t| == 1 then !it.valid else Round(it, port, t[1..], if k == 1 then |t| - 1 else k - 1)
  }

  ghost predicate FlagsMatch(keys: map<nat, Node>, rings: Slots) {
    forall p | p in rings :: p in keys && (keys[p].listening <==> rings[p] != [])
  }

  const PORTS: nat := 65536

  ghost predicate AllPorts(rings: Slots) {
    forall p: nat :: p in rings <==> p < PORTS
  }

  /** Nothing but the listening flags changed. */
  ghost predicate SameReuse(keys: map<nat, Node>, keys': map<nat, Node>) {
    keys'.Keys == keys.Keys && forall p | p in keys :: keys'[p].reuse == keys[p].reuse
  }

  class Table {
    const ports: List<Node, D.Listener>

    /** Every port has a list, and is listening just when there are listeners on it. */
    ghost predicate Valid()
      reads ports, ports.index, ports.pool
    {
      ports.Valid() && AllPorts(ports.rings) && FlagsMatch(ports.KeyData(), ports.rings)
    }

    /** The listeners of every port, in the order of the next connect. */
    ghost function Queues(): map<nat, seq<D.Listener>>
      reads ports, ports.pool
    {
      Lists(ports.rings, ports.Data())
    }

    /** sock_monitor_init */
    constructor ()
      ensures Valid() && fresh(ports) && fresh(ports.index) && fresh(ports.pool)
      ensures forall p: nat | p < PORTS :: p in Queues() && Queues()[p] == []
      ensures forall p: nat | p < PORTS :: p in ports.KeyData() && ports.KeyData()[p] == Node(false, false)
    {
      ports := new List(PORTS, 1000, Node(false, false), D.Listener(0, false));
      new;
      ports.Init(PORTS, Node(false, false));
    }

    lemma Sane(port: nat)
      requires ports.Valid() && port in ports.rings
      ensures Sound(ports.rings, ports.Data()) && Distinct(ports.rings[port])
      ensures port in Queues() && |Queues()[port]| == |ports.rings[port]|
    {
      SoundOf(ports.View());
    }

    lemma Listed(port: nat)
      requires Valid() && port < PORTS
      ensures port in ports.rings && port in Queues()
      ensures |Queues()[port]| == |ports.rings[port]| && Distinct(ports.rings[port])
    {
      Sane(port);
    }

    lemma Flagged(port: nat)
      requires Valid() && port in ports.rings
      ensures port in ports.KeyData() && (ports.KeyData()[port].listening <==> Queues()[port] != [])
    {
      Sane(port);
    }

    /** iter.next() on a round. */
    method Forward(it: Iter, port: nat, ghost k: nat) returns (it': Iter)
      requires ports.Valid() && GoodFor(it, ports.View()) && port in ports.rings
      requires Round(it, port, ports.rings[port], k)
      modifies ports, ports.index
      ensures ports.Valid() && GoodFor(it', ports.View())
      ensures ports.KeyData() == old(ports.KeyData())
      ensures ports.rings == old(ports.rings)[port := Rot(old(ports.rings)[port], 1)]
      ensures Queues() == old(Queues())[port := Rot(old(Queues())[port], 1)]
      ensures if k == 1 then !it'.valid else Round(it', port, ports.rings[port], k - 1)
    {
      hide List.Valid, List.KeyData, List.View, List.Data, GoodFor, Members, Lists, Rot, Distinct;
      ListsTurned(ports.rings, ports.Data(), port, 1);
      RoundSteps(ports.rings[port], k);
      it' := ports.Next(it);
    }

    /** The walk of accept, connect and close: along the list up to the first listener with the
        property sought. When there is none the walk has gone full circle. */
    method Find(port: nat, p: D.Listener -> bool) returns (it: Iter, ghost j: nat)
      requires ports.Valid() && port in ports.rings
      modifies ports, ports.index
      ensures ports.Valid() && GoodFor(it, ports.View())
      ensures ports.KeyData() == old(ports.KeyData()) && port in ports.rings
      ensures ports.rings == old(ports.rings)[port := ports.rings[port]]
      ensures ports.rings[port] != [] <==> old(ports.rings)[port] != []
      ensures j == D.First(old(Queues())[port], p)
      ensures j < |old(Queues())[port]| ==>
        && Round(it, port, ports.rings[port], |old(Queues())[port]| - j)
        && Queues() == old(Queues())[port := Rot(old(Queues())[port], j)]
      ensures j == |old(Queues())[port]| ==> !it.valid && Queues() == old(Queues())
    {
      hide List.Valid, List.KeyData, List.View, List.Data, GoodFor, Queues, D.First, Rot;
      Sane(port);
      ghost var ls := old(Queues())[port];
      TurnedNone(ls);
      it := ports.Begin(port);
      j := 0;
      while it.valid
        invariant ports.Valid() && GoodFor(it, ports.View())
        invariant ports.KeyData() == old(ports.KeyData()) && port in ports.rings
        invariant ports.rings == old(ports.rings)[port := ports.rings[port]]
        invariant |ports.rings[port]| == |ls|
        invariant j <= |ls| && Queues() == old(Queues())[port := Rot(ls, j)]
        invariant if it.valid then j < |ls| && Round(it, port, ports.rings[port], |ls| - j) else j == |ls|
        invariant forall i | 0 <= i < j :: !p(ls[i])
        decreases |ls| - j
      {
        var l := Look(it, port);
        TurnedOnce(ls, j);
        if p(l) {
          FirstIs(ls, p, j);
          return;
        }
        it := Forward(it, port, |ls| - j);
        j := j + 1;
      }
      FirstIs(ls, p, j);
    }

    /** *iter */
    method Look(it: Iter, port: nat) returns (l: D.Listener)
      requires ports.Valid() && GoodFor(it, ports.View()) && it.valid && port in ports.rings
      requires ports.rings[port] != [] && it.curr == ports.rings[port][0]
      ensures port in Queues() && Queues()[port] != [] && l == Queues()[port][0]
    {
      hide List.Valid, List.KeyData, List.View, List.Data, GoodFor;
      l := ports.Deref(it);
    }

    /** del_element at the head of a round. */
    method Unhook(it: Iter, port: nat, ghost k: nat) returns (it': Iter)
      requires ports.Valid() && GoodFor(it, ports.View()) && port in ports.rings
      requires Round(it, port, ports.rings[port], k)
      modifies ports, ports.index, ports.pool
      ensures ports.Valid() && GoodFor(it', ports.View()) && ports.KeyData() == old(ports.KeyData())
      ensures ports.rings == old(ports.rings)[port := old(ports.rings)[port][1..]]
      ensures Queues() == old(Queues())[port := old(Queues())[port][1..]]
      ensures RoundAfter(it', port, old(ports.rings)[port], k)
    {
      hide List.Valid, List.KeyData, List.View, List.Data, GoodFor, Members, Lists, Rot, Distinct, Without;
      Sane(port);
      ListsHeadless(ports.rings, ports.Data(), port);
      RoundSteps(ports.rings[port], k);
      HeadGone(ports.rings[port], k);
      it' := ports.DelElement(it);
    }

    /** del_element at the head of a round, and the listening flag with it. */
    method Remove(it: Iter, port: nat, ghost k: nat) returns (it': Iter)
      requires Valid() && GoodFor(it, ports.View()) && port in ports.rings
      requires Round(it, port, ports.rings[port], k)
      modifies ports, ports.index, ports.pool
      ensures Valid() && GoodFor(it', ports.View())
      ensures ports.rings == old(ports.rings)[port := old(ports.rings)[port][1..]]
      ensures Queues() == old(Queues())[port := old(Queues())[port][1..]]
      ensures RoundAfter(it', port, old(ports.rings)[port], k)
      ensures SameReuse(old(ports.KeyData()), ports.KeyData())
    {
      hide List.Valid, List.KeyData, List.View, List.Data, GoodFor, Queues, Rot, Distinct, FlagsMatch;
      FlagsAfter(ports.KeyData(), ports.rings, port, ports.rings[port][1..]);
      it' := Unhook(it, port, k);
      var first := ports.Begin(port);
      if !first.valid {
        var node := ports.GetKey(port);
        ports.SetKey(port, node.(listening := false));
      }
    }

    /** listen_handler: a new listener goes to the head of its port's list; a port taken without
        address reuse is refused. */
    method Listen(port: nat, reuse: bool, qid: int) returns (ok: bool)
      requires Valid() && port < PORTS
      modifies ports, ports.index, ports.pool
      ensures Valid() && port in old(Queues()) && port in old(ports.KeyData())
      ensures ok <==> old(Queues())[port] == [] || old(ports.KeyData())[port].reuse
      ensures Queues() == if ok then old(Queues())[port := [D.Listener(qid, false)] + old(Queues())[port]]
                          else old(Queues())
      ensures ports.KeyData() == (if old(Queues())[port] == [] then old(ports.KeyData())[port := Node(true, reuse)]
                                  else old(ports.KeyData()))
    {
      hide List.Valid, List.KeyData, List.View, List.Data, GoodFor, Members, Lists, Distinct;
      Sane(port);
      var node := ports.GetKey(port);
      if node.listening && !node.reuse {
        return false;
      }
      if !node.listening {
        ports.SetKey(port, Node(true, reuse));
      }
      ghost var rings, data := ports.rings, ports.Data();
      var it := ports.AddElement(port, D.Listener(qid, false));
      ListsWithHead(rings, data, port, it.curr, D.Listener(qid, false));
      return true;
    }

    /** accept_handler: the listener is marked, and reading starts at it. */
    method Accept(port: nat, qid: int)
      requires Valid() && port < PORTS
      modifies ports, ports.index, ports.pool
      ensures Valid() && port in old(Queues())
      ensures Queues() == old(Queues())[port := D.AfterAccept(old(Queues())[port], qid)]
      ensures var ls := old(Queues())[port];
        && ((forall i | 0 <= i < |ls| :: ls[i].qid != qid) ==> Queues() == old(Queues()))
        && forall j: nat | D.FirstOf(ls, qid, j) ::
             Queues() == old(Queues())[port := [D.Listener(qid, true)] + ls[j + 1..] + ls[..j]]
      ensures ports.KeyData() == old(ports.KeyData())
    {
      hide List.Valid, List.KeyData, List.View, List.Data, GoodFor, Members, Lists, Distinct, D.First, Rot;
      Sane(port);
      var node := ports.GetKey(port);
      ghost var ls := Queues()[port];
      NoneThere(ls, D.HasQid(qid));
      if !node.listening {
        return;
      }
      var it, j := Find(port, D.HasQid(qid));
      if it.valid {
        Sane(port);
        var l := Look(it, port);
        TurnedOnce(ls, j);
        ListsHeadSet(ports.rings, ports.Data(), port, l.(accepting := true));
        ports.Assign(it, l.(accepting := true));
        MarkedTurned(ls, j, l.(accepting := true));
      }
    }

    /** connect_handler: the next accepting listener in turn gets the connection. */
    method Connect(port: nat) returns (r: Option<int>)
      requires Valid() && port < PORTS
      modifies ports, ports.index
      ensures Valid() && port in old(Queues())
      ensures Queues() == old(Queues())[port := D.AfterConnect(old(Queues())[port])]
      ensures ports.KeyData() == old(ports.KeyData())
      ensures var ls := old(Queues())[port]; var j := D.ConnectTo(ls);
        r == if j < |ls| then Some(ls[j].qid) else None
      ensures var ls := old(Queues())[port];
        && (r.None? <==> forall i | 0 <= i < |ls| :: !ls[i].accepting)
        && (r.None? ==> Queues() == old(Queues()))
        && forall j: nat | D.FirstAccepting(ls, j) ::
             r == Some(ls[j].qid) && Queues() == old(Queues())[port := ls[j + 1..] + ls[..j + 1]]
    {
      hide List.Valid, List.KeyData, List.View, List.Data, GoodFor, Queues, Distinct, FlagsMatch, Rot,
        D.First, D.ConnectTo, D.AfterConnect, D.FirstAccepting;
      Sane(port);
      Flagged(port);
      var node := ports.GetKey(port);
      ghost var ls := Queues()[port];
      NoneThere(ls, D.IsAccepting());
      ConnectIs(ls);
      if !node.listening {
        return None;
      }
      var it, j := Find(port, D.IsAccepting());
      FlagsKept(ports.KeyData(), old(ports.rings), port, ports.rings[port]);
      if !it.valid {
        return None;
      }
      TurnedOnce(ls, j);
      var l := PassOn(it, port, |ls| - j);
      assert ports.rings == old(ports.rings)[port := ports.rings[port]];
      FlagsKept(ports.KeyData(), old(ports.rings), port, ports.rings[port]);
      return Some(l.qid);
    }

    /** What connect does with the listener it has found: it takes its data, and the list is read from
        behind it on. */
    method PassOn(it: Iter, port: nat, ghost k: nat) returns (l: D.Listener)
      requires ports.Valid() && GoodFor(it, ports.View()) && port in ports.rings
      requires Round(it, port, ports.rings[port], k) && it.valid
      modifies ports, ports.index
      ensures ports.Valid() && ports.KeyData() == old(ports.KeyData()) && port in ports.rings
      ensures port in old(Queues()) && old(Queues())[port] != [] && l == old(Queues())[port][0]
      ensures ports.rings == old(ports.rings)[port := ports.rings[port]] && ports.rings[port] != []
      ensures Queues() == old(Queues())[port := Rot(old(Queues())[port], 1)]
    {
      hide List.Valid, List.KeyData, List.View, List.Data, GoodFor, Queues, Distinct;
      Sane(port);
      l := Look(it, port);
      StartAt(it, port);
      var next := Forward(it, port, k);
      if next.valid {
        StartAt(next, port);
      }
    }

    /** set_ptr_to on the element the list is read from changes nothing. */
    method StartAt(it: Iter, port: nat)
      requires ports.Valid() && GoodFor(it, ports.View()) && port in ports.rings && it.valid && it.key == port
      requires ports.rings[port] != [] && it.curr == ports.rings[port][0]
      modifies ports, ports.index
      ensures ports.Valid() && GoodFor(it, ports.View()) && ports.KeyData() == old(ports.KeyData())
      ensures ports.rings == old(ports.rings) && Queues() == old(Queues())
    {
      hide List.Valid, List.KeyData, List.View, List.Data, GoodFor, Members, Lists, Distinct, Rot;
      Sane(port);
      RoundSteps(ports.rings[port], 1);
      ports.SetPtrTo(port, it);
    }

    /** close_handler */
    method Close(port: nat, qid: int)
      requires Valid() && port < PORTS
      modifies ports, ports.index, ports.pool
      ensures Valid() && port in old(Queues())
      ensures Queues() == old(Queues())[port := D.AfterClose(old(Queues())[port], qid)]
      ensures var ls := old(Queues())[port];
        && ((forall i | 0 <= i < |ls| :: ls[i].qid != qid) ==> Queues() == old(Queues()))
        && forall j: nat | D.FirstOf(ls, qid, j) :: Queues() == old(Queues())[port := ls[j + 1..] + ls[..j]]
      ensures SameReuse(old(ports.KeyData()), ports.KeyData())
    {
      hide List.Valid, List.KeyData, List.View, List.Data, GoodFor, Queues, Distinct, D.First, Rot, FlagsMatch;
      Listed(port);
      Flagged(port);
      var node := ports.GetKey(port);
      ghost var ls := Queues()[port];
      NoneThere(ls, D.HasQid(qid));
      if !node.listening {
        return;
      }
      var it, j := Find(port, D.HasQid(qid));
      FlagsKept(ports.KeyData(), old(ports.rings), port, ports.rings[port]);
      if it.valid {
        TurnedHeadless(ls, j);
        it := Remove(it, port, |ls| - j);
      }
    }

    /** One round of the inner loop of sock_resource_gc. */
    method Sweep(it: Iter, port: nat, ghost k: nat, alive: int -> bool) returns (it': Iter)
      requires Valid() && GoodFor(it, ports.View()) && port in ports.rings && port in Queues()
      requires Round(it, port, ports.rings[port], k) && |Queues()[port]| == |ports.rings[port]|
      modifies ports, ports.index, ports.pool
      ensures Valid() && GoodFor(it', ports.View()) && port in ports.rings
      ensures ports.rings.Keys == old(ports.rings.Keys) && SameReuse(old(ports.KeyData()), ports.KeyData())
      ensures Queues() == old(Queues())[port := AfterSweep(old(Queues())[port], Lives(alive))]
      ensures |ports.rings[port]| == |AfterSweep(old(Queues())[port], Lives(alive))|
      ensures var n := LeftAfter(old(Queues())[port], k, Lives(alive));
        if n == 0 then !it'.valid else Round(it', port, ports.rings[port], n)
    {
      hide List.Valid, List.KeyData, List.View, List.Data, GoodFor, Queues, Distinct, Rot;
      var l := Look(it, port);
      if !alive(l.qid) {
        it' := Remove(it, port, k);
      } else {
        FlagsTurned(ports.KeyData(), ports.rings, port);
        it' := Forward(it, port, k);
      }
    }

    /** sock_resource_gc on one port: the listeners whose process is gone are taken out, the others
        stay in order. A round whose last listener goes is followed by another. */
    method GcPort(port: nat, alive: int -> bool)
      requires Valid() && port < PORTS
      modifies ports, ports.index, ports.pool
      ensures Valid() && port in old(Queues())
      ensures Queues() == old(Queues())[port := D.Filter(old(Queues())[port], Lives(alive))]
      ensures ports.rings.Keys == old(ports.rings.Keys)
      ensures SameReuse(old(ports.KeyData()), ports.KeyData())
    {
      hide List.Valid, List.KeyData, List.View, List.Data, GoodFor, Queues, Distinct, D.Filter, Rot, Swept, FlagsMatch;
      Sane(port);
      Flagged(port);
      var node := ports.GetKey(port);
      ghost var ls, p := Queues()[port], Lives(alive);
      Nobody(p);
      if !node.listening {
        return;
      }
      var it := ports.Begin(port);
      ghost var k: nat := |ls|;
      NobodyKept(ls, p);
      while it.valid
        invariant Valid() && GoodFor(it, ports.View()) && port in ports.rings
        invariant Queues() == old(Queues())[port := ls] && |ls| == |ports.rings[port]|
        invariant ports.rings.Keys == old(ports.rings.Keys) && SameReuse(old(ports.KeyData()), ports.KeyData())
        invariant it.valid ==> Round(it, port, ports.rings[port], k)
        invariant if it.valid then Swept(ls, k, p, old(Queues())[port]) else ls == D.Filter(old(Queues())[port], p)
        decreases |ls|, k, it.valid
      {
        SweepStep(ls, k, p, old(Queues())[port]);
        it := Sweep(it, port, k, alive);
        k, ls := LeftAfter(ls, k, p), AfterSweep(ls, p);
      }
    }

    /** sock_resource_gc */
    method Gc(alive: int -> bool)
      requires Valid()
      modifies ports, ports.index, ports.pool
      ensures Valid() && Queues() == Collected(old(Queues()), PORTS, Lives(alive))
      ensures SameReuse(old(ports.KeyData()), ports.KeyData())
    {
      hide List.Valid, List.KeyData, List.View, List.Data, Members, D.Filter, FlagsMatch;
      for i := 0 to PORTS
        invariant Valid() && Queues() == Collected(old(Queues()), i, Lives(alive))
        invariant ports.rings.Keys == old(ports.rings.Keys) && SameReuse(old(ports.KeyData()), ports.KeyData())
      {
        GcPort(i, alive);
      }
    }
  }

  /** Any number of connects to a port in a row, nothing else happening there: they go round the
      listeners that accept, in order. */
  method ConnectTimes(t: Table, port: nat, n: nat) returns (rs: seq<Option<int>>)
    requires t.Valid() && port < PORTS
    modifies t.ports, t.ports.index
    ensures t.Valid() && port in old(t.Queues()) && |rs| == n
    ensures var acc := D.Accepting(old(t.Queues())[port]);
      forall i: nat | i < n :: rs[i] == if acc == [] then None else Some(acc[Place(i, |acc|)].qid)
  {
    hide List.Valid, List.KeyData, List.View, List.Data, GoodFor, Table.Queues, FlagsMatch, D.Accepting, Rot, Place;
    t.Listed(port);
    ghost var acc := D.Accepting(t.Queues()[port]);
    rs := [];
    for k := 0 to n
      invariant t.Valid() && port in t.Queues() && |rs| == k
      invariant forall i: nat | i < k :: rs[i] == if acc == [] then None else Some(acc[Place(i, |acc|)].qid)
      invariant |D.Accepting(t.Queues()[port])| == |acc|
      invariant acc != [] ==> forall i: nat :: D.Accepting(t.Queues()[port])[Place(i, |acc|)] == acc[Place(k + i, |acc|)]
    {
      ghost var ls := t.Queues()[port];
      var r := t.Connect(port);
      rs := rs + [r];
      if acc == [] {
        D.RefusedConnectChangesNothing(ls);
      } else {
        D.ConnectRotatesAccepting(ls);
        D.RotatedAt(D.Accepting(ls), 0);
        assert D.Accepting(ls)[Place(0, |acc|)] == acc[Place(k + 0, |acc|)];
        forall i: nat
          ensures D.Accepting(t.Queues()[port])[Place(i, |acc|)] == acc[Place(k + 1 + i, |acc|)]
        {
          D.RotatedAt(D.Accepting(ls), i + 1);
          assert D.Accepting(ls)[Place(i + 1, |acc|)] == acc[Place(k + (i + 1), |acc|)];
        }
      }
    }
  }

  function Collected(qs: map<nat, seq<D.Listener>>, n: nat, p: D.Listener -> bool): map<nat, seq<D.Listener>> {
    map i | i in qs :: if i < n then D.Filter(qs[i], p) else qs[i]
  }

  function Lives(alive: int -> bool): (p: D.Listener -> bool)
    ensures forall l :: p(l) <==> alive(l.qid)
  {
    (l: D.Listener) => alive(l.qid)
  }

  /** Halfway through a garbage collection: the first k are to be looked at, those behind them have
      been and stay. */
  ghost predicate Swept(ls: seq<D.Listener>, k: nat, p: D.Listener -> bool, all: seq<D.Listener>) {
    && 1 <= k <= |ls|
    && D.Filter(ls[k..], p) == ls[k..]
    && D.Filter(all, p) == ls[k..] + D.Filter(ls[..k], p)
  }

  /** The list after its first listener was looked at. */
  function AfterSweep(ls: seq<D.Listener>, p: D.Listener -> bool): seq<D.Listener> {
    if ls == [] then [] else if p(ls[0]) then Rot(ls, 1) else ls[1..]
  }

  /** How many are left to look at: a round whose last listener goes starts over. */
  function LeftAfter(ls: seq<D.Listener>, k: nat, p: D.Listener -> bool): nat {
    if ls == [] || k == 0 then 0
    else if p(ls[0]) || k > 1 then k - 1
    else |ls| - 1
  }

  /** Looked at and kept: it joins those that have been seen. */
  lemma SweepKept(ls: seq<D.Listener>, k: nat, p: D.Listener -> bool, all: seq<D.Listener>)
    requires Swept(ls, k, p, all) && p(ls[0])
    ensures D.Filter(Rot(ls, 1)[k - 1..], p) == Rot(ls, 1)[k - 1..]
    ensures D.Filter(all, p) == Rot(ls, 1)[k - 1..] + D.Filter(Rot(ls, 1)[..k - 1], p)
  {
    hide D.Filter;
    var x, todo, seen := ls[0], ls[1..k], ls[k..];
    D.FilterCons(x, todo, p);
    D.FilterConcat(seen, [x], p);
    D.FilterCons(x, [], p);
    Nobody(p);
    assert ls[..k] == [x] + todo && [x] + [] == [x];
    assert Rot(ls, 1)[k - 1..] == seen + [x] && Rot(ls, 1)[..k - 1] == todo;
    Regrouped(seen, [x], D.Filter(todo, p));
  }

  /** Looked at and taken out. */
  lemma SweepGone(ls: seq<D.Listener>, k: nat, p: D.Listener -> bool, all: seq<D.Listener>)
    requires Swept(ls, k, p, all) && !p(ls[0])
    ensures D.Filter(ls[1..][k - 1..], p) == ls[1..][k - 1..]
    ensures D.Filter(all, p) == ls[1..][k - 1..] + D.Filter(ls[1..][..k - 1], p)
  {
    hide D.Filter;
    D.FilterCons(ls[0], ls[1..k], p);
    assert ls[..k] == [ls[0]] + ls[1..k];
    assert ls[1..][..k - 1] == ls[1..k] && ls[1..][k - 1..] == ls[k..];
  }

  lemma SweepStep(ls: seq<D.Listener>, k: nat, p: D.Listener -> bool, all: seq<D.Listener>)
    requires Swept(ls, k, p, all)
    ensures var ls', k' := AfterSweep(ls, p), LeftAfter(ls, k, p);
      if k' == 0 then D.Filter(all, p) == ls' else Swept(ls', k', p, all)
    ensures 1 <= k <= |ls|
  {
    hide D.Filter, Rot;
    Nobody(p);
    var ls' := AfterSweep(ls, p);
    assert ls'[..0] == [] && ls'[0..] == ls' && ls'[..|ls'|] == ls' && ls'[|ls'|..] == [];
    if p(ls[0]) {
      SweepKept(ls, k, p, all);
    } else {
      SweepGone(ls, k, p, all);
    }
  }

  lemma Nobody(p: D.Listener -> bool)
    ensures D.Filter([], p) == []
  {
  }

  lemma NobodyKept(ls: seq<D.Listener>, p: D.Listener -> bool)
    requires ls != []
    ensures Swept(ls, |ls|, p, ls)
  {
    assert ls[..|ls|] == ls;
  }

  lemma TurnedHeadless(ls: seq<D.Listener>, j: nat)
    requires j < |ls|
    ensures Rot(ls, j)[1..] == ls[j + 1..] + ls[..j]
  {
  }

  lemma HeadGone(t: seq<nat>, k: nat)
    requires 1 <= k <= |t| && Distinct(t)
    ensures Without(t, 0) == t[1..] && Distinct(t[1..])
    ensures t[0] != t[if k == |t| then 0 else k] || k == |t|
  {
  }

  lemma FlagsAfter(keys: map<nat, Node>, rings: Slots, port: nat, r: seq<nat>)
    requires FlagsMatch(keys, rings) && port in rings && rings[port] != []
    ensures r != [] ==> FlagsMatch(keys, rings[port := r])
    ensures r == [] ==> FlagsMatch(keys[port := keys[port].(listening := false)], rings[port := r])
  {
  }

  lemma FlagsTurned(keys: map<nat, Node>, rings: Slots, port: nat)
    requires FlagsMatch(keys, rings) && port in rings && rings[port] != []
    ensures FlagsMatch(keys, rings[port := Rot(rings[port], 1)])
  {
  }

  lemma FlagsKept(keys: map<nat, Node>, rings: Slots, port: nat, r: seq<nat>)
    requires FlagsMatch(keys, rings) && port in rings && (rings[port] != [] <==> r != [])
    ensures FlagsMatch(keys, rings[port := r])
  {
  }

  lemma NoneThere(ls: seq<D.Listener>, p: D.Listener -> bool)
    ensures ls == [] ==> D.First(ls, p) == 0
  {
  }

  lemma MarkedTurned(ls: seq<D.Listener>, j: nat, l: D.Listener)
    requires j < |ls|
    ensures [l] + Rot(ls, j)[1..] == Rot(ls[j := l], j)
  {
  }

  lemma TurnedNone(ls: seq<D.Listener>)
    ensures Rot(ls, 0) == ls == Rot(ls, |ls|)
  {
  }

  lemma TurnedOnce(ls: seq<D.Listener>, j: nat)
    requires j < |ls|
    ensures Rot(ls, j)[0] == ls[j] && Rot(Rot(ls, j), 1) == Rot(ls, j + 1)
  {
  }

  lemma ConnectIs(ls: seq<D.Listener>)
    ensures var j := D.First(ls, D.IsAccepting());
      && D.ConnectTo(ls) == j
      && (j == |ls| ==> D.AfterConnect(ls) == ls && forall i | 0 <= i < |ls| :: !ls[i].accepting)
      && (j < |ls| ==> ls[j].accepting && D.AfterConnect(ls) == Rot(ls, j + 1) == ls[j + 1..] + ls[..j + 1])
      && (forall k: nat | D.FirstAccepting(ls, k) :: k == j < |ls|)
  {
    hide D.First;
  }

  lemma FirstIs(ls: seq<D.Listener>, p: D.Listener -> bool, j: nat)
    requires j <= |ls| && (j < |ls| ==> p(ls[j])) && forall i | 0 <= i < j :: !p(ls[i])
    ensures D.First(ls, p) == j
  {
  }
}
