/** How two processes agree on a segment: the canonical name of a pair of endpoints, and the monitor's
    registry, which hands the first caller the part of the creator and everyone after it the same key
    until the pair is removed. Keys are drawn by the caller of the model: fresh and not zero. */
module Handshake {

  // ---------------------------------------------------------------- canonical pairs

  /** std::string's operator<, on bytes. */
  predicate Less(x: string, y: string) {
    y != "" && (x == "" || x[0] < y[0] || (x[0] == y[0] && Less(x[1..], y[1..])))
  }

  lemma {:induction false} LessIsTotal(x: string, y: string)
    ensures !(Less(x, y) && Less(y, x))
    ensures !Less(x, y) && !Less(y, x) ==> x == y
    decreases |x|
  {
    if x != "" && y != "" {
      LessIsTotal(x[1..], y[1..]);
      assert x == [x[0]] + x[1..] && y == [y[0]] + y[1..];
    }
  }

  /** x comes first where the two differ, or is a proper beginning of y. */
  ghost predicate ComesFirst(x: string, y: string, n: nat) {
    n <= |x| && n < |y| && x[..n] == y[..n] && (n == |x| || x[n] < y[n])
  }

  lemma {:induction false} LessIsLexicographic(x: string, y: string)
    ensures Less(x, y) <==> exists n: nat :: ComesFirst(x, y, n)
    decreases |x|
  {
    if y == "" {
    } else if x == "" || x[0] < y[0] {
      assert ComesFirst(x, y, 0);
    } else if x[0] == y[0] {
      LessIsLexicographic(x[1..], y[1..]);
      if n: nat :| ComesFirst(x[1..], y[1..], n) {
        assert x[..n + 1] == [x[0]] + x[1..][..n] && y[..n + 1] == [y[0]] + y[1..][..n];
        assert ComesFirst(x, y, n + 1);
      }
      if n: nat :| ComesFirst(x, y, n) {
        assert n > 0;
        assert x[1..][..n - 1] == x[..n][1..] && y[1..][..n - 1] == y[..n][1..];
        assert ComesFirst(x[1..], y[1..], n - 1);
      }
    } else {
      forall n: nat
        ensures !ComesFirst(x, y, n)
      {
        assert n > 0 && n <= |x| && n <= |y| ==> x[..n][0] == x[0] && y[..n][0] == y[0];
      }
    }
  }

  datatype ConnId = ConnId(a: string, b: string)

  /** ShmHandshakeRegistry::make, and canonical on the client's side. */
  function Make(x: string, y: string): (id: ConnId)
    ensures {id.a, id.b} == {x, y} && !Less(id.b, id.a)
  {
    LessIsTotal(x, y);
    if Less(x, y) then ConnId(x, y) else ConnId(y, x)
  }

  /** Two pairs get the same name exactly when they are the same two endpoints, in whatever order. */
  lemma SameNameSamePair(x: string, y: string, u: string, v: string)
    ensures Make(x, y) == Make(u, v) <==> (x == u && y == v) || (x == v && y == u)
  {
    LessIsTotal(x, y);
    LessIsTotal(u, v);
  }

  /** The client sorts, and the monitor sorts again. */
  lemma SortedTwice(x: string, y: string)
    ensures var id := Make(x, y); Make(id.a, id.b) == id && Make(id.b, id.a) == id
  {
    LessIsTotal(x, y);
  }

  // ---------------------------------------------------------------- the registry on values

  datatype Entry = Entry(key: nat, creator: int, joiner: int)
  datatype Role = Creator | Joiner

  /** What register_endpoint answers. */
  datatype Grant = Grant(key: nat, role: Role, pidA: int, pidB: int)

  type Active = map<ConnId, Entry>

  function Granted(active: Active, id: ConnId, pid: int, key: nat): Grant {
    if id !in active then Grant(key, Creator, pid, 0)
    else Grant(active[id].key, Joiner, active[id].creator, if active[id].joiner == 0 then pid else active[id].joiner)
  }

  function Registered(active: Active, id: ConnId, pid: int, key: nat): Active {
    if id !in active then active[id := Entry(key, pid, 0)]
    else if active[id].joiner == 0 then active[id := active[id].(joiner := pid)]
    else active
  }

  predicate Holds(e: Entry, pid: int)
    ensures Holds(e, pid) <==> pid in {e.creator, e.joiner}
  {
    e.creator == pid || e.joiner == pid
  }

  function Reaped(active: Active, pid: int): Active {
    map id | id in active && !Holds(active[id], pid) :: active[id]
  }

  function HeldBy(active: Active, pid: int): set<ConnId> {
    set id | id in active && Holds(active[id], pid)
  }

  // ---------------------------------------------------------------- the registry as the code has it

  class Registry {
    var active: Active

    constructor ()
      ensures active == map[]
    {
      active := map[];
    }

    method RegisterEndpoint(id: ConnId, pid: int, key: nat) returns (r: Grant)
      modifies this
      ensures r == Granted(old(active), id, pid, key) && active == Registered(old(active), id, pid, key)
    {
      if id !in active {
        active := active[id := Entry(key, pid, 0)];
        return Grant(key, Creator, pid, 0);
      }
      if active[id].joiner == 0 {
        active := active[id := active[id].(joiner := pid)];
      }
      var e := active[id];
      return Grant(e.key, Joiner, e.creator, e.joiner);
    }

    method UnregisterEndpoint(id: ConnId) returns (removed: bool)
      modifies this
      ensures active == old(active) - {id} && removed == (id in old(active))
    {
      removed := id in active;
      active := active - {id};
    }

    /** reap_pid */
    method ReapPid(pid: int) returns (removed: nat)
      modifies this
      ensures active == Reaped(old(active), pid)
      ensures forall id | id in active :: active[id].creator != pid && active[id].joiner != pid
      ensures forall id | id in old(active) && old(active)[id].creator != pid && old(active)[id].joiner != pid ::
        id in active && active[id] == old(active)[id]
      ensures removed == |set id | id in old(active) && (old(active)[id].creator == pid || old(active)[id].joiner == pid)|
    {
      removed := 0;
      var todo := active.Keys;
      while todo != {}
        invariant todo <= active.Keys <= old(active.Keys)
        invariant forall id | id in active :: active[id] == old(active)[id]
        invariant forall id | id in old(active) && id !in todo :: id in active <==> !Holds(old(active)[id], pid)
        invariant removed == |old(active)| - |active|
        decreases |todo|
      {
        var id :| id in todo;
        if Holds(active[id], pid) {
          SizeWithout(active, id);
          active := active - {id};
          removed := removed + 1;
        }
        todo := todo - {id};
      }
      RemovedCount(old(active), active, pid);
    }
  }

  lemma RemovedCount(before: Active, after: Active, pid: int)
    requires after.Keys <= before.Keys
    requires forall id | id in before :: id in after <==> !Holds(before[id], pid)
    ensures |set id | id in before && (before[id].creator == pid || before[id].joiner == pid)| == |before| - |after|
  {
    var gone := set id | id in before && (before[id].creator == pid || before[id].joiner == pid);
    assert gone == before.Keys - after.Keys;
    assert |gone| == |before.Keys| - |after.Keys|;
  }

  lemma SizeWithout(m: Active, id: ConnId)
    requires id in m
    ensures |m - {id}| == |m| - 1
  {
    assert (m - {id}).Keys == m.Keys - {id};
    assert |m.Keys| == |m| && |(m - {id}).Keys| == |m - {id}|;
  }

  // ---------------------------------------------------------------- runs

  datatype Event = Register(id: ConnId, pid: int, key: nat) | Unregister(id: ConnId) | Reap(pid: int)

  /** What happened: who was told what, and which pairs were dropped. */
  datatype Record = Told(id: ConnId, pid: int, grant: Grant) | Dropped(ids: set<ConnId>)

  datatype State = State(active: Active, log: seq<Record>)

  /** Keys are never reused. */
  ghost predicate Unused(log: seq<Record>, key: nat) {
    forall i | 0 <= i < |log| :: log[i].Told? ==> log[i].grant.key != key
  }

  ghost predicate Enabled(s: State, e: Event) {
    e.Register? ==> e.pid > 0 && e.key != 0 && Unused(s.log, e.key)
  }

  ghost function Next(s: State, e: Event): State {
    match e
    case Register(id, pid, key) =>
      State(Registered(s.active, id, pid, key), s.log + [Told(id, pid, Granted(s.active, id, pid, key))])
    case Unregister(id) => State(s.active - {id}, s.log + [Dropped({id})])
    case Reap(pid) =>
      State(Reaped(s.active, pid), s.log + [Dropped(HeldBy(s.active, pid))])
  }

  predicate Drops(r: Record, id: ConnId) {
    r.Dropped? && id in r.ids
  }

  /** The pair was dropped after log entry i and before log entry j. */
  ghost predicate DroppedIn(log: seq<Record>, i: int, j: int, id: ConnId)
    requires -1 <= i && j <= |log|
  {
    exists k | i < k < j :: Drops(log[k], id)
  }

  /** What any two answers have in common. Two answers with the same key are for the same pair: the
      later one makes a joiner, and both name the same creator. Two answers for the same pair carry
      the same key exactly when the pair was not dropped in between. */
  ghost predicate Agree(log: seq<Record>, i: nat, j: nat)
    requires i < j < |log| && log[i].Told? && log[j].Told?
  {
    var g, h := log[i].grant, log[j].grant;
    && (g.key == h.key ==> log[i].id == log[j].id && h.role.Joiner? && g.pidA == h.pidA)
    && (g.key == h.key && g.role.Joiner? ==> g.pidB == h.pidB)
    && (log[i].id == log[j].id ==> (g.key == h.key <==> !DroppedIn(log, i, j, log[i].id)))
  }

  /** Log entry f made a process the creator under this key. */
  ghost predicate Founds(log: seq<Record>, f: nat, id: ConnId, key: nat) {
    f < |log| && log[f].Told? && log[f].id == id && log[f].grant.role.Creator? && log[f].grant.key == key
    && log[f].grant.pidA == log[f].pid
  }

  ghost predicate AllAgree(log: seq<Record>) {
    forall i: nat, j: nat | i < j < |log| && log[i].Told? && log[j].Told? :: Agree(log, i, j)
  }

  ghost predicate AllFounded(log: seq<Record>) {
    forall j: nat | j < |log| && log[j].Told? :: HasFounder(log, j)
  }

  ghost predicate HasFounder(log: seq<Record>, j: nat)
    requires j < |log| && log[j].Told?
  {
    exists f: nat :: f <= j && Founds(log, f, log[j].id, log[j].grant.key)
  }

  /** What the table knows of an answer: it is current exactly when its pair was not dropped since. */
  ghost predicate Tracked(active: Active, log: seq<Record>, i: nat)
    requires i < |log| && log[i].Told?
  {
    var id, g := log[i].id, log[i].grant;
    && (id !in active ==> DroppedIn(log, i, |log|, id))
    && (id in active ==>
          && (g.key == active[id].key <==> !DroppedIn(log, i, |log|, id))
          && (g.key == active[id].key ==> g.pidA == active[id].creator && (g.role.Joiner? ==> g.pidB == active[id].joiner != 0)))
  }

  ghost predicate AllTracked(active: Active, log: seq<Record>) {
    forall i: nat | i < |log| && log[i].Told? :: Tracked(active, log, i)
  }

  ghost predicate ActiveFounded(active: Active, log: seq<Record>) {
    forall id | id in active :: exists f: nat :: Founds(log, f, id, active[id].key)
  }

  ghost predicate Inv(s: State) {
    AllAgree(s.log) && AllFounded(s.log) && AllTracked(s.active, s.log) && ActiveFounded(s.active, s.log)
  }

  lemma DroppedInMore(log: seq<Record>, r: Record, i: int, id: ConnId)
    requires -1 <= i < |log|
    ensures forall j | j <= |log| :: DroppedIn(log + [r], i, j, id) == DroppedIn(log, i, j, id)
    ensures DroppedIn(log + [r], i, |log| + 1, id) <==> DroppedIn(log, i, |log|, id) || Drops(r, id)
  {
    var log' := log + [r];
    assert forall k | 0 <= k < |log| :: log'[k] == log[k];
    assert log'[|log|] == r;
  }

  lemma FoundsMore(log: seq<Record>, r: Record, f: nat, id: ConnId, key: nat)
    requires Founds(log, f, id, key)
    ensures Founds(log + [r], f, id, key)
  {
  }

  lemma AgreeMore(log: seq<Record>, r: Record, i: nat, j: nat)
    requires i < j < |log| && log[i].Told? && log[j].Told?
    ensures Agree(log + [r], i, j) == Agree(log, i, j)
  {
    DroppedInMore(log, r, i, log[i].id);
  }

  lemma AgreeAfterDrop(log: seq<Record>, ids: set<ConnId>)
    requires AllAgree(log)
    ensures AllAgree(log + [Dropped(ids)])
  {
    hide Agree;
    var log' := log + [Dropped(ids)];
    forall i: nat, j: nat | i < j < |log'| && log'[i].Told? && log'[j].Told?
      ensures Agree(log', i, j)
    {
      AgreeMore(log, Dropped(ids), i, j);
    }
  }

  /** Dropping pairs: nothing new is told. */
  lemma DropKeeps(s: State, ids: set<ConnId>, active: Active)
    requires Inv(s)
    requires forall id | id in active :: id in s.active && active[id] == s.active[id] && id !in ids
    requires forall id | id in s.active && id !in ids :: id in active
    ensures Inv(State(active, s.log + [Dropped(ids)]))
  {
    hide Founds, DroppedIn, HasFounder, Agree;
    var log, r := s.log, Dropped(ids);
    var log' := log + [r];
    AgreeAfterDrop(log, ids);
    FoundedAppended(log, r);
    forall i: nat | i < |log'| && log'[i].Told?
      ensures Tracked(active, log', i)
    {
      assert Tracked(s.active, log, i);
      DroppedInMore(log, r, i, log[i].id);
    }
    forall id | id in active
      ensures exists f: nat :: Founds(log', f, id, active[id].key)
    {
      var f: nat :| Founds(log, f, id, active[id].key);
      FoundsMore(log, r, f, id, active[id].key);
    }
  }

  lemma HasFounderMore(log: seq<Record>, r: Record, j: nat)
    requires j < |log| && log[j].Told? && HasFounder(log, j)
    ensures HasFounder(log + [r], j)
  {
    hide Founds;
    var f: nat :| f <= j && Founds(log, f, log[j].id, log[j].grant.key);
    FoundsMore(log, r, f, log[j].id, log[j].grant.key);
    assert (log + [r])[j] == log[j];
  }

  lemma FoundedMore(log: seq<Record>, r: Record)
    requires AllFounded(log)
    ensures forall j: nat | j < |log| && log[j].Told? :: HasFounder(log + [r], j)
  {
    hide HasFounder;
    forall j: nat | j < |log| && log[j].Told?
      ensures HasFounder(log + [r], j)
    {
      HasFounderMore(log, r, j);
    }
  }

  lemma AgreeAppended(log: seq<Record>, r: Record)
    requires AllAgree(log) && r.Told?
    requires forall i: nat | i < |log| && log[i].Told? :: Agree(log + [r], i, |log|)
    ensures AllAgree(log + [r])
  {
    hide Agree;
    var log' := log + [r];
    forall i: nat, j: nat | i < j < |log'| && log'[i].Told? && log'[j].Told?
      ensures Agree(log', i, j)
    {
      if j < |log| {
        AgreeMore(log, r, i, j);
      }
    }
  }

  lemma FoundedAppended(log: seq<Record>, r: Record)
    requires AllFounded(log) && (r.Told? ==> HasFounder(log + [r], |log|))
    ensures AllFounded(log + [r])
  {
    hide HasFounder;
    FoundedMore(log, r);
  }

  /** A first answer for a pair: it founds a new key. */
  lemma FoundKeeps(s: State, id: ConnId, pid: int, key: nat)
    requires Inv(s) && id !in s.active && Unused(s.log, key)
    ensures Inv(Next(s, Register(id, pid, key)))
  {
    hide Founds, DroppedIn;
    var log, r, n := s.log, Told(id, pid, Grant(key, Creator, pid, 0)), |s.log|;
    var log', active := log + [r], s.active[id := Entry(key, pid, 0)];
    assert Founds(log', n, id, key) by { ItFounds(log, r); }
    forall i: nat | i < n && log[i].Told?
      ensures Agree(log', i, n) && Tracked(active, log', i)
    {
      assert Tracked(s.active, log, i);
      DroppedInMore(log, r, i, log[i].id);
    }
    AgreeAppended(log, r);
    assert HasFounder(log', n);
    FoundedAppended(log, r);
    NoneAfter(log', n, id);
    StillFounded(s.active, active, log, r, id);
  }

  lemma ItFounds(log: seq<Record>, r: Record)
    requires r.Told? && r.grant.role.Creator? && r.grant.pidA == r.pid
    ensures Founds(log + [r], |log|, r.id, r.grant.key)
  {
  }

  lemma NoneAfter(log: seq<Record>, n: nat, id: ConnId)
    requires n + 1 == |log|
    ensures !DroppedIn(log, n, n + 1, id)
  {
  }

  lemma StillFounded(before: Active, after: Active, log: seq<Record>, r: Record, id: ConnId)
    requires ActiveFounded(before, log) && id in after
    requires exists f: nat :: Founds(log + [r], f, id, after[id].key)
    requires forall k | k in after && k != id :: k in before && after[k].key == before[k].key
    ensures ActiveFounded(after, log + [r])
  {
    hide Founds;
    forall k | k in after && k != id
      ensures exists f: nat :: Founds(log + [r], f, k, after[k].key)
    {
      var f: nat :| Founds(log, f, k, before[k].key);
      FoundsMore(log, r, f, k, before[k].key);
    }
  }

  /** Answers under the key of a founded pair are answers for that pair. */
  lemma KeyNamesPair(log: seq<Record>, f: nat, id: ConnId, key: nat, i: nat)
    requires AllAgree(log) && Founds(log, f, id, key) && i < |log| && log[i].Told? && log[i].grant.key == key
    ensures log[i].id == id
  {
    hide DroppedIn;
    if i < f {
      assert Agree(log, i, f);
    } else if f < i {
      assert Agree(log, f, i);
    }
  }

  /** A further answer for a pair: it joins. */
  lemma JoinKeeps(s: State, id: ConnId, pid: int, key: nat)
    requires Inv(s) && id in s.active && pid > 0
    ensures Inv(Next(s, Register(id, pid, key)))
  {
    hide Founds, DroppedIn;
    var log, r, n := s.log, Told(id, pid, Granted(s.active, id, pid, key)), |s.log|;
    var log', active := log + [r], Registered(s.active, id, pid, key);
    var f: nat :| Founds(log, f, id, s.active[id].key);
    FoundsMore(log, r, f, id, s.active[id].key);
    forall i: nat | i < n && log[i].Told?
      ensures Agree(log', i, n) && Tracked(active, log', i)
    {
      assert Tracked(s.active, log, i);
      DroppedInMore(log, r, i, log[i].id);
      if log[i].grant.key == s.active[id].key {
        KeyNamesPair(log, f, id, s.active[id].key, i);
      }
    }
    AgreeAppended(log, r);
    assert HasFounder(log', n) by { FounderBefore(log, f, id, s.active[id].key); }
    FoundedAppended(log, r);
    NoneAfter(log', n, id);
    StillFounded(s.active, active, log, r, id);
  }

  lemma FounderBefore(log: seq<Record>, f: nat, id: ConnId, key: nat)
    requires Founds(log, f, id, key)
    ensures f < |log|
  {
  }

  lemma StepKeeps(s: State, e: Event)
    requires Inv(s) && Enabled(s, e)
    ensures Inv(Next(s, e))
  {
    hide Inv;
    match e
    case Register(id, pid, key) =>
      if id in s.active {
        JoinKeeps(s, id, pid, key);
      } else {
        FoundKeeps(s, id, pid, key);
      }
    case Unregister(id) => DropKeeps(s, {id}, s.active - {id});
    case Reap(pid) =>
      DropKeeps(s, HeldBy(s.active, pid), Reaped(s.active, pid));
  }

  ghost predicate Legal(s: State, es: seq<Event>)
    decreases |es|
  {
    es == [] || (Enabled(s, es[0]) && Legal(Next(s, es[0]), es[1..]))
  }

  ghost function After(s: State, es: seq<Event>): State
    requires Legal(s, es)
    decreases |es|
  {
    if es == [] then s else After(Next(s, es[0]), es[1..])
  }

  lemma {:induction false} RunKeeps(s: State, es: seq<Event>)
    requires Inv(s) && Legal(s, es)
    ensures Inv(After(s, es))
    decreases |es|
  {
    hide Inv;
    if es != [] {
      StepKeeps(s, es[0]);
      RunKeeps(Next(s, es[0]), es[1..]);
    }
  }

  // ---------------------------------------------------------------- who is named

  /** Log entry f, an answer to this process, is the first to make a joiner under the key. */
  ghost predicate FirstJoins(log: seq<Record>, f: nat, key: nat, pid: int) {
    && f < |log| && JoinsUnder(log[f], key) && log[f].pid == pid
    && forall k | 0 <= k < f :: !JoinsUnder(log[k], key)
  }

  predicate JoinsUnder(r: Record, key: nat) {
    r.Told? && r.grant.role.Joiner? && r.grant.key == key
  }

  /** A creator is told of itself alone; a joiner, of the process that joined first. */
  ghost predicate NamesRight(log: seq<Record>, i: nat)
    requires i < |log| && log[i].Told?
  {
    var g := log[i].grant;
    if g.role.Creator? then g.pidA == log[i].pid && g.pidB == 0
    else exists f: nat :: f <= i && FirstJoins(log, f, g.key, g.pidB)
  }

  ghost predicate AllNameRight(log: seq<Record>) {
    forall i: nat | i < |log| && log[i].Told? :: NamesRight(log, i)
  }

  /** The table remembers the first joiner of each pair. */
  ghost predicate Remembers(log: seq<Record>, e: Entry) {
    if e.joiner == 0 then forall k | 0 <= k < |log| :: !JoinsUnder(log[k], e.key)
    else exists f: nat :: FirstJoins(log, f, e.key, e.joiner)
  }

  ghost predicate Named(s: State) {
    AllNameRight(s.log) && forall id | id in s.active :: Remembers(s.log, s.active[id])
  }

  lemma FirstJoinsMore(log: seq<Record>, r: Record, f: nat, key: nat, pid: int)
    ensures FirstJoins(log, f, key, pid) ==> FirstJoins(log + [r], f, key, pid)
  {
    assert f < |log| ==> forall k | 0 <= k <= f :: (log + [r])[k] == log[k];
  }

  lemma NamesRightMore(log: seq<Record>, r: Record)
    requires AllNameRight(log)
    ensures forall i: nat | i < |log| && log[i].Told? :: NamesRight(log + [r], i)
  {
    hide FirstJoins;
    forall i: nat | i < |log| && log[i].Told?
      ensures NamesRight(log + [r], i)
    {
      assert NamesRight(log, i) && (log + [r])[i] == log[i];
      var g := log[i].grant;
      if g.role.Joiner? {
        var f: nat :| f <= i && FirstJoins(log, f, g.key, g.pidB);
        FirstJoinsMore(log, r, f, g.key, g.pidB);
      }
    }
  }

  lemma RemembersMore(log: seq<Record>, r: Record, e: Entry)
    requires Remembers(log, e) && (JoinsUnder(r, e.key) ==> e.joiner != 0)
    ensures Remembers(log + [r], e)
  {
    hide FirstJoins;
    if e.joiner != 0 {
      var f: nat :| FirstJoins(log, f, e.key, e.joiner);
      FirstJoinsMore(log, r, f, e.key, e.joiner);
    }
  }

  lemma DropKeepsNamed(s: State, ids: set<ConnId>, active: Active)
    requires Named(s) && forall id | id in active :: id in s.active && active[id] == s.active[id]
    ensures Named(State(active, s.log + [Dropped(ids)]))
  {
    hide FirstJoins, Remembers, NamesRight;
    NamesRightMore(s.log, Dropped(ids));
    forall id | id in active
      ensures Remembers(s.log + [Dropped(ids)], active[id])
    {
      RemembersMore(s.log, Dropped(ids), s.active[id]);
    }
  }

  lemma FoundKeepsNamed(s: State, id: ConnId, pid: int, key: nat)
    requires Named(s) && id !in s.active && Unused(s.log, key)
    ensures Named(Next(s, Register(id, pid, key)))
  {
    hide FirstJoins, Remembers;
    var r := Told(id, pid, Grant(key, Creator, pid, 0));
    NamesRightMore(s.log, r);
    assert (s.log + [r])[|s.log|] == r;
    forall k | k in s.active
      ensures Remembers(s.log + [r], s.active[k])
    {
      RemembersMore(s.log, r, s.active[k]);
    }
    assert Remembers(s.log + [r], Entry(key, pid, 0)) by { NobodyJoined(s.log, r, Entry(key, pid, 0)); }
  }

  lemma NobodyJoined(log: seq<Record>, r: Record, e: Entry)
    requires Unused(log, e.key) && !JoinsUnder(r, e.key) && e.joiner == 0
    ensures Remembers(log + [r], e)
  {
  }

  /** Two pairs of the table never share a key. */
  lemma KeysDiffer(s: State, id: ConnId, id': ConnId)
    requires Inv(s) && id in s.active && id' in s.active && s.active[id].key == s.active[id'].key
    ensures id == id'
  {
    hide DroppedIn, HasFounder, Tracked;
    var f: nat :| Founds(s.log, f, id, s.active[id].key);
    var f': nat :| Founds(s.log, f', id', s.active[id'].key);
    KeyNamesPair(s.log, f, id, s.active[id].key, f');
  }

  lemma JoinKeepsNamed(s: State, id: ConnId, pid: int, key: nat)
    requires Inv(s) && Named(s) && id in s.active && pid > 0
    ensures Named(Next(s, Register(id, pid, key)))
  {
    hide FirstJoins, Remembers, Inv, NamesRight;
    var e, r := s.active[id], Told(id, pid, Granted(s.active, id, pid, key));
    var e' := Registered(s.active, id, pid, key)[id];
    NamesRightMore(s.log, r);
    JoinerIsNamed(s.log, e, id, pid);
    forall k | k in s.active && k != id
      ensures Remembers(s.log + [r], s.active[k])
    {
      if s.active[k].key == e.key { KeysDiffer(s, k, id); }
      RemembersMore(s.log, r, s.active[k]);
    }
    assert (s.log + [r])[|s.log|] == r;
  }

  lemma JoinerIsNamed(log: seq<Record>, e: Entry, id: ConnId, pid: int)
    requires Remembers(log, e) && pid > 0
    ensures var p := if e.joiner == 0 then pid else e.joiner;
      var log' := log + [Told(id, pid, Grant(e.key, Joiner, e.creator, p))];
      NamesRight(log', |log|) && Remembers(log', e.(joiner := p))
  {
    var p := if e.joiner == 0 then pid else e.joiner;
    var r := Told(id, pid, Grant(e.key, Joiner, e.creator, p));
    var log' := log + [r];
    if e.joiner == 0 {
      assert FirstJoins(log', |log|, e.key, pid) by {
        assert forall k | 0 <= k < |log| :: log'[k] == log[k];
      }
    } else {
      var f: nat :| FirstJoins(log, f, e.key, e.joiner);
      FirstJoinsMore(log, r, f, e.key, e.joiner);
    }
  }

  lemma StepKeepsNamed(s: State, e: Event)
    requires Inv(s) && Named(s) && Enabled(s, e)
    ensures Named(Next(s, e))
  {
    hide Inv, Named;
    match e
    case Register(id, pid, key) =>
      if id in s.active {
        JoinKeepsNamed(s, id, pid, key);
      } else {
        FoundKeepsNamed(s, id, pid, key);
      }
    case Unregister(id) => DropKeepsNamed(s, {id}, s.active - {id});
    case Reap(pid) => DropKeepsNamed(s, HeldBy(s.active, pid), Reaped(s.active, pid));
  }

  lemma {:induction false} RunKeepsNamed(s: State, es: seq<Event>)
    requires Inv(s) && Named(s) && Legal(s, es)
    ensures Inv(After(s, es)) && Named(After(s, es))
    decreases |es|
  {
    hide Inv, Named, Next, Enabled;
    if es != [] {
      StepKeeps(s, es[0]);
      StepKeepsNamed(s, es[0]);
      RunKeepsNamed(Next(s, es[0]), es[1..]);
    }
  }

  lemma NothingYet()
    ensures Inv(State(map[], [])) && Named(State(map[], []))
  {
  }

  /** Over every run of registrations, removals and reaped processes: any two answers agree in the
      sense of Agree, behind every answer stands exactly one that made its process the creator, and
      every joiner is told of the process that joined first. */
  lemma OneCreatorOneKey(es: seq<Event>)
    requires Legal(State(map[], []), es)
    ensures var log := After(State(map[], []), es).log;
      && (forall i: nat, j: nat | i < j < |log| && log[i].Told? && log[j].Told? :: Agree(log, i, j))
      && (forall j: nat | j < |log| && log[j].Told? :: HasFounder(log, j))
      && (forall j: nat | j < |log| && log[j].Told? :: NamesRight(log, j))
  {
    hide Legal, After;
    NothingYet();
    RunKeepsNamed(State(map[], []), es);
  }

  // ---------------------------------------------------------------- after a process is reaped

  /** An answer that named this process. */
  predicate Names(g: Grant, pid: int) {
    g.pidA == pid || g.pidB == pid
  }

  lemma {:induction false} AbsentStays(s: State, es: seq<Event>, id: ConnId)
    requires Legal(s, es) && id !in s.active
    requires forall e | e in es :: e.Register? ==> e.id != id
    ensures id !in After(s, es).active
    decreases |es|
  {
    if es != [] {
      assert es[0] in es;
      AbsentStays(Next(s, es[0]), es[1..], id);
    }
  }

  /** Once a process is reaped, no pair that it had a part in is left: whoever asks next for a pair that
      a current answer gave it, is made the creator, under the key drawn for that call. */
  lemma ReapedStartOver(es: seq<Event>, i: nat, pid: int, more: seq<Event>, next: Event)
    requires pid > 0 && Legal(State(map[], []), es)
    requires var s := After(State(map[], []), es);
      && i < |s.log| && s.log[i].Told? && Names(s.log[i].grant, pid) && !DroppedIn(s.log, i, |s.log|, s.log[i].id)
      && Legal(Next(s, Reap(pid)), more) && (forall e | e in more :: e.Register? ==> e.id != s.log[i].id)
      && next.Register? && next.id == s.log[i].id
    ensures var s := After(State(map[], []), es); var t := After(Next(s, Reap(pid)), more);
      && next.id !in Next(s, Reap(pid)).active
      && Granted(t.active, next.id, next.pid, next.key) == Grant(next.key, Creator, next.pid, 0)
  {
    hide Legal, After, DroppedIn, Agree, HasFounder, FirstJoins, Remembers;
    NothingYet();
    RunKeepsNamed(State(map[], []), es);
    var s := After(State(map[], []), es);
    assert Tracked(s.active, s.log, i) && NamesRight(s.log, i);
    AbsentStays(Next(s, Reap(pid)), more, next.id);
  }
}
