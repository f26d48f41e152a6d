/** Two processes attach to one segment: the creator makes, maps and initialises it, the joiner opens,
    maps and checks it, and both leave again, whoever is last removing the name. Every system call
    and every access to the shared header is one step, in any interleaving; either side may give up
    at a timeout. Pids are positive. */
module Attach {
  const RING_BYTES: nat := 0x10_0000

  // ---------------------------------------------------------------- the segment and its two users

  /** sd_shm_header, the two rings as far as initialisation goes, and the state of the file. */
  datatype Segment = Segment(
    linked: bool, sized: bool, magic: bool, abi: nat, ringSize: nat,
    creatorPid: int, joinerPid: int, refcount: int, c2j: bool, j2c: bool)

  /** CInit(n): n of the seven stores that precede the magic are done. */
  datatype CPc = CStart | CCreated | CInit(n: nat) | CReady | CAttached | CGaveUp | CSubbed(last: bool) | COut

  /** JFaulted: the joiner stopped waiting for the file to be sized, mapped it and touched it. */
  datatype JPc =
    | JStart | JOpened | JMapped | JSaw | JPidSet | JCounted | JAttached | JFailed | JFaulted
    | JSubbed(last: bool) | JOut

  datatype State = State(seg: Segment, c: CPc, j: JPc, cpid: int, jpid: int)

  datatype Event =
    | Create | Truncate | Store | Publish | LookForJoiner | GiveUp | CreatorSub | CreatorLeave
    | Open | NotThere | Map | SeeMagic | NoMagic | TouchUnsized | StorePid | Count | LookForCreator
    | JoinerSub | JoinerLeave

  ghost predicate Init(s: State) {
    && s.seg == Segment(false, false, false, 0, 0, 0, 0, 0, false, false)
    && s.c == CStart && s.j == JStart && s.cpid > 0 && s.jpid > 0
  }

  ghost predicate Enabled(s: State, e: Event) {
    match e
    case Create => s.c.CStart?
    case Truncate => s.c.CCreated?
    case Store => s.c.CInit? && s.c.n < 7
    case Publish => s.c == CInit(7)
    case LookForJoiner => s.c.CReady? && s.seg.joinerPid != 0
    case GiveUp => s.c.CReady? && s.seg.joinerPid == 0
    case CreatorSub => s.c.CAttached? || s.c.CGaveUp?
    case CreatorLeave => s.c.CSubbed?
    case Open => s.j.JStart? && s.seg.linked
    case NotThere => s.j.JStart? && !s.seg.linked
    case Map => s.j.JOpened?
    case SeeMagic => s.j.JMapped? && s.seg.sized && s.seg.magic && s.seg.abi == 1
    case NoMagic => s.j.JMapped? && s.seg.sized && !(s.seg.magic && s.seg.abi == 1)
    case TouchUnsized => s.j.JMapped? && !s.seg.sized
    case StorePid => s.j.JSaw?
    case Count => s.j.JPidSet?
    case LookForCreator => s.j.JCounted? && s.seg.creatorPid != 0
    case JoinerSub => s.j.JAttached?
    case JoinerLeave => s.j.JSubbed?
  }

  /** The n-th store of the initialisation. */
  function Stored(seg: Segment, n: nat, cpid: int): Segment {
    if n == 0 then seg.(magic := false, abi := 0, ringSize := 0, creatorPid := 0, joinerPid := 0, refcount := 0)
    else if n == 1 then seg.(abi := 1)
    else if n == 2 then seg.(ringSize := RING_BYTES)
    else if n == 3 then seg.(creatorPid := cpid)
    else if n == 4 then seg.(refcount := 1)
    else if n == 5 then seg.(c2j := true)
    else seg.(j2c := true)
  }

  ghost function Next(s: State, e: Event): State
    requires Enabled(s, e)
  {
    match e
    case Create => s.(seg := s.seg.(linked := true), c := CCreated)
    case Truncate => s.(seg := s.seg.(sized := true), c := CInit(0))
    case Store => s.(seg := Stored(s.seg, s.c.n, s.cpid), c := CInit(s.c.n + 1))
    case Publish => s.(seg := s.seg.(magic := true), c := CReady)
    case LookForJoiner => s.(c := CAttached)
    case GiveUp => s.(c := CGaveUp)
    case CreatorSub => s.(seg := s.seg.(refcount := s.seg.refcount - 1), c := CSubbed(s.seg.refcount == 1))
    case CreatorLeave => s.(seg := if s.c.last then s.seg.(linked := false) else s.seg, c := COut)
    case Open => s.(j := JOpened)
    case NotThere => s.(j := JFailed)
    case Map => s.(j := JMapped)
    case SeeMagic => s.(j := JSaw)
    case NoMagic => s.(j := JFailed)
    case TouchUnsized => s.(j := JFaulted)
    case StorePid => s.(seg := s.seg.(joinerPid := s.jpid), j := JPidSet)
    case Count => s.(seg := s.seg.(refcount := s.seg.refcount + 1), j := JCounted)
    case LookForCreator => s.(j := JAttached)
    case JoinerSub => s.(seg := s.seg.(refcount := s.seg.refcount - 1), j := JSubbed(s.seg.refcount == 1))
    case JoinerLeave => s.(seg := if s.j.last then s.seg.(linked := false) else s.seg, j := JOut)
  }

  // ---------------------------------------------------------------- invariant

  /** The creator has finished initialising. */
  predicate Published(c: CPc) {
    !c.CStart? && !c.CCreated? && !c.CInit?
  }

  /** The joiner has been let in. */
  predicate Joined(j: JPc) {
    !j.JStart? && !j.JOpened? && !j.JMapped? && !j.JFailed? && !j.JFaulted?
  }

  /** The joiner's pid is in the header. */
  predicate Announced(j: JPc) {
    Joined(j) && !j.JSaw?
  }

  /** What the magic stands for. */
  predicate Initialised(seg: Segment, cpid: int) {
    seg.sized && seg.abi == 1 && seg.ringSize == RING_BYTES && seg.creatorPid == cpid && seg.c2j && seg.j2c
  }

  /** How far the initialisation has got. */
  predicate InitSoFar(seg: Segment, n: nat, cpid: int) {
    && n <= 7 && seg.sized
    && (n > 1 ==> seg.abi == 1) && (n > 2 ==> seg.ringSize == RING_BYTES) && (n > 3 ==> seg.creatorPid == cpid)
    && (n > 5 ==> seg.c2j) && (n > 6 ==> seg.j2c)
  }

  function CreatorCounts(c: CPc): int {
    if c.CReady? || c.CAttached? || c.CGaveUp? || (c.CInit? && c.n > 4) then 1 else 0
  }

  function JoinerCounts(j: JPc): int {
    if j.JCounted? || j.JAttached? then 1 else 0
  }

  ghost predicate Inv(s: State) {
    var seg := s.seg;
    && s.cpid > 0 && s.jpid > 0
    && (seg.magic <==> Published(s.c))
    && (Published(s.c) ==> Initialised(seg, s.cpid))
    && (s.c.CInit? ==> InitSoFar(seg, s.c.n, s.cpid))
    && (Joined(s.j) ==> Published(s.c))
    && seg.joinerPid == (if Announced(s.j) then s.jpid else 0)
    && seg.refcount == CreatorCounts(s.c) + JoinerCounts(s.j)
    && (s.c.CAttached? ==> Announced(s.j))
    && (seg.linked ==> !s.c.CStart?)
    && (seg.linked && Published(s.c) && seg.refcount == 0 ==> s.c == CSubbed(true) || s.j == JSubbed(true))
    && (s.c.CInit? || s.c.CCreated? ==> seg.linked)
  }

  lemma StepKeeps(s: State, e: Event)
    requires Inv(s) && Enabled(s, e)
    ensures Inv(Next(s, e))
  {
  }

  // ---------------------------------------------------------------- runs

  ghost predicate Legal(s: State, es: seq<Event>)
    decreases |es|
  {
    es == [] || (Enabled(s, es[0]) && Legal(Next(s, es[0]), es[1..]))
  }

  ghost function After(s: State, es: seq<Event>): State
    requires Legal(s, es)
    decreases |es|
  {
    if es == [] then s else After(Next(s, es[0]), es[1..])
  }

  lemma {:induction false} RunKeeps(s: State, es: seq<Event>)
    requires Inv(s) && Legal(s, es)
    ensures Inv(After(s, es))
    decreases |es|
  {
    hide Inv, Enabled, Next;
    if es != [] {
      StepKeeps(s, es[0]);
      RunKeeps(Next(s, es[0]), es[1..]);
    }
  }

  lemma {:induction false} RunExtends(s: State, a: seq<Event>, b: seq<Event>)
    requires Legal(s, a + b)
    ensures Legal(s, a) && Legal(After(s, a), b) && After(After(s, a), b) == After(s, a + b)
    decreases |a|
  {
    hide Enabled, Next;
    if a == [] {
      assert a + b == b;
    } else {
      assert (a + b)[0] == a[0] && (a + b)[1..] == a[1..] + b;
      RunExtends(Next(s, a[0]), a[1..], b);
    }
  }

  /** A joiner that got past the check sees a segment of the right size with header and rings in
      place, and they stay so. */
  lemma JoinerSeesAll(s: State, es: seq<Event>)
    requires Init(s) && Legal(s, es) && Joined(After(s, es).j)
    ensures var t := After(s, es); t.seg.magic && Initialised(t.seg, s.cpid)
  {
    RunKeeps(s, es);
    SamePids(s, es);
  }

  lemma {:induction false} SamePids(s: State, es: seq<Event>)
    requires Legal(s, es)
    ensures After(s, es).cpid == s.cpid && After(s, es).jpid == s.jpid
    decreases |es|
  {
    if es != [] {
      SamePids(Next(s, es[0]), es[1..]);
    }
  }

  /** A creator whose wait has succeeded has had a joiner on the same segment, mapped and let in; and a
      joiner never waits for the creator. */
  lemma WaitsMeanWhatTheySay(s: State, es: seq<Event>)
    requires Init(s) && Legal(s, es)
    ensures var t := After(s, es);
      && (t.c.CAttached? ==> Announced(t.j) && t.seg.joinerPid == s.jpid && Map in es && SeeMagic in es)
      && (t.j.JCounted? ==> Enabled(t, LookForCreator))
  {
    RunKeeps(s, es);
    SamePids(s, es);
    WhatJoinerDid(s, es);
  }

  /** The joiner has the segment in its address space: from mmap to the munmap of close, or to that of
      a failed open. */
  predicate IsMapped(j: JPc) {
    !j.JStart? && !j.JOpened? && !j.JFailed? && !j.JFaulted? && !j.JOut?
  }

  /** Where the joiner stands says which of its steps it has taken. */
  ghost predicate StepsTaken(j: JPc, es: seq<Event>) {
    && (Joined(j) || j.JMapped? ==> Map in es)
    && (Joined(j) ==> SeeMagic in es)
    && (j.JOut? <==> JoinerLeave in es)
  }

  lemma {:induction false} WhatJoinerDid(s: State, es: seq<Event>)
    requires Init(s) && Legal(s, es)
    ensures StepsTaken(After(s, es).j, es)
    decreases |es|
  {
    if es != [] {
      var front, last := es[..|es| - 1], es[|es| - 1];
      assert es == front + [last];
      RunExtends(s, front, [last]);
      WhatJoinerDid(s, front);
      LastStep(After(s, front), last);
    }
  }

  lemma LastStep(s: State, e: Event)
    requires Legal(s, [e])
    ensures Enabled(s, e) && After(s, [e]) == Next(s, e)
  {
    assert [e][1..] == [];
  }

  /** When the creator's look succeeds, exactly: the joiner still has the segment mapped if and only if
      it has not left. */
  lemma MappedUnlessLeft(s: State, es: seq<Event>, i: nat)
    requires Init(s) && Legal(s, es) && i < |es| && es[i] == LookForJoiner
    ensures Legal(s, es[..i])
    ensures IsMapped(After(s, es[..i]).j) <==> JoinerLeave !in es[..i]
  {
    assert es == es[..i] + es[i..];
    RunExtends(s, es[..i], es[i..]);
    assert Enabled(After(s, es[..i]), es[i..][0]);
    RunKeeps(s, es[..i]);
    WhatJoinerDid(s, es[..i]);
  }

  /** The reference count is the number of sides counted in, so it is never negative, and when all
      are out the name is gone. */
  lemma LastOneRemovesTheName(s: State, es: seq<Event>)
    requires Init(s) && Legal(s, es)
    ensures var t := After(s, es);
      && t.seg.refcount == CreatorCounts(t.c) + JoinerCounts(t.j)
      && (t.c.COut? && JoinerCounts(t.j) == 0 && !t.j.JSubbed? ==> !t.seg.linked)
  {
    RunKeeps(s, es);
  }

  lemma {:induction false} PidIsStored(s: State, es: seq<Event>)
    requires Inv(s) && Legal(s, es)
    ensures After(s, es).seg.joinerPid != 0 <==> s.seg.joinerPid != 0 || StorePid in es
    decreases |es|
  {
    if es != [] {
      StepKeeps(s, es[0]);
      PidIsStored(Next(s, es[0]), es[1..]);
      assert es == [es[0]] + es[1..];
    }
  }

  /** The creator's verdict, exactly: it attaches when the joiner's pid was stored before its look,
      and gives up when it was not. */
  lemma VerdictIsExact(s: State, es: seq<Event>, i: nat)
    requires Init(s) && Legal(s, es) && i < |es|
    ensures es[i] == LookForJoiner ==> StorePid in es[..i]
    ensures es[i] == GiveUp ==> StorePid !in es[..i]
  {
    assert es == es[..i] + es[i..];
    RunExtends(s, es[..i], es[i..]);
    PidIsStored(s, es[..i]);
    assert Enabled(After(s, es[..i]), es[i..][0]);
  }

  lemma OneMore(s: State, es: seq<Event>, t: State, e: Event)
    requires Legal(s, es) && After(s, es) == t && Enabled(t, e)
    ensures Legal(s, es + [e]) && After(s, es + [e]) == Next(t, e)
  {
    hide Enabled, Next;
    assert [e][1..] == [];
    RunJoins(s, es, [e]);
  }

  lemma {:induction false} RunJoins(s: State, a: seq<Event>, b: seq<Event>)
    requires Legal(s, a) && Legal(After(s, a), b)
    ensures Legal(s, a + b) && After(s, a + b) == After(After(s, a), b)
    decreases |a|
  {
    hide Enabled, Next;
    if a == [] {
      assert a + b == b;
    } else {
      assert (a + b)[0] == a[0] && (a + b)[1..] == a[1..] + b;
      RunJoins(Next(s, a[0]), a[1..], b);
    }
  }

  lemma CreatorGetsReady(s: State) returns (es: seq<Event>)
    requires Init(s)
    ensures Legal(s, es) && After(s, es) == State(
      Segment(true, true, true, 1, RING_BYTES, s.cpid, 0, 1, true, true), CReady, JStart, s.cpid, s.jpid)
  {
    hide Legal, After;
    var t := s;
    es := [];
    NoSteps(s);
    OneMore(s, es, t, Create);
    es, t := es + [Create], Next(t, Create);
    OneMore(s, es, t, Truncate);
    es, t := es + [Truncate], Next(t, Truncate);
    var n := 0;
    while n < 7
      invariant 0 <= n <= 7 && t.c == CInit(n) && Legal(s, es) && After(s, es) == t
      invariant t == s.(c := t.c, seg := t.seg) && t.seg.linked && !t.seg.magic && InitSoFar(t.seg, n, s.cpid)
      invariant t.seg.joinerPid == 0 && (n > 4 ==> t.seg.refcount == 1)
    {
      OneMore(s, es, t, Store);
      es, t, n := es + [Store], Next(t, Store), n + 1;
    }
    OneMore(s, es, t, Publish);
    es, t := es + [Publish], Next(t, Publish);
  }

  lemma NoSteps(s: State)
    ensures Legal(s, []) && After(s, []) == s
  {
  }

  lemma {:induction false} SizedByTruncate(s: State, es: seq<Event>)
    requires Legal(s, es)
    ensures After(s, es).seg.sized <==> s.seg.sized || Truncate in es
    decreases |es|
  {
    if es != [] {
      SizedByTruncate(Next(s, es[0]), es[1..]);
      assert es == [es[0]] + es[1..];
    }
  }

  /** A joiner that has mapped the segment faults at its first touch if and only if the creator has not
      sized it yet; otherwise it reads the header. */
  lemma FaultsExactlyUnsized(s: State, es: seq<Event>)
    requires Init(s) && Legal(s, es) && After(s, es).j.JMapped?
    ensures Enabled(After(s, es), TouchUnsized) <==> Truncate !in es
    ensures Enabled(After(s, es), SeeMagic) || Enabled(After(s, es), NoMagic) <==> Truncate in es
  {
    SizedByTruncate(s, es);
  }

  /** Where the creator stands says which of its steps it has taken; and until a joiner has come, the name
      is there from the creator's first step to its last. */
  ghost predicate CreatorSteps(s: State, es: seq<Event>) {
    && (s.c.CStart? <==> Create !in es)
    && (Published(s.c) <==> Publish in es)
    && (s.c.COut? <==> CreatorLeave in es)
    && (s.j.JStart? ==> (s.seg.linked <==> !s.c.CStart? && !s.c.COut?) && (s.c.CSubbed? ==> s.c.last))
  }

  lemma {:induction false} WhatCreatorDid(s: State, es: seq<Event>)
    requires Init(s) && Legal(s, es)
    ensures CreatorSteps(After(s, es), es)
    decreases |es|
  {
    if es != [] {
      var front, last := es[..|es| - 1], es[|es| - 1];
      assert es == front + [last];
      RunExtends(s, front, [last]);
      WhatCreatorDid(s, front);
      RunKeeps(s, front);
      LastStep(After(s, front), last);
    }
  }

  lemma {:induction false} FailedForGood(s: State, es: seq<Event>)
    requires Legal(s, es) && s.j.JFailed?
    ensures After(s, es).j.JFailed?
    decreases |es|
  {
    if es != [] {
      FailedForGood(Next(s, es[0]), es[1..]);
    }
  }

  /** The joiner's verdict, exactly: it fails, for good, when at its last look for the name the creator has
      not made it yet or has left, and when at its last read of the header the creator has not published it
      yet; it is let in when it has. */
  lemma JoinerVerdictIsExact(s: State, before: seq<Event>, e: Event, rest: seq<Event>)
    requires Init(s) && Legal(s, before + [e] + rest)
    ensures e == Open ==> Create in before && CreatorLeave !in before
    ensures e == NotThere ==> Create !in before || CreatorLeave in before
    ensures e == SeeMagic ==> Publish in before
    ensures e == NoMagic ==> Publish !in before
    ensures e == NotThere || e == NoMagic ==> After(s, before + [e] + rest).j.JFailed?
    ensures e == SeeMagic ==> Joined(After(s, before + [e] + rest).j)
  {
    hide Legal, After, Enabled, Next, Inv, CreatorSteps;
    RunExtends(s, before + [e], rest);
    RunExtends(s, before, [e]);
    var t := After(s, before);
    LastStep(t, e);
    WhatCreatorDid(s, before);
    InitInv(s);
    RunKeeps(s, before);
    LookTells(t, before, e);
    if e == NotThere || e == NoMagic {
      FailedForGood(Next(t, e), rest);
    } else if e == SeeMagic {
      JoinedForGood(Next(t, e), rest);
    }
  }

  lemma InitInv(s: State)
    requires Init(s)
    ensures Inv(s)
  {
  }

  /** One look of the joiner, at the name or at the header. */
  lemma LookTells(s: State, before: seq<Event>, e: Event)
    requires Inv(s) && CreatorSteps(s, before) && Enabled(s, e)
    ensures e == Open ==> Create in before && CreatorLeave !in before
    ensures e == NotThere ==> (Create !in before || CreatorLeave in before) && Next(s, e).j.JFailed?
    ensures e == SeeMagic ==> Publish in before && Joined(Next(s, e).j)
    ensures e == NoMagic ==> Publish !in before && Next(s, e).j.JFailed?
  {
  }

  lemma {:induction false} JoinedForGood(s: State, es: seq<Event>)
    requires Legal(s, es) && Joined(s.j)
    ensures Joined(After(s, es).j)
    decreases |es|
  {
    if es != [] {
      JoinedForGood(Next(s, es[0]), es[1..]);
    }
  }

  /** It does fault: the joiner opens and maps the segment between shm_open and ftruncate. */
  lemma JoinerCanFault(s: State) returns (es: seq<Event>)
    requires Init(s)
    ensures es == [Create, Open, Map, TouchUnsized] && Legal(s, es) && After(s, es).j.JFaulted?
  {
    hide Legal, After;
    NoSteps(s);
    var t := s;
    OneMore(s, [], t, Create);
    es, t := [] + [Create], Next(t, Create);
    OneMore(s, es, t, Open);
    es, t := es + [Open], Next(t, Open);
    OneMore(s, es, t, Map);
    es, t := es + [Map], Next(t, Map);
    OneMore(s, es, t, TouchUnsized);
    es, t := es + [TouchUnsized], Next(t, TouchUnsized);
  }

  /** What the protocol does not give: the joiner can attach although the creator has given up and
      left, when its pid comes after the creator's last look. */
  lemma JoinerCanBeAlone(s: State) returns (es: seq<Event>)
    requires Init(s)
    ensures Legal(s, es)
    ensures var t := After(s, es); t.j.JAttached? && t.c.COut? && !t.seg.linked && GiveUp in es
  {
    hide Legal, After;
    es := CreatorGetsReady(s);
    var t := After(s, es);
    OneMore(s, es, t, Open);
    es, t := es + [Open], Next(t, Open);
    OneMore(s, es, t, Map);
    es, t := es + [Map], Next(t, Map);
    OneMore(s, es, t, SeeMagic);
    es, t := es + [SeeMagic], Next(t, SeeMagic);
    OneMore(s, es, t, GiveUp);
    es, t := es + [GiveUp], Next(t, GiveUp);
    OneMore(s, es, t, CreatorSub);
    es, t := es + [CreatorSub], Next(t, CreatorSub);
    OneMore(s, es, t, CreatorLeave);
    es, t := es + [CreatorLeave], Next(t, CreatorLeave);
    OneMore(s, es, t, StorePid);
    es, t := es + [StorePid], Next(t, StorePid);
    OneMore(s, es, t, Count);
    es, t := es + [Count], Next(t, Count);
    OneMore(s, es, t, LookForCreator);
    es, t := es + [LookForCreator], Next(t, LookForCreator);
  }

  /** The same on the other side: the creator can attach although the joiner has come and gone, as its
      look is at the pid alone, which stays. */
  lemma CreatorCanBeAlone(s: State) returns (es: seq<Event>)
    requires Init(s)
    ensures Legal(s, es)
    ensures var t := After(s, es); t.c.CAttached? && t.j.JOut? && !IsMapped(t.j)
  {
    hide Legal, After;
    es := CreatorGetsReady(s);
    var t := After(s, es);
    OneMore(s, es, t, Open);
    es, t := es + [Open], Next(t, Open);
    OneMore(s, es, t, Map);
    es, t := es + [Map], Next(t, Map);
    OneMore(s, es, t, SeeMagic);
    es, t := es + [SeeMagic], Next(t, SeeMagic);
    OneMore(s, es, t, StorePid);
    es, t := es + [StorePid], Next(t, StorePid);
    OneMore(s, es, t, Count);
    es, t := es + [Count], Next(t, Count);
    OneMore(s, es, t, LookForCreator);
    es, t := es + [LookForCreator], Next(t, LookForCreator);
    OneMore(s, es, t, JoinerSub);
    es, t := es + [JoinerSub], Next(t, JoinerSub);
    OneMore(s, es, t, JoinerLeave);
    es, t := es + [JoinerLeave], Next(t, JoinerLeave);
    OneMore(s, es, t, LookForJoiner);
    es, t := es + [LookForJoiner], Next(t, LookForJoiner);
  }

  // ---------------------------------------------------------------- who uses which ring

  datatype Role = Creator | Joiner

  datatype Channel = CreatorToJoiner | JoinerToCreator

  function Other(r: Role): Role {
    if r.Creator? then Joiner else Creator
  }

  function RingInbound(r: Role): Channel {
    if r.Creator? then JoinerToCreator else CreatorToJoiner
  }

  /** What one side sends through is what the other receives from, and never what it receives from
      itself. */
  function RingOutbound(r: Role): (c: Channel)
    ensures c == RingInbound(Other(r)) && c != RingInbound(r)
  {
    if r.Creator? then CreatorToJoiner else JoinerToCreator
  }

  function WakeInbound(r: Role): Channel {
    if r.Creator? then JoinerToCreator else CreatorToJoiner
  }

  /** The same for the counters: a side bumps the one its peer waits on, which is the one that goes
      with the ring it sends through. */
  function WakeOutbound(r: Role): (c: Channel)
    ensures c == WakeInbound(Other(r)) == RingOutbound(r) && c != WakeInbound(r)
  {
    if r.Creator? then CreatorToJoiner else JoinerToCreator
  }
}
