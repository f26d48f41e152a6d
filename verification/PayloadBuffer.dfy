/** interprocess_t::buffer_t: a sender cuts a message into chained blocks taken from a queue of free
    ones, a reader drains the chain and gives the blocks back. The ghost `chains` names, per message,
    the blocks that still hold some of it. */
module PayloadBuffer {
  import opened Common
  import opened Modular
  import opened PayloadChains
  import opened LocklessQueue
  import F = TombstoneFifo
  import C = CreditQueue

  /** The number of blocks n bytes take. */
  function Need(n: nat): nat {
    (n + BLOCK_BYTES - 1) / BLOCK_BYTES
  }

  /** A queue that is only popped at the head has nothing deleted behind it. */
  ghost predicate NoHoles(q: F.Queue<int>) {
    F.Valid(q) && forall k: nat | q.released <= k < |q.pushed| :: k !in q.deleted
  }

  ghost function Waiting(q: F.Queue<int>): seq<int>
    requires NoHoles(q)
  {
    q.pushed[q.released..]
  }

  lemma {:induction false} LiveFrom(q: F.Queue<int>, k: nat)
    requires NoHoles(q) && q.released <= k <= |q.pushed|
    ensures F.Undeleted(q, k) == q.pushed[k..]
    decreases |q.pushed| - k
  {
    if k < |q.pushed| {
      LiveFrom(q, k + 1);
    }
  }

  lemma PoppedOnce(q: F.Queue<int>, q': F.Queue<int>)
    requires NoHoles(q) && F.Valid(q') && q.released < |q.pushed|
    requires q'.pushed == q.pushed && q'.deleted == q.deleted + {q.released} && q'.released !in q'.deleted
    ensures NoHoles(q') && Waiting(q) == [q.pushed[q.released]] + Waiting(q')
  {
    assert q.released + 1 < |q.pushed| ==> q.released + 1 !in q'.deleted;
    assert q'.released == q.released + 1;
  }

  function Cleared(): Block {
    Block(0, 0, seq(BLOCK_BYTES, _ => 0), 0)
  }

  function Upto(n: nat): (s: seq<int>)
    ensures |s| == n && forall i | 0 <= i < n :: s[i] == i
  {
    seq(n, i => i)
  }

  function Unowned(): (owner: seq<int>) {
    seq(BLOCKS, _ => -1)
  }

  lemma AllFree()
    ensures Owned(Upto(BLOCKS), map[], Unowned())
  {
    forall i | 0 <= i < BLOCKS
      ensures Placed(i, Unowned()[i], Upto(BLOCKS), map[])
    {
      assert Upto(BLOCKS)[i] == i;
    }
  }

  class Buffer {
    const mem: array<Block>
    const avail: Queue<int>
    ghost var chains: map<nat, seq<int>>
    ghost var owner: seq<int>

    ghost predicate AvailOk()
      reads avail, avail.ring
    {
      avail.Valid() && avail.creditDisabled && avail.size == 2 * BLOCKS && NoHoles(avail.q)
    }

    /** The free blocks, in the order they will be handed out. */
    ghost function Free(): seq<int>
      requires AvailOk()
      reads avail, avail.ring
    {
      Waiting(avail.q)
    }

    ghost predicate Valid()
      reads this, mem, avail, avail.ring
    {
      && AvailOk() && mem.Length == BLOCKS && Wide(mem[..])
      && Owned(Free(), chains, owner)
      && ChainsOk(mem[..], chains)
    }

    /** What is left of a message. */
    ghost function Content(m: nat): seq<Byte>
      requires Valid() && m in chains
      reads this, mem, avail, avail.ring
    {
      Bytes(mem[..], chains[m])
    }

    /** monitor_init: cleared memory, every block free. */
    constructor ()
      ensures Valid() && chains == map[] && Free() == Upto(BLOCKS)
      ensures forall i | 0 <= i < BLOCKS :: mem[i].next == 0
      ensures fresh(mem) && fresh(avail) && fresh(avail.ring)
    {
      hide Queue.Valid, Owned, F.Undeleted;
      mem := new Block[BLOCKS](_ => Cleared());
      SlotsAreValid();
      avail := new Queue(2 * BLOCKS, 0, true);
      chains, owner := map[], Unowned();
      new;
      Fifo(avail);
      for i := 0 to BLOCKS
        invariant AvailOk() && Free() == Upto(i)
        invariant fresh(avail) && fresh(avail.ring)
        invariant mem.Length == BLOCKS && forall k | 0 <= k < BLOCKS :: mem[k] == Cleared()
        invariant chains == map[] && owner == Unowned()
      {
        Give(i);
        assert Upto(i) + [i] == Upto(i + 1);
      }
      AllFree();
    }

    /** avail_slots->pop_nb */
    method Take() returns (r: Option<int>)
      requires AvailOk()
      modifies avail, avail.ring
      ensures AvailOk()
      ensures if r.None? then old(Free()) == [] == Free() else old(Free()) == [r.value] + Free()
    {
      hide Queue.Valid, F.Undeleted;
      ghost var q := avail.q;
      LiveFrom(q, q.released);
      r := avail.PopNb();
      Fifo(avail);
      if r.Some? {
        PoppedOnce(q, avail.q);
        LiveFrom(avail.q, avail.q.released);
      }
    }

    /** avail_slots->push */
    method Give(blk: int)
      requires AvailOk() && |Free()| < BLOCKS
      modifies avail, avail.ring
      ensures AvailOk() && Free() == old(Free()) + [blk]
    {
      hide Queue.Valid, F.Undeleted;
      var ok := avail.PushNb(blk);
      Fifo(avail);
    }

    /** One round of pushdata: link, copy, size, and the end mark on the last block. */
    method Fill(prev: int, blk: int, chunk: seq<Byte>, last: bool)
      requires mem.Length == BLOCKS && 0 <= blk < BLOCKS && -1 <= prev < BLOCKS
      requires |chunk| <= |mem[blk].data|
      modifies mem
      ensures mem[..] == Filled(old(mem[..]), prev, blk, chunk, last)
    {
      if prev != -1 {
        mem[prev] := mem[prev].(next := blk);
      }
      mem[blk] := mem[blk].(offset := 0);
      mem[blk] := mem[blk].(data := chunk + mem[blk].data[|chunk|..], size := |chunk|);
      if last {
        mem[blk] := mem[blk].(next := -1);
      }
    }

    /** One round of the loop of pushdata: a free block, if there is one, gets the next bytes. */
    method StoreNext(start: seq<Byte>, size: int, sent: nat, prev: int, ghost free: seq<int>, ghost taken: seq<int>,
                     ghost mem0: seq<Block>) returns (r: Option<int>, n: nat)
      requires AvailOk() && mem.Length == BLOCKS && size <= |start| && sent < size
      requires free == taken + Free() && Distinct(free) && (forall i | 0 <= i < |free| :: 0 <= free[i] < BLOCKS)
      requires prev == LastOf(taken) && Underway(start, size, sent, taken, mem0, mem[..])
      modifies mem, avail, avail.ring
      ensures AvailOk()
      ensures r.None? ==> Free() == [] && free == taken && mem[..] == old(mem[..])
      ensures r.Some? ==> n > 0 && free == (taken + [r.value]) + Free() && (prev == -1 <==> taken == [])
      ensures r.Some? ==> sent + n <= size && Underway(start, size, sent + n, taken + [r.value], mem0, mem[..])
    {
      hide Queue.Valid, Filled, Waiting, NoHoles, Underway, Distinct, Need;
      n := 0;
      r := Take();
      if r.None? {
        return;
      }
      NextFree(free, taken, r.value, Free());
      n := if size - sent < BLOCK_BYTES then size - sent else BLOCK_BYTES;
      UnderwayStep(start, size, sent, taken, mem0, mem[..], r.value);
      Fill(prev, r.value, start[sent..sent + n], size - sent == n);
    }

    /** The loop of pushdata. */
    method Store(start: seq<Byte>, size: int) returns (head: int, ghost taken: seq<int>)
      requires Valid() && size <= |start|
      modifies mem, avail, avail.ring
      ensures AvailOk() && mem.Length == BLOCKS && Wide(mem[..])
      ensures Stored(start, size, old(Free()), Free(), old(mem[..]), mem[..], head, taken)
    {
      hide Queue.Valid, Owned, ChainsOk, Filled, Waiting, NoHoles, Underway, Stored, Wide, Distinct, Need;
      var sizeLeft, prev, sent := size, -1, 0;
      head, taken := -1, [];
      ghost var mem0, free := mem[..], Free();
      OwnedIds(free, chains, owner);
      UnderwayStarts(start, size, mem0);
      while sizeLeft > 0
        invariant AvailOk() && mem.Length == BLOCKS && free == taken + Free()
        invariant 0 <= sent <= |start| && sizeLeft == size - sent && prev == LastOf(taken)
        invariant head == First(taken, -1)
        invariant Underway(start, size, sent, taken, mem0, mem[..])
        decreases sizeLeft
      {
        var r, n := StoreNext(start, size, sent, prev, free, taken, mem0);
        if r.None? {
          UnderwayStops(start, size, sent, free, mem0, mem[..], taken, head);
          return;
        }
        sent, sizeLeft := sent + n, sizeLeft - n;
        if prev == -1 {
          head := r.value;
        }
        prev := r.value;
        taken := taken + [r.value];
      }
      UnderwayEnds(start, size, sent, free, Free(), mem0, mem[..], taken, head);
    }

    /** pushdata: the bytes go, in order, into the blocks at the head of the free queue, chained to
        each other. With enough of them the chain ends there; otherwise all are used up, the bytes
        that fit are stored, and the last block keeps whatever next field it had. */
    method PushData(start: seq<Byte>, size: int, ghost m: nat) returns (head: int, ghost taken: seq<int>)
      requires Valid() && size <= |start| && m !in chains
      modifies this, mem, avail, avail.ring
      ensures AvailOk() && mem.Length == BLOCKS
      ensures Stored(start, size, old(Free()), Free(), old(mem[..]), mem[..], head, taken)
      ensures if Complete(size, old(Free())) then Valid() && chains == old(chains)[m := taken]
              else chains == old(chains)
      ensures Complete(size, old(Free())) ==> forall n | n in old(chains) :: Content(n) == old(Content(n))
    {
      hide Queue.Valid, Owned, ChainsOk, Waiting, NoHoles, Complete, Stored, Linked, Bytes, AllSound;
      ghost var free := Free();
      head, taken := Store(start, size);
      if Complete(size, free) {
        StoredInFull(start, size, free, Free(), old(mem[..]), mem[..], head, taken);
        TakeKeepsOwned(free, chains, owner, |taken|, m);
        NewChain(old(mem[..]), mem[..], free, chains, owner, taken, m);
        chains, owner := chains[m := taken], Assigned(owner, taken, m);
      }
    }

    /** A block read to its end goes back to the free ones. */
    method ReleaseHead(blk: int, ghost m: nat)
      requires Valid() && m in chains && chains[m] != [] && chains[m][0] == blk
      modifies this, avail, avail.ring
      ensures Valid() && chains == old(chains)[m := old(chains)[m][1..]]
      ensures Free() == old(Free()) + [blk]
    {
      hide Queue.Valid, Owned, ChainsOk, Waiting, NoHoles, Linked, AllSound;
      FreeFit(Free(), chains, owner);
      GiveKeepsOwned(Free(), chains, owner, m);
      ShorterChain(mem[..], chains, m);
      Give(blk);
      chains, owner := chains[m := chains[m][1..]], owner[blk := -1];
    }

    /** A block read in part keeps the rest of its bytes. */
    method Shrink(blk: int, n: nat, ghost m: nat)
      requires Valid() && m in chains && chains[m] != [] && chains[m][0] == blk
      requires 0 <= blk < mem.Length && n < mem[blk].size
      modifies mem
      ensures Valid()
      ensures mem[..] == old(mem[..])[blk := old(mem[blk]).(size := old(mem[blk]).size - n, offset := old(mem[blk]).offset + n)]
      ensures n <= |old(Content(m))| && Content(m) == old(Content(m))[n..]
      ensures forall k | k in chains && k != m :: Content(k) == old(Content(k))
    {
      hide Queue.Valid, ChainsOk, Waiting, NoHoles, Linked, AllSound, Bytes, Owned;
      ShrunkChain(mem[..], Free(), chains, owner, m, n);
      mem[blk] := mem[blk].(size := mem[blk].size - n, offset := mem[blk].offset + n);
      assert mem[..] == old(mem[..])[blk := mem[blk]];
    }

    /** One round of popdata. */
    method ReadBlock(loc: int, sizeLeft: int, ghost m: nat) returns (chunk: seq<Byte>, next: int, full: bool)
      requires Valid() && m in chains && chains[m] != [] && loc == chains[m][0] && sizeLeft > 0
      modifies this, mem, avail, avail.ring
      ensures Valid() && m in chains && chunk + Content(m) == old(Content(m)) && |chunk| <= sizeLeft
      ensures next == First(chains[m], -1)
      ensures full ==> chains == old(chains)[m := old(chains)[m][1..]] && Free() == old(Free()) + [loc]
      ensures !full ==> chains == old(chains) && Free() == old(Free()) && |chunk| == sizeLeft
      ensures forall k | k in chains && k != m :: Content(k) == old(Content(k))
    {
      hide Queue.Valid, ChainsOk, Waiting, NoHoles, Linked, AllSound, Bytes, Owned;
      HeadOfChain(mem[..], chains, m);
      var blk := mem[loc];
      full := sizeLeft >= blk.size;
      var n := if full then blk.size else sizeLeft;
      chunk := blk.data[blk.offset..blk.offset + n];
      if full {
        ReleaseHead(loc, m);
        next := blk.next;
      } else {
        Shrink(loc, n, m);
        next := loc;
      }
    }

    /** popdata: hands out the next bytes of a message, giving back every block it empties. */
    method PopData(src: int, size: int, ghost m: nat)
        returns (loc: int, copied: int, out: seq<Byte>, ghost released: seq<int>)
      requires Valid() && m in chains && src == First(chains[m], -1) && size >= 0
      modifies this, mem, avail, avail.ring
      ensures Valid() && m in chains && chains == old(chains)[m := chains[m]]
      ensures out + Content(m) == old(Content(m)) && |out| == copied == Min(size, |old(Content(m))|)
      ensures loc == First(chains[m], -1) && (loc == -1 <==> |old(Content(m))| <= size)
      ensures old(chains)[m] == released + chains[m] && Free() == old(Free()) + released
      ensures forall k | k in chains && k != m :: Content(k) == old(Content(k))
    {
      hide Queue.Valid, ChainsOk, Waiting, NoHoles, Linked, AllSound, Bytes, Owned, Wide;
      loc, out, released := src, [], [];
      var sizeLeft := size;
      while loc != -1 && sizeLeft != 0
        invariant Valid() && m in chains && chains == old(chains)[m := chains[m]]
        invariant out + Content(m) == old(Content(m))
        invariant 0 <= sizeLeft == size - |out|
        invariant loc == First(chains[m], -1)
        invariant old(chains)[m] == released + chains[m] && Free() == old(Free()) + released
        invariant forall k | k in chains && k != m :: Content(k) == old(Content(k))
        decreases |chains[m]|
      {
        ghost var before := out;
        var chunk, next, full := ReadBlock(loc, sizeLeft, m);
        out, sizeLeft := out + chunk, sizeLeft - |chunk|;
        Regrouped(before, chunk, Content(m));
        if !full {
          break;
        }
        released := released + [loc];
        loc := next;
      }
      copied := size - sizeLeft;
      ChainHolds(mem[..], chains, m);
    }
  }

  function Sum(sizes: seq<nat>): nat {
    if sizes == [] then 0 else sizes[0] + Sum(sizes[1..])
  }

  /** The reader's side in full: whatever the sizes asked for, the message comes out in order, and
      reading it to the end returns its blocks, each once, behind the free ones. */
  method Drain(b: Buffer, src: int, sizes: seq<nat>, ghost m: nat) returns (out: seq<Byte>, ghost released: seq<int>)
    requires b.Valid() && m in b.chains && src == First(b.chains[m], -1)
    modifies b, b.mem, b.avail, b.avail.ring
    ensures b.Valid() && out == old(b.Content(m))[..Min(Sum(sizes), |old(b.Content(m))|)]
    ensures b.Free() == old(b.Free()) + released && released <= old(b.chains)[m]
    ensures Sum(sizes) >= |old(b.Content(m))| ==> released == old(b.chains)[m]
    ensures forall k | k in old(b.chains) && k != m :: k in b.chains && b.Content(k) == old(b.Content(k))
  {
    hide Queue.Valid, ChainsOk, Waiting, NoHoles, Linked, AllSound, Bytes, Owned, Wide, Sum;
    var loc := src;
    ghost var asked: nat := 0;
    out, released := [], [];
    SumFrom(sizes, 0);
    for i := 0 to |sizes|
      invariant b.Valid() && m in b.chains && b.chains.Keys == old(b.chains.Keys)
      invariant loc == First(b.chains[m], -1) && asked + Sum(sizes[i..]) == Sum(sizes)
      invariant out + b.Content(m) == old(b.Content(m)) && |out| == Min(asked, |old(b.Content(m))|)
      invariant old(b.chains)[m] == released + b.chains[m] && b.Free() == old(b.Free()) + released
      invariant forall k | k in b.chains && k != m :: b.Content(k) == old(b.Content(k))
    {
      ghost var before, gone := out, released;
      var copied, chunk;
      ghost var freed;
      loc, copied, chunk, freed := b.PopData(loc, sizes[i], m);
      out, released := out + chunk, released + freed;
      Regrouped(before, chunk, b.Content(m));
      Regrouped(gone, freed, b.chains[m]);
      SumFrom(sizes, i);
      asked := asked + sizes[i];
    }
    SumFrom(sizes, |sizes|);
    ChainHolds(b.mem[..], b.chains, m);
  }

  lemma SumFrom(sizes: seq<nat>, i: nat)
    requires i <= |sizes|
    ensures sizes[0..] == sizes && (i == |sizes| ==> Sum(sizes[i..]) == 0)
    ensures i < |sizes| ==> Sum(sizes[i..]) == sizes[i] + Sum(sizes[i + 1..])
  {
  }

  /** A message and its way back: what pushdata stored is what any sequence of popdata calls reads,
      and afterwards the blocks used have moved to the end of the free queue. */
  method RoundTrip(b: Buffer, data: seq<Byte>, sizes: seq<nat>, ghost m: nat) returns (out: seq<Byte>)
    requires b.Valid() && m !in b.chains && Need(|data|) <= |b.Free()| && Sum(sizes) >= |data|
    modifies b, b.mem, b.avail, b.avail.ring
    ensures b.Valid() && out == data
    ensures var k := Need(|data|); b.Free() == old(b.Free())[k..] + old(b.Free())[..k]
    ensures forall k | k in old(b.chains) :: k in b.chains && b.Content(k) == old(b.Content(k))
  {
    hide Queue.Valid, ChainsOk, Waiting, NoHoles, Linked, AllSound, Bytes, Owned, Wide, Sum;
    var head;
    ghost var taken, released;
    head, taken := b.PushData(data, |data|, m);
    out, released := Drain(b, head, sizes, m);
  }

  lemma {:induction false} LinkedAt(mem: seq<Block>, ids: seq<int>, end: int, i: nat)
    requires AllSound(mem, ids) && Linked(mem, ids, end) && i < |ids|
    ensures mem[ids[i]].next == if i + 1 < |ids| then ids[i + 1] else end
    decreases i
  {
    if i > 0 {
      LinkedAt(mem, ids[1..], end, i - 1);
    }
  }

  /** Running out of blocks on cleared memory: the unset next field of the last block leads back to
      the first, so the chain never ends. */
  method ShortageOnClearedMemory(data: seq<Byte>) returns (b: Buffer, head: int)
    requires |data| > BLOCKS * BLOCK_BYTES
    ensures b.mem.Length == BLOCKS && head == 0
    ensures forall i | 0 <= i < BLOCKS :: b.mem[i].next == if i + 1 < BLOCKS then i + 1 else 0
  {
    hide Queue.Valid, ChainsOk, Waiting, NoHoles, Linked, Bytes, Owned, Wide;
    b := new Buffer();
    ghost var mem, free := b.mem[..], b.Free();
    ghost var taken;
    head, taken := b.PushData(data, |data|, 0);
    forall i | 0 <= i < BLOCKS
      ensures b.mem[i].next == if i + 1 < BLOCKS then i + 1 else 0
    {
      LinkedAt(b.mem[..], taken, mem[taken[BLOCKS - 1]].next, i);
      assert taken[i] == i;
    }
  }

  lemma ShorterChain(mem: seq<Block>, chains: map<nat, seq<int>>, m: nat)
    requires ChainsOk(mem, chains) && m in chains && chains[m] != []
    ensures ChainsOk(mem, chains[m := chains[m][1..]])
  {
    hide Linked, AllSound;
    Unchain(mem, chains[m], -1);
  }

  /** The first block of a message, and what comes behind it. */
  lemma HeadOfChain(mem: seq<Block>, chains: map<nat, seq<int>>, m: nat)
    requires ChainsOk(mem, chains) && m in chains && chains[m] != []
    ensures var ids := chains[m];
      && 0 <= ids[0] < |mem| && Sound(mem[ids[0]]) && mem[ids[0]].next == First(ids[1..], -1)
      && AllSound(mem, ids) && AllSound(mem, ids[1..])
      && Bytes(mem, ids) == Held(mem[ids[0]]) + Bytes(mem, ids[1..])
  {
    hide Linked, Bytes, AllSound;
    Unchain(mem, chains[m], -1);
  }

  /** A message has blocks just when it has bytes. */
  lemma ChainHolds(mem: seq<Block>, chains: map<nat, seq<int>>, m: nat)
    requires ChainsOk(mem, chains) && m in chains
    ensures AllSound(mem, chains[m]) && (Bytes(mem, chains[m]) == [] <==> chains[m] == [])
  {
    if chains[m] != [] {
      HeadOfChain(mem, chains, m);
    }
  }

  lemma ShrunkChain(mem: seq<Block>, free: seq<int>, chains: map<nat, seq<int>>, owner: seq<int>, m: nat, n: nat)
    requires |mem| == BLOCKS && ChainsOk(mem, chains) && Owned(free, chains, owner) && m in chains && chains[m] != []
    requires 0 <= chains[m][0] < |mem| && n < mem[chains[m][0]].size
    ensures var b := chains[m][0]; var mem' := mem[b := mem[b].(size := mem[b].size - n, offset := mem[b].offset + n)];
      && ChainsOk(mem', chains)
      && AllSound(mem, chains[m]) && AllSound(mem', chains[m])
      && n <= |Bytes(mem, chains[m])| && Bytes(mem', chains[m]) == Bytes(mem, chains[m])[n..]
      && forall k | k in chains && k != m ::
           AllSound(mem, chains[k]) && AllSound(mem', chains[k]) && Bytes(mem', chains[k]) == Bytes(mem, chains[k])
  {
    hide Linked, Bytes;
    var ids, b := chains[m], chains[m][0];
    var mem' := mem[b := mem[b].(size := mem[b].size - n, offset := mem[b].offset + n)];
    HeadOfChain(mem, chains, m);
    ShrunkHead(mem, ids, n);
    forall k | k in chains && k != m
      ensures AllSound(mem, chains[k]) && AllSound(mem', chains[k]) && Linked(mem', chains[k], -1)
      ensures Bytes(mem', chains[k]) == Bytes(mem, chains[k])
    {
      assert Belong(chains[k], k, owner) && Belong(ids, m, owner);
      ChainFrame(mem, mem', chains[k], -1);
    }
  }

  lemma OnlyOnce(ids: seq<int>)
    requires Distinct(ids) && ids != []
    ensures forall i | 0 <= i < |ids[1..]| :: ids[1..][i] != ids[0]
  {
  }

  lemma ShrunkHead(mem: seq<Block>, ids: seq<int>, n: nat)
    requires ids != [] && AllSound(mem, ids) && Linked(mem, ids, -1) && Distinct(ids) && n < mem[ids[0]].size
    ensures var b := ids[0]; var mem' := mem[b := mem[b].(size := mem[b].size - n, offset := mem[b].offset + n)];
      && AllSound(mem', ids) && Linked(mem', ids, -1)
      && n <= |Bytes(mem, ids)| && Bytes(mem', ids) == Bytes(mem, ids)[n..]
  {
    hide Distinct, Linked, Bytes, AllSound;
    Unchain(mem, ids, -1);
    var b := ids[0];
    var mem' := mem[b := mem[b].(size := mem[b].size - n, offset := mem[b].offset + n)];
    OnlyOnce(ids);
    ChainFrame(mem, mem', ids[1..], -1);
    Rechain(mem', b, ids[1..], -1);
    assert Held(mem'[b]) == Held(mem[b])[n..];
  }

  function LastOf(ids: seq<int>): int {
    if ids == [] then -1 else ids[|ids| - 1]
  }

  /** Halfway through pushdata, `sent` bytes stored: where the chain leads from its last block. */
  ghost function End(size: int, sent: nat, taken: seq<int>, mem: seq<Block>): int
    requires forall i | 0 <= i < |taken| :: 0 <= taken[i] < |mem|
  {
    if taken == [] || sent >= size then -1 else mem[LastOf(taken)].next
  }

  ghost predicate Underway(start: seq<Byte>, size: int, sent: nat, taken: seq<int>, mem0: seq<Block>, mem: seq<Block>) {
    && |mem| == |mem0| == BLOCKS && Wide(mem) && size <= |start| && sent <= Clamped(size)
    && (if sent < size then sent == |taken| * BLOCK_BYTES else |taken| == Need(Clamped(size)))
    && AllSound(mem, taken) && Bytes(mem, taken) == start[..sent]
    && Linked(mem, taken, End(size, sent, taken, mem0))
    && forall i | 0 <= i < BLOCKS && i !in taken :: mem[i] == mem0[i]
  }

  lemma UnderwayStarts(start: seq<Byte>, size: int, mem: seq<Block>)
    requires |mem| == BLOCKS && Wide(mem) && size <= |start|
    ensures Underway(start, size, 0, [], mem, mem)
  {
  }

  lemma UnderwayStep(start: seq<Byte>, size: int, sent: nat, taken: seq<int>, mem0: seq<Block>, mem: seq<Block>, b: int)
    requires Underway(start, size, sent, taken, mem0, mem) && sent < size
    requires Distinct(taken + [b]) && 0 <= b < BLOCKS && b !in taken
    ensures var n := if size - sent < BLOCK_BYTES then size - sent else BLOCK_BYTES;
      && -1 <= LastOf(taken) < BLOCKS && |mem[b].data| == BLOCK_BYTES
      && Underway(start, size, sent + n, taken + [b], mem0,
                  Filled(mem, LastOf(taken), b, start[sent..sent + n], size - sent == n))
  {
    hide Linked, Bytes, Filled;
    var n := if size - sent < BLOCK_BYTES then size - sent else BLOCK_BYTES;
    var chunk := start[sent..sent + n];
    FillExtends(mem, taken, End(size, sent, taken, mem0), b, chunk, size - sent == n);
    assert start[..sent + n] == start[..sent] + chunk;
    var mem', taken' := Filled(mem, LastOf(taken), b, chunk, size - sent == n), taken + [b];
    forall i | 0 <= i < |mem'|
      ensures |mem'[i].data| == BLOCK_BYTES
    {
      assert |mem[i].data| == BLOCK_BYTES;
    }
  }

  lemma UnderwayStops(start: seq<Byte>, size: int, sent: nat, free: seq<int>, mem0: seq<Block>, mem: seq<Block>,
                      taken: seq<int>, head: int)
    requires Underway(start, size, sent, taken, mem0, mem) && sent < size && free == taken + [] && head == First(taken, -1)
    ensures Wide(mem) && Stored(start, size, free, [], mem0, mem, head, taken)
  {
    hide Linked, Bytes;
  }

  lemma UnderwayEnds(start: seq<Byte>, size: int, sent: nat, free: seq<int>, free': seq<int>, mem0: seq<Block>,
                     mem: seq<Block>, taken: seq<int>, head: int)
    requires Underway(start, size, sent, taken, mem0, mem) && sent >= size && free == taken + free' && head == First(taken, -1)
    ensures Wide(mem) && Stored(start, size, free, free', mem0, mem, head, taken)
  {
    hide Linked, Bytes;
  }

  function Clamped(size: int): nat {
    if size < 0 then 0 else size
  }

  /** Whether there are blocks for everything. */
  predicate Complete(size: int, free: seq<int>) {
    Need(Clamped(size)) <= |free|
  }

  /** What pushdata leaves behind. */
  ghost predicate Stored(start: seq<Byte>, size: int, free: seq<int>, free': seq<int>,
                         mem: seq<Block>, mem': seq<Block>, head: int, taken: seq<int>)
    requires size <= |start|
  {
    && free == taken + free' && head == First(taken, -1)
    && |mem'| == |mem| && AllSound(mem', taken)
    && (forall i | 0 <= i < |mem| && i !in taken :: mem'[i] == mem[i])
    && if Complete(size, free) then
         |taken| == Need(Clamped(size)) && Linked(mem', taken, -1) && Bytes(mem', taken) == start[..Clamped(size)]
       else
         && taken == free && |taken| * BLOCK_BYTES < size && Bytes(mem', taken) == start[..|taken| * BLOCK_BYTES]
         && (taken != [] ==> Linked(mem', taken, mem[taken[|taken| - 1]].next))
  }

  lemma StoredInFull(start: seq<Byte>, size: int, free: seq<int>, free': seq<int>,
                     mem: seq<Block>, mem': seq<Block>, head: int, taken: seq<int>)
    requires size <= |start| && Stored(start, size, free, free', mem, mem', head, taken) && Complete(size, free)
    ensures |taken| <= |free| && taken == free[..|taken|] && free' == free[|taken|..]
    ensures AllSound(mem', taken) && Linked(mem', taken, -1)
    ensures |mem'| == |mem| && forall i | 0 <= i < |mem| && i !in taken :: mem'[i] == mem[i]
  {
  }

  lemma NextFree(free: seq<int>, taken: seq<int>, b: int, rest: seq<int>)
    requires free == taken + ([b] + rest) && Distinct(free)
    requires forall i | 0 <= i < |free| :: 0 <= free[i] < BLOCKS
    ensures free == (taken + [b]) + rest && Distinct(taken + [b]) && 0 <= b < BLOCKS && b !in taken
    ensures LastOf(taken) == -1 <==> taken == []
  {
    assert free[|taken|] == b;
    assert forall i | 0 <= i < |taken| :: free[i] == taken[i];
  }

  /** Filling free blocks leaves the messages alone and adds one. */
  lemma NewChain(mem: seq<Block>, mem': seq<Block>, free: seq<int>, chains: map<nat, seq<int>>, owner: seq<int>,
                 taken: seq<int>, m: nat)
    requires Owned(free, chains, owner) && ChainsOk(mem, chains) && taken <= free && m !in chains
    requires |mem'| == |mem| == BLOCKS && forall i | 0 <= i < |mem| && i !in taken :: mem'[i] == mem[i]
    requires AllSound(mem', taken) && Linked(mem', taken, -1)
    ensures ChainsOk(mem', chains[m := taken])
    ensures forall n | n in chains ::
      AllSound(mem, chains[n]) && AllSound(mem', chains[n]) && Bytes(mem', chains[n]) == Bytes(mem, chains[n])
  {
    hide Linked, Bytes;
    forall n | n in chains
      ensures AllSound(mem, chains[n]) && AllSound(mem', chains[n]) && Linked(mem', chains[n], -1)
      ensures Bytes(mem', chains[n]) == Bytes(mem, chains[n])
    {
      assert Belong(chains[n], n, owner) && Belong(free, -1, owner);
      ChainFrame(mem, mem', chains[n], -1);
    }
  }

  lemma OwnedIds(free: seq<int>, chains: map<nat, seq<int>>, owner: seq<int>)
    requires Owned(free, chains, owner)
    ensures Distinct(free) && forall i | 0 <= i < |free| :: 0 <= free[i] < BLOCKS
  {
  }

  ghost predicate Wide(mem: seq<Block>) {
    forall i | 0 <= i < |mem| :: |mem[i].data| == BLOCK_BYTES
  }

  /** Each message is a chain that ends with the last of its blocks. */
  ghost predicate ChainsOk(mem: seq<Block>, chains: map<nat, seq<int>>) {
    forall m | m in chains :: AllSound(mem, chains[m]) && Linked(mem, chains[m], -1)
  }

  lemma SlotsAreValid()
    ensures C.ValidSize(2 * BLOCKS)
  {
  }

  lemma Fifo(q: Queue<int>)
    requires q.Valid()
    ensures F.Valid(q.q)
  {
    Shaped(q.View(C.RIdle));
  }
}
