/** Blocks of payload chained through their next fields, on values: what a chain holds, what
    filling one more block adds to it, and who owns which block. */
module PayloadChains {
  import opened Common

  const BLOCKS: nat := 1024
  const BLOCK_BYTES: nat := 1018

  /** interprocess_t::buffer_t::element */
  datatype Block = Block(size: nat, offset: nat, data: seq<Byte>, next: int)

  predicate Sound(b: Block) {
    0 < b.size && b.offset + b.size <= BLOCK_BYTES == |b.data|
  }

  /** The bytes of a block still to be read. */
  function Held(b: Block): seq<Byte>
    requires Sound(b)
  {
    b.data[b.offset..b.offset + b.size]
  }

  ghost predicate Distinct(ids: seq<int>) {
    forall i, j | 0 <= i < j < |ids| :: ids[i] != ids[j]
  }

  ghost predicate AllSound(mem: seq<Block>, ids: seq<int>) {
    forall i | 0 <= i < |ids| :: 0 <= ids[i] < |mem| && Sound(mem[ids[i]])
  }

  function First(ids: seq<int>, end: int): int {
    if ids == [] then end else ids[0]
  }

  /** Following the next fields from ids[0] goes through ids and then to end. */
  ghost predicate Linked(mem: seq<Block>, ids: seq<int>, end: int)
    requires AllSound(mem, ids)
  {
    ids == [] || (mem[ids[0]].next == First(ids[1..], end) && Linked(mem, ids[1..], end))
  }

  ghost function Bytes(mem: seq<Block>, ids: seq<int>): seq<Byte>
    requires AllSound(mem, ids)
  {
    if ids == [] then [] else Held(mem[ids[0]]) + Bytes(mem, ids[1..])
  }

  /** Blocks off a chain do not matter to it. */
  lemma {:induction false} ChainFrame(mem: seq<Block>, mem': seq<Block>, ids: seq<int>, end: int)
    requires AllSound(mem, ids) && |mem'| == |mem|
    requires forall i | 0 <= i < |ids| :: mem'[ids[i]] == mem[ids[i]]
    ensures AllSound(mem', ids)
    ensures Linked(mem', ids, end) == Linked(mem, ids, end) && Bytes(mem', ids) == Bytes(mem, ids)
    decreases |ids|
  {
    if ids != [] {
      assert mem'[ids[0]] == mem[ids[0]];
      ChainFrame(mem, mem', ids[1..], end);
    }
  }

  lemma Unchain(mem: seq<Block>, ids: seq<int>, end: int)
    requires AllSound(mem, ids) && Linked(mem, ids, end) && ids != []
    ensures 0 <= ids[0] < |mem| && Sound(mem[ids[0]]) && mem[ids[0]].next == First(ids[1..], end)
    ensures AllSound(mem, ids[1..]) && Linked(mem, ids[1..], end)
    ensures ids == [ids[0]] + ids[1..] && Bytes(mem, ids) == Held(mem[ids[0]]) + Bytes(mem, ids[1..])
  {
  }

  lemma Rechain(mem: seq<Block>, b: int, rest: seq<int>, end: int)
    requires 0 <= b < |mem| && Sound(mem[b]) && AllSound(mem, rest)
    requires mem[b].next == First(rest, end) && Linked(mem, rest, end)
    ensures AllSound(mem, [b] + rest) && Linked(mem, [b] + rest, end)
    ensures Bytes(mem, [b] + rest) == Held(mem[b]) + Bytes(mem, rest)
  {
    assert ([b] + rest)[1..] == rest;
  }

  /** A chain made to go on to one more block. */
  lemma {:induction false} ChainAppend(mem: seq<Block>, ids: seq<int>, b: int, end: int)
    requires AllSound(mem, ids) && Linked(mem, ids, b)
    requires 0 <= b < |mem| && Sound(mem[b]) && mem[b].next == end
    ensures AllSound(mem, ids + [b]) && Linked(mem, ids + [b], end)
    ensures Bytes(mem, ids + [b]) == Bytes(mem, ids) + Held(mem[b])
    decreases |ids|
  {
    hide Sound, Held, Linked, Bytes, AllSound;
    if ids == [] {
      NoChain(mem, end);
      Rechain(mem, b, [], end);
      assert [] + [b] == [b] + [];
    } else {
      var rest := ids[1..];
      Unchain(mem, ids, b);
      ChainAppend(mem, rest, b, end);
      Rechain(mem, ids[0], rest + [b], end);
      assert ids + [b] == [ids[0]] + (rest + [b]);
    }
  }

  lemma NoChain(mem: seq<Block>, end: int)
    ensures AllSound(mem, []) && Linked(mem, [], end) && Bytes(mem, []) == []
  {
  }

  /** Changing where the last block of a chain points. */
  lemma {:induction false} ChainRetarget(mem: seq<Block>, ids: seq<int>, end: int, end': int)
    requires AllSound(mem, ids) && Linked(mem, ids, end) && ids != [] && Distinct(ids)
    ensures var last := ids[|ids| - 1]; var mem' := mem[last := mem[last].(next := end')];
      AllSound(mem', ids) && Linked(mem', ids, end') && Bytes(mem', ids) == Bytes(mem, ids)
    decreases |ids|
  {
    hide Linked, Bytes;
    var rest := ids[1..];
    var last := ids[|ids| - 1];
    var mem' := mem[last := mem[last].(next := end')];
    Unchain(mem, ids, end);
    if rest == [] {
      NoChain(mem, end);
      NoChain(mem', end');
    } else {
      assert rest[|rest| - 1] == last;
      ChainRetarget(mem, rest, end, end');
    }
    Rechain(mem', ids[0], rest, end');
  }

  /** One round of pushdata: the block is linked behind prev and takes the next chunk. */
  function Filled(mem: seq<Block>, prev: int, blk: int, chunk: seq<Byte>, last: bool): (mem': seq<Block>)
    requires 0 <= blk < |mem| && -1 <= prev < |mem|
    requires |chunk| <= |mem[blk].data|
    ensures |mem'| == |mem|
  {
    var m := if prev == -1 then mem else mem[prev := mem[prev].(next := blk)];
    m[blk := Block(|chunk|, 0, chunk + m[blk].data[|chunk|..], if last then -1 else m[blk].next)]
  }

  lemma FillExtends(mem: seq<Block>, ids: seq<int>, end: int, blk: int, chunk: seq<Byte>, last: bool)
    requires AllSound(mem, ids) && Linked(mem, ids, end) && Distinct(ids + [blk])
    requires 0 <= blk < |mem| && |mem[blk].data| == BLOCK_BYTES && 0 < |chunk| <= BLOCK_BYTES
    ensures var prev := if ids == [] then -1 else ids[|ids| - 1];
      var mem', ids' := Filled(mem, prev, blk, chunk, last), ids + [blk];
      && AllSound(mem', ids') && Linked(mem', ids', if last then -1 else mem[blk].next)
      && Bytes(mem', ids') == Bytes(mem, ids) + chunk
      && (forall i | 0 <= i < |mem| && i !in ids' :: mem'[i] == mem[i])
      && (forall i | 0 <= i < |mem| :: |mem'[i].data| == |mem[i].data|)
  {
    hide Linked, Bytes;
    var prev := if ids == [] then -1 else ids[|ids| - 1];
    var ids' := ids + [blk];
    assert forall i | 0 <= i < |ids| :: ids'[i] == ids[i];
    assert ids'[|ids|] == blk;
    var m := if prev == -1 then mem else mem[prev := mem[prev].(next := blk)];
    if ids != [] {
      ChainRetarget(mem, ids, end, blk);
    } else {
      NoChain(mem, blk);
    }
    var mem' := Filled(mem, prev, blk, chunk, last);
    ChainFrame(m, mem', ids, blk);
    assert Held(mem'[blk]) == chunk;
    ChainAppend(mem', ids, blk, mem'[blk].next);
  }

  // ---------------------------------------------------------------- who owns which block

  /** Every block is either free or on exactly one chain, and nothing is listed twice. */
  ghost predicate Owned(free: seq<int>, chains: map<nat, seq<int>>, owner: seq<int>) {
    && |owner| == BLOCKS
    && Belong(free, -1, owner) && (forall m | m in chains :: Belong(chains[m], m, owner))
    && (forall i | 0 <= i < BLOCKS :: Placed(i, owner[i], free, chains))
  }

  ghost predicate Belong(ids: seq<int>, o: int, owner: seq<int>)
    requires |owner| == BLOCKS
  {
    Distinct(ids) && forall k | 0 <= k < |ids| :: 0 <= ids[k] < BLOCKS && owner[ids[k]] == o
  }

  ghost predicate Placed(i: int, o: int, free: seq<int>, chains: map<nat, seq<int>>) {
    if o == -1 then i in free else 0 <= o && o in chains && i in chains[o]
  }

  function Assigned(owner: seq<int>, taken: seq<int>, m: nat): (owner': seq<int>)
    ensures |owner'| == |owner|
  {
    seq(|owner|, i requires 0 <= i < |owner| => if i in taken then m else owner[i])
  }

  lemma OthersBelong(ids: seq<int>, n: nat, owner: seq<int>, taken: seq<int>, m: nat)
    requires |owner| == BLOCKS && Belong(ids, n, owner) && Belong(taken, -1, owner)
    ensures Belong(ids, n, Assigned(owner, taken, m))
  {
    forall k | 0 <= k < |ids|
      ensures Assigned(owner, taken, m)[ids[k]] == n
    {
      assert owner[ids[k]] == n;
    }
  }

  lemma SplitBelongs(free: seq<int>, owner: seq<int>, k: nat, m: nat)
    requires |owner| == BLOCKS && Belong(free, -1, owner) && k <= |free|
    ensures Belong(free[..k], -1, owner) && Belong(free[..k], m, Assigned(owner, free[..k], m))
    ensures Belong(free[k..], -1, Assigned(owner, free[..k], m))
  {
    var taken, owner' := free[..k], Assigned(owner, free[..k], m);
    forall a | 0 <= a < k
      ensures owner'[taken[a]] == m
    {
      assert taken[a] == free[a] && taken[a] in taken;
    }
    forall a | 0 <= a < |free| - k
      ensures free[k..][a] !in taken
    {
      assert free[k..][a] == free[k + a];
    }
  }

  /** The first k free blocks become a chain of their own. */
  lemma TakeKeepsOwned(free: seq<int>, chains: map<nat, seq<int>>, owner: seq<int>, k: nat, m: nat)
    requires Owned(free, chains, owner) && k <= |free| && m !in chains
    ensures Owned(free[k..], chains[m := free[..k]], Assigned(owner, free[..k], m))
  {
    hide Belong;
    var taken, owner' := free[..k], Assigned(owner, free[..k], m);
    SplitBelongs(free, owner, k, m);
    forall n | n in chains
      ensures Belong(chains[n], n, owner')
    {
      OthersBelong(chains[n], n, owner, taken, m);
    }
    assert free == taken + free[k..];
    forall i | 0 <= i < BLOCKS
      ensures Placed(i, owner'[i], free[k..], chains[m := taken])
    {
      assert Placed(i, owner[i], free, chains);
    }
  }

  /** The first block of a chain goes back to the free ones. */
  lemma GiveKeepsOwned(free: seq<int>, chains: map<nat, seq<int>>, owner: seq<int>, m: nat)
    requires Owned(free, chains, owner) && m in chains && chains[m] != []
    ensures var b := chains[m][0];
      0 <= b < |owner| && Owned(free + [b], chains[m := chains[m][1..]], owner[b := -1])
  {
    var ids := chains[m];
    var b, rest := ids[0], ids[1..];
    assert Belong(ids, m, owner) && ids == [b] + rest;
    var chains', owner' := chains[m := rest], owner[b := -1];
    assert forall k | 0 <= k < |rest| :: rest[k] == ids[k + 1];
    assert Belong(rest, m, owner') && Belong(free + [b], -1, owner');
    forall i | 0 <= i < BLOCKS
      ensures Placed(i, owner'[i], free + [b], chains')
    {
      assert Placed(i, owner[i], free, chains);
    }
  }

  /** As many distinct numbers as there are below n. */
  lemma {:induction false} DistinctFit(ids: seq<int>, n: nat)
    requires Distinct(ids) && forall i | i in ids :: 0 <= i < n
    ensures |ids| <= n
    decreases n
  {
    if ids != [] {
      assert ids[0] in ids;
      if n - 1 in ids {
        var k :| 0 <= k < |ids| && ids[k] == n - 1;
        var rest := ids[..k] + ids[k + 1..];
        forall i | i in rest
          ensures 0 <= i < n - 1
        {
          var a :| 0 <= a < |rest| && rest[a] == i;
          assert i == ids[if a < k then a else a + 1] && i in ids;
        }
        DistinctFit(rest, n - 1);
      } else {
        DistinctFit(ids, n - 1);
      }
    }
  }

  lemma FreeFit(free: seq<int>, chains: map<nat, seq<int>>, owner: seq<int>)
    requires Owned(free, chains, owner)
    ensures |free| <= BLOCKS
    ensures forall m | m in chains && chains[m] != [] :: |free| < BLOCKS
  {
    DistinctFit(free, BLOCKS);
    forall m | m in chains && chains[m] != []
      ensures |free| < BLOCKS
    {
      GiveKeepsOwned(free, chains, owner, m);
      DistinctFit(free + [chains[m][0]], BLOCKS);
    }
  }
}
