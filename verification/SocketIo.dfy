/** The socket calls over a shared-memory connection set to non-blocking, each call running without
    interruption: send, recv, and the vectored forms, which do what one call on all the bytes would
    do. Blocking calls are steps of the system in DataPlane. */
module SocketIo {
  import opened Common
  import opened Modular
  import opened ShmRing
  import P = RingProtocol

  function Concat(bufs: seq<seq<Byte>>): seq<Byte> {
    if bufs == [] then [] else bufs[0] + Concat(bufs[1..])
  }

  lemma {:induction false} ConcatMore(bufs: seq<seq<Byte>>, i: nat)
    requires i < |bufs|
    ensures Concat(bufs[..i + 1]) == Concat(bufs[..i]) + bufs[i]
    decreases i
  {
    if i == 0 {
      assert bufs[..1][1..] == [] && bufs[..0] == [];
    } else {
      ConcatMore(bufs[1..], i - 1);
      assert bufs[..i + 1][1..] == bufs[1..][..i] && bufs[..i][1..] == bufs[1..][..i - 1];
    }
  }

  lemma {:induction false} ConcatFrom(bufs: seq<seq<Byte>>, i: nat)
    requires i <= |bufs|
    ensures Concat(bufs) == Concat(bufs[..i]) + Concat(bufs[i..])
    decreases i
  {
    if i == 0 {
      assert bufs[0..] == bufs && bufs[..0] == [];
    } else {
      ConcatFrom(bufs, i - 1);
      ConcatMore(bufs, i - 1);
      assert bufs[i - 1..][1..] == bufs[i..];
    }
  }

  /** Everything up to some byte of the i-th piece. */
  lemma ConcatPart(bufs: seq<seq<Byte>>, i: nat, n: nat)
    requires i < |bufs| && n <= |bufs[i]|
    ensures |Concat(bufs[..i])| + |bufs[i]| <= |Concat(bufs)|
    ensures Concat(bufs)[..|Concat(bufs[..i])| + n] == Concat(bufs[..i]) + bufs[i][..n]
  {
    hide Concat;
    ConcatMore(bufs, i);
    ConcatFrom(bufs, i + 1);
  }

  /** What a call reports: a count, or -1 when nothing could be done at once. */
  function Reported(asked: nat, done: nat): int {
    if asked > 0 && done == 0 then -1 else done
  }

  /** shm_send: as much as fits, or EAGAIN when nothing does. */
  method ShmSend(ring: Ring, buf: seq<Byte>) returns (r: int)
    requires ring.Valid()
    modifies ring, ring.data
    ensures ring.Valid() && ring.closed == old(ring.closed)
    ensures var n := Min(|buf|, ring.data.Length - |old(ring.Unread())|);
      r == Reported(|buf|, n) && ring.Unread() == old(ring.Unread()) + buf[..n]
  {
    hide P.Inv;
    Sane(ring);
    if |buf| == 0 {
      return 0;
    }
    var total := 0;
    while total < |buf|
      invariant ring.Valid() && total <= |buf| && ring.closed == old(ring.closed)
      invariant |ring.received| <= |ring.published| && |old(ring.Unread())| + total <= ring.data.Length
      invariant ring.Unread() == old(ring.Unread()) + buf[..total]
      decreases |buf| - total
    {
      var did := ring.SendSome(buf[total..]);
      assert buf[..total + did] == buf[..total] + buf[total..][..did];
      Sane(ring);
      total := total + did;
      if did == 0 {
        return if total > 0 then total else -1;
      }
    }
    return total;
  }

  lemma Sane(ring: Ring)
    requires ring.Valid()
    ensures |ring.received| <= |ring.published| && |ring.Unread()| <= ring.data.Length
  {
  }

  /** sendmsg is one send of all the bytes. */
  method SendMsg(ring: Ring, iovs: seq<seq<Byte>>, controlLen: nat) returns (r: int)
    requires ring.Valid()
    modifies ring, ring.data
    ensures ring.Valid() && ring.closed == old(ring.closed)
    ensures controlLen > 0 ==> r == -1 && ring.Unread() == old(ring.Unread())
    ensures controlLen == 0 ==>
      var n := Min(|Concat(iovs)|, ring.data.Length - |old(ring.Unread())|);
      r == Reported(|Concat(iovs)|, n) && ring.Unread() == old(ring.Unread()) + Concat(iovs)[..n]
  {
    hide P.Inv, Concat;
    Sane(ring);
    if controlLen > 0 {
      return -1;
    }
    var total := 0;
    NoBytes();
    assert iovs[..0] == [];
    for i := 0 to |iovs|
      invariant ring.Valid() && |ring.received| <= |ring.published| && ring.closed == old(ring.closed)
      invariant total == |Concat(iovs[..i])| <= ring.data.Length - |old(ring.Unread())|
      invariant ring.Unread() == old(ring.Unread()) + Concat(iovs[..i])
    {
      ConcatMore(iovs, i);
      Sane(ring);
      if |iovs[i]| == 0 {
        continue;
      }
      ghost var n := Min(|iovs[i]|, ring.data.Length - |ring.Unread()|);
      ConcatPart(iovs, i, n);
      Regrouped(old(ring.Unread()), Concat(iovs[..i]), iovs[i][..n]);
      var sent := ShmSend(ring, iovs[i]);
      Sane(ring);
      if sent < 0 {
        return if total > 0 then total else -1;
      }
      total := total + sent;
      if sent < |iovs[i]| {
        return total;
      }
    }
    assert iovs[..|iovs|] == iovs;
    return total;
  }

  lemma NoBytes()
    ensures Concat([]) == []
  {
  }

  /** shm_recv: the oldest bytes, 0 at the end of a closed ring, EAGAIN otherwise. Peeking is not
      supported. */
  method ShmRecv(ring: Ring, len: nat, peek: bool) returns (r: int, buf: seq<Byte>)
    requires ring.Valid()
    modifies ring
    ensures ring.Valid() && ring.closed == old(ring.closed)
    ensures old(ring.Unread()) == buf + ring.Unread()
    ensures |buf| == if peek then 0 else Min(len, |old(ring.Unread())|)
    ensures r == if ring.closed && !peek then |buf| else Reported(len, |buf|)
  {
    hide P.Inv;
    Sane(ring);
    buf := [];
    if len == 0 {
      return 0, [];
    }
    if peek {
      return -1, [];
    }
    buf := ring.RecvSome(len);
    Sane(ring);
    if |buf| > 0 {
      return |buf|, buf;
    }
    var left := ring.Readable();
    if ring.closed && left == 0 {
      return 0, [];
    }
    return -1, [];
  }

  function Sum(lens: seq<nat>): nat {
    if lens == [] then 0 else lens[0] + Sum(lens[1..])
  }

  lemma {:induction false} SumFrom(lens: seq<nat>, i: nat)
    requires i < |lens|
    ensures Sum(lens[..i + 1]) == Sum(lens[..i]) + lens[i] <= Sum(lens)
    decreases i
  {
    if i == 0 {
      assert lens[..1][1..] == [] && lens[..0] == [];
    } else {
      SumFrom(lens[1..], i - 1);
      assert lens[..i + 1][1..] == lens[1..][..i] && lens[..i][1..] == lens[1..][..i - 1];
    }
  }

  /** Buffers filled in order: each but the last to the brim. */
  ghost predicate Filled(bufs: seq<seq<Byte>>, lens: seq<nat>) {
    && |bufs| <= |lens|
    && (forall i | 0 <= i < |bufs| :: |bufs[i]| <= lens[i])
    && (forall i | 0 <= i < |bufs| - 1 :: |bufs[i]| == lens[i])
  }

  /** recvmsg is one recv for all the room, spread over the buffers in order. */
  method RecvMsg(ring: Ring, lens: seq<nat>) returns (r: int, bufs: seq<seq<Byte>>)
    requires ring.Valid()
    modifies ring
    ensures ring.Valid() && ring.closed == old(ring.closed)
    ensures old(ring.Unread()) == Concat(bufs) + ring.Unread()
    ensures |Concat(bufs)| == Min(Sum(lens), |old(ring.Unread())|) && Filled(bufs, lens)
    ensures r == if ring.closed then |Concat(bufs)| else Reported(Sum(lens), |Concat(bufs)|)
  {
    hide P.Inv, Concat, Sum;
    Sane(ring);
    var total := 0;
    bufs := [];
    NoBytes();
    NoRoom();
    assert lens[..0] == [];
    for i := 0 to |lens|
      invariant ring.Valid() && |ring.received| <= |ring.published| && ring.closed == old(ring.closed)
      invariant old(ring.Unread()) == Concat(bufs) + ring.Unread()
      invariant |bufs| == i && forall k | 0 <= k < i :: |bufs[k]| == lens[k]
      invariant total == |Concat(bufs)| == Sum(lens[..i])
    {
      SumFrom(lens, i);
      ghost var before, left := bufs, ring.Unread();
      var got, buf := 0, [];
      if lens[i] > 0 {
        got, buf := ShmRecv(ring, lens[i], false);
      }
      Sane(ring);
      bufs := bufs + [buf];
      OneMoreBuffer(before, buf);
      Regrouped(Concat(before), buf, ring.Unread());
      if lens[i] == 0 {
        continue;
      }
      if got < 0 {
        return if total > 0 then total else -1, bufs;
      }
      if got == 0 {
        return total, bufs;
      }
      total := total + got;
      if got < lens[i] {
        return total, bufs;
      }
    }
    assert lens[..|lens|] == lens;
    return total, bufs;
  }

  lemma NoRoom()
    ensures Sum([]) == 0
  {
  }

  lemma OneMoreBuffer(bufs: seq<seq<Byte>>, buf: seq<Byte>)
    ensures Concat(bufs + [buf]) == Concat(bufs) + buf
  {
    var all := bufs + [buf];
    ConcatMore(all, |bufs|);
    assert all[..|bufs|] == bufs && all[..|bufs| + 1] == all;
  }
}
