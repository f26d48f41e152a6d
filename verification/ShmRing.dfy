/** ShmRing itself: the shared structure with its wrapping words and its data array, and the two
    calls as the code writes them, run without interruption. Between calls the structure is a
    state of the step system in RingProtocol that satisfies its invariant. */
module ShmRing {
  import opened Common
  import opened Modular
  import P = RingProtocol

  /** What the two memcpys of send_some leave at offset x. */
  ghost function Overlaid(data: seq<Byte>, off: nat, buf: seq<Byte>, x: nat): Byte
    requires off < |data| && |buf| <= |data| && x < |data|
  {
    if off <= x < off + |buf| then buf[x - off]
    else if x < off && x + |data| - off < |buf| then buf[x + |data| - off]
    else data[x]
  }

  /** Byte i of the stream, once buf is published behind it, is where the reader will look. */
  lemma OverlaidAt(s: P.State, buf: seq<Byte>, i: nat)
    requires P.Inv(s) && |s.published| + |buf| <= |s.received| + s.cap
    requires |s.received| <= i < |s.published| + |buf|
    ensures Overlaid(s.data, Place(s.tail, s.cap), buf, Place(i, s.cap)) == (s.published + buf)[i]
  {
    hide Place;
    var size := |s.published|;
    P.SlotOfCount(s.cap, size, 0);
    if i >= size {
      P.SlotOfCount(s.cap, size, i - size);
    } else {
      forall k | 0 <= k < |buf|
        ensures P.Slot(s.cap, s.tail, k) != Place(i, s.cap)
      {
        P.SlotOfCount(s.cap, size, k);
        PlacesDiffer(i, size + k, s.cap);
      }
      var off, x := Place(s.tail, s.cap), Place(i, s.cap);
      assert off <= x < off + |buf| ==> P.Slot(s.cap, s.tail, x - off) == x;
      assert x < off && x + s.cap - off < |buf| ==> P.Slot(s.cap, s.tail, x + s.cap - off) == x;
    }
  }

  lemma PublishKeeps(s: P.State, buf: seq<Byte>, s': P.State)
    requires P.Inv(s) && s.sender.SIdle? && s.receiver.RIdle?
    requires |s.published| + |buf| <= |s.received| + s.cap && |s'.data| == s.cap
    requires forall x | 0 <= x < s.cap :: s'.data[x] == Overlaid(s.data, Place(s.tail, s.cap), buf, x)
    requires s' == s.(tail := Wrap64(s.tail + |buf|), published := s.published + buf,
                      seenHead := |s.received|, data := s'.data)
    ensures P.Inv(s')
  {
    hide Place;
    PlaceAdd(|s.published|, |buf|, TWO64);
    forall i | |s.received| <= i < |s'.published|
      ensures s'.data[Place(i, s.cap)] == s'.published[i]
    {
      OverlaidAt(s, buf, i);
    }
  }

  /** memcpy into the ring's array. */
  method CopyIn(dst: array<Byte>, at: nat, src: seq<Byte>)
    requires at + |src| <= dst.Length
    modifies dst
    ensures forall x | 0 <= x < dst.Length ::
      dst[x] == if at <= x < at + |src| then src[x - at] else old(dst[x])
  {
    var i := 0;
    while i < |src|
      invariant 0 <= i <= |src|
      invariant forall x | 0 <= x < dst.Length ::
        dst[x] == if at <= x < at + i then src[x - at] else old(dst[x])
    {
      dst[at + i] := src[i];
      i := i + 1;
    }
  }

  /** The two memcpys of send_some, the second one from the beginning of the buffer. */
  method CopyInWrapped(dst: array<Byte>, off: nat, buf: seq<Byte>)
    requires off < dst.Length && |buf| <= dst.Length
    modifies dst
    ensures forall x | 0 <= x < dst.Length :: dst[x] == Overlaid(old(dst[..]), off, buf, x)
  {
    var first := Min(dst.Length - off, |buf|);
    CopyIn(dst, off, buf[..first]);
    if first < |buf| {
      CopyIn(dst, 0, buf[first..]);
    }
  }

  /** The two memcpys of recv_some. */
  method CopyOutWrapped(src: array<Byte>, off: nat, n: nat) returns (buf: seq<Byte>)
    requires off < src.Length && n <= src.Length
    ensures |buf| == n
    ensures forall i | 0 <= i < n ::
      buf[i] == src[if i < src.Length - off then off + i else i - (src.Length - off)]
  {
    var first := Min(src.Length - off, n);
    buf := src[off..off + first];
    if first < n {
      buf := buf + src[..n - first];
    }
  }

  lemma TakeKeeps(s: P.State, buf: seq<Byte>, s': P.State)
    requires P.Inv(s) && s.sender.SIdle? && s.receiver.RIdle?
    requires |buf| <= |s.published| - |s.received|
    requires forall i | 0 <= i < |buf| ::
      buf[i] == s.data[if i < s.cap - Place(s.head, s.cap) then Place(s.head, s.cap) + i
                       else i - (s.cap - Place(s.head, s.cap))]
    requires s' == s.(head := Wrap64(s.head + |buf|), received := s.received + buf,
                      seenTail := |s.published|)
    ensures P.Inv(s') && buf == s.published[|s.received|..|s.received| + |buf|]
  {
    hide Place;
    PlaceAdd(|s.received|, |buf|, TWO64);
    forall i | 0 <= i < |buf|
      ensures buf[i] == s.published[|s.received| + i]
    {
      P.SlotOfCount(s.cap, |s.received|, i);
    }
    assert s'.received == s'.published[..|s'.received|];
  }

  lemma Sizes(s: P.State)
    requires P.Inv(s)
    ensures 0 < s.cap == |s.data| < TWO64 && |s.received| <= |s.published| <= |s.received| + s.cap
    ensures Sub64(s.tail, s.head) == |s.published| - |s.received|
    ensures Sub64(s.cap, Sub64(s.tail, s.head)) == s.cap - (|s.published| - |s.received|)
  {
    hide Place;
    Distance64(|s.published|, |s.received|);
  }

  lemma BehindUnread(published: seq<Byte>, n: nat, buf: seq<Byte>)
    requires n <= |published|
    ensures (published + buf)[n..] == published[n..] + buf
  {
  }

  lemma FrontOfUnread(published: seq<Byte>, n: nat, m: nat)
    requires n + m <= |published|
    ensures published[n..] == published[n..n + m] + published[n + m..]
  {
  }

  class Ring {
    var tail: U64
    var head: U64
    var closed: bool
    const data: array<Byte>
    ghost var published: seq<Byte>
    ghost var received: seq<Byte>
    ghost var seenHead: nat
    ghost var seenTail: nat

    /** The ring between two calls. */
    ghost function View(): P.State
      reads this, data
    {
      P.State(data.Length, tail, head, closed, data[..], P.SIdle, P.RIdle, seenHead, seenTail,
              published, received)
    }

    ghost predicate Valid()
      reads this, data
    {
      P.Inv(View())
    }

    ghost function Unread(): seq<Byte>
      requires |received| <= |published|
      reads this
    {
      published[|received|..]
    }

    constructor (cap: nat)
      requires P.ValidCap(cap)
      ensures Valid() && P.Init(View()) && fresh(data) && data.Length == cap
    {
      data := new Byte[cap](_ => 0);
      tail, head, closed := 0, 0, false;
      published, received, seenHead, seenTail := [], [], 0, 0;
    }

    method Readable() returns (n: nat)
      requires Valid()
      ensures n == |Unread()|
    {
      Sizes(View());
      n := Sub64(tail, head);
    }

    method Writable() returns (n: nat)
      requires Valid()
      ensures n == data.Length - |Unread()|
    {
      Sizes(View());
      n := Sub64(data.Length, Sub64(tail, head));
    }

    method SetClosed()
      requires Valid()
      modifies this`closed
      ensures Valid() && View() == P.Next(old(View()), P.MarkClosed)
    {
      closed := true;
    }

    /** send_some: as many bytes as fit are appended to what the consumer has yet to read. */
    method SendSome(buf: seq<Byte>) returns (n: nat)
      requires Valid()
      modifies this`tail, this`published, this`seenHead, data
      ensures Valid()
      ensures n == Min(|buf|, data.Length - |old(Unread())|)
      ensures Unread() == old(Unread()) + buf[..n]
    {
      hide Place, P.Inv, Overlaid;
      ghost var s0 := View();
      Sizes(s0);
      var t, h := tail, head;
      var free := Sub64(data.Length, Sub64(t, h));
      if free == 0 {
        return 0;
      }
      n := Min(|buf|, free);
      CopyInWrapped(data, Place(t, data.Length), buf[..n]);
      tail := Wrap64(t + n);
      BehindUnread(published, |received|, buf[..n]);
      published := published + buf[..n];
      seenHead := |received|;
      PublishKeeps(s0, buf[..n], View());
    }

    /** recv_some: the oldest unread bytes, as many as the caller has room for. */
    method RecvSome(len: nat) returns (buf: seq<Byte>)
      requires Valid()
      modifies this`head, this`received, this`seenTail
      ensures Valid()
      ensures |buf| == Min(len, |old(Unread())|)
      ensures old(Unread()) == buf + Unread()
    {
      hide Place, P.Inv;
      ghost var s0 := View();
      Sizes(s0);
      var t, h := tail, head;
      var avail := Sub64(t, h);
      if avail == 0 {
        return [];
      }
      var n := Min(len, avail);
      buf := CopyOutWrapped(data, Place(h, data.Length), n);
      head := Wrap64(h + n);
      received := received + buf;
      seenTail := |published|;
      TakeKeeps(s0, buf, View());
      FrontOfUnread(published, |s0.received|, n);
    }
  }
}
