/** Long messages over a queue of small elements: a head that announces the length, and fragments of
    13 bytes that share its memory, so that the last one ends in whatever was there before. The
    queue between the two sides is a FIFO, as CreditQueue proves. */
module LongMessage {
  import opened Common
  import opened Modular

  const PIECE: nat := 13

  datatype Command = Head | Piece | OtherCommand

  /** metaqueue_ctl_element */
  datatype Element = Element(command: Command, raw: seq<Byte>)

  predicate Wide(e: Element) {
    |e.raw| == PIECE
  }

  // ---------------------------------------------------------------- the announced length

  function Le32(v: nat): (bs: seq<Byte>)
    requires v < TWO32
    ensures |bs| == 4
  {
    [v % 256, v / 256 % 256, v / 65536 % 256, v / 16777216]
  }

  function FromLe32(bs: seq<Byte>): (v: nat)
    requires |bs| == 4
    ensures v < TWO32
  {
    (bs[0] as int) + 256 * (bs[1] as int) + 65536 * (bs[2] as int) + 16777216 * (bs[3] as int)
  }

  lemma Le32RoundTrip(v: nat)
    requires v < TWO32
    ensures FromLe32(Le32(v)) == v
  {
    assert v == 256 * (v / 256) + v % 256;
    assert v / 256 == 256 * (v / 65536) + v / 256 % 256 by { assert v / 256 / 256 == v / 65536; }
    assert v / 65536 == 256 * (v / 16777216) + v / 65536 % 256 by { assert v / 65536 / 256 == v / 16777216; }
  }

  /** A 32-bit word read as an int and passed on as a size_t. */
  function IntToSize(v: nat): nat
    requires v < TWO32
  {
    if v < TWO32 / 2 then v else TWO64 - TWO32 + v
  }

  /** The length the receiver takes from the head: a size_t stored in an int. */
  function Announced(len: nat): nat {
    IntToSize(Place(len, TWO32))
  }

  /** The receiver gets the sender's length exactly when that fits an int (or is so large that sign
      extension restores it). */
  lemma LengthSurvives(len: nat)
    requires len < TWO64
    ensures Announced(len) == len <==> len < TWO32 / 2 || len >= TWO64 - TWO32 / 2
  {
    hide Place;
    PlaceIsRemainder(len, TWO32);
    if len < TWO32 {
      assert len % TWO32 == len;
    } else if len >= TWO64 - TWO32 {
      assert len == (TWO32 - 1) * TWO32 + (len - (TWO64 - TWO32));
      assert len % TWO32 == len - (TWO64 - TWO32);
    }
  }

  /** The first length that does not survive, and one that comes out much shorter. */
  lemma LengthsThatDoNot()
    ensures Announced(TWO32 / 2) == TWO64 - TWO32 / 2
    ensures Announced(TWO32 + 5) == 5
  {
    hide Place;
    PlaceIsRemainder(TWO32 / 2, TWO32);
    PlaceIsRemainder(TWO32 + 5, TWO32);
  }

  // ---------------------------------------------------------------- fragments

  /** The number of fragments of n bytes. */
  function Pieces(n: nat): nat {
    (n + PIECE - 1) / PIECE
  }

  function Fragments(data: seq<Byte>, raw: seq<Byte>): (es: seq<Element>)
    requires |raw| == PIECE
    ensures |es| == Pieces(|data|) && forall i | 0 <= i < |es| :: es[i].command.Piece? && Wide(es[i])
    decreases |data|
  {
    if data == [] then []
    else
      var n := Min(PIECE, |data|);
      var raw' := data[..n] + raw[n..];
      [Element(Piece, raw')] + Fragments(data[n..], raw')
  }

  /** The first len bytes held by the elements. */
  function Reassembled(es: seq<Element>, len: nat): (data: seq<Byte>)
    requires Pieces(len) <= |es| && forall i | 0 <= i < |es| :: Wide(es[i])
    ensures |data| == len
    decreases len
  {
    if len == 0 then []
    else
      var n := Min(PIECE, len);
      assert Wide(es[0]);
      es[0].raw[..n] + Reassembled(es[1..], len - n)
  }

  /** Reading n of the bytes gives the first n: whatever was in the memory before, and whatever follows
      in the queue. */
  lemma Front(data: seq<Byte>, raw: seq<Byte>, k: nat, n: nat)
    requires k == Min(PIECE, |data|) && n <= |data| && |raw| == PIECE
    ensures var j := Min(PIECE, n);
      (data[..k] + raw[k..])[..j] == data[..j] && (n - j <= |data| - k ==> data[..j] + data[k..][..n - j] == data[..n])
  {
    var j := Min(PIECE, n);
    if n > j {
      assert data[..j] + data[k..][..n - j] == data[..n];
    }
  }

  lemma {:induction false} FragmentsPrefix(data: seq<Byte>, raw: seq<Byte>, rest: seq<Element>, n: nat)
    requires |raw| == PIECE && n <= |data| && forall i | 0 <= i < |rest| :: Wide(rest[i])
    ensures Pieces(n) <= Pieces(|data|) && Reassembled(Fragments(data, raw) + rest, n) == data[..n]
    decreases |data|
  {
    if n > 0 {
      var k, j := Min(PIECE, |data|), Min(PIECE, n);
      var raw' := data[..k] + raw[k..];
      var all := Fragments(data, raw) + rest;
      assert all[0].raw == raw' && all[1..] == Fragments(data[k..], raw') + rest;
      FragmentsPrefix(data[k..], raw', rest, n - j);
      Front(data, raw, k, n);
    }
  }

  /** Round trip. */
  lemma FragmentsReassemble(data: seq<Byte>, raw: seq<Byte>, rest: seq<Element>)
    requires |raw| == PIECE && forall i | 0 <= i < |rest| :: Wide(rest[i])
    ensures Reassembled(Fragments(data, raw) + rest, |data|) == data
  {
    hide Fragments, Reassembled;
    FragmentsPrefix(data, raw, rest, |data|);
    assert data[..|data|] == data;
  }

  /** A message whose length comes out shorter is cut off there, and the rest of its fragments is left
      in the queue for whoever reads next. */
  lemma CutShort(data: seq<Byte>, raw: seq<Byte>, rest: seq<Element>)
    requires |raw| == PIECE && Announced(|data|) < |data| && forall i | 0 <= i < |rest| :: Wide(rest[i])
    ensures var n := Announced(|data|);
      Pieces(n) <= Pieces(|data|) && Reassembled(Fragments(data, raw) + rest, n) == data[..n] != data
  {
    hide Fragments, Reassembled;
    FragmentsPrefix(data, raw, rest, Announced(|data|));
  }

  // ---------------------------------------------------------------- the code

  /** push_longmsg. `junk` is what the element holds before it is filled. */
  method PushLongMsg(data: seq<Byte>, subcommand: nat, junk: seq<Byte>, q: seq<Element>) returns (q': seq<Element>)
    requires |junk| == PIECE && subcommand < 256
    ensures var head := Le32(Place(|data|, TWO32)) + Le32(subcommand) + junk[8..];
      q' == q + [Element(Head, head)] + Fragments(data, head)
  {
    hide Fragments, Le32, Place;
    var raw := Le32(Place(|data|, TWO32)) + Le32(subcommand) + junk[8..];
    q' := q + [Element(Head, raw)];
    ghost var sent, head, q1 := [], raw, q';
    var at := 0;
    while at < |data|
      invariant at <= |data| && |raw| == PIECE
      invariant q' == q1 + sent && sent + Fragments(data[at..], raw) == Fragments(data, head)
      decreases |data| - at
    {
      OneMorePiece(sent, data, at, raw);
      var n := Min(PIECE, |data| - at);
      raw := data[at..at + n] + raw[n..];
      q' := q' + [Element(Piece, raw)];
      sent := sent + [Element(Piece, raw)];
      at := at + n;
    }
    FragmentsNone(raw);
    assert data[at..] == [];
    assert sent + [] == sent;
  }

  lemma OneMorePiece(sent: seq<Element>, data: seq<Byte>, at: nat, raw: seq<Byte>)
    requires |raw| == PIECE && at < |data|
    ensures var n := Min(PIECE, |data| - at); var raw' := data[at..at + n] + raw[n..];
      (sent + [Element(Piece, raw')]) + Fragments(data[at + n..], raw') == sent + Fragments(data[at..], raw)
  {
    hide Fragments;
    var n := Min(PIECE, |data| - at);
    assert data[at..][..n] == data[at..at + n] && data[at..][n..] == data[at + n..];
    FragmentsStep(data[at..], raw);
  }

  lemma FragmentsStep(data: seq<Byte>, raw: seq<Byte>)
    requires |raw| == PIECE && data != []
    ensures var n := Min(PIECE, |data|); var raw' := data[..n] + raw[n..];
      Fragments(data, raw) == [Element(Piece, raw')] + Fragments(data[n..], raw')
  {
  }

  lemma FragmentsNone(raw: seq<Byte>)
    requires |raw| == PIECE
    ensures Fragments([], raw) == []
  {
  }

  /** pop_longmsg: takes as many elements as the length calls for; anything but a fragment among them
      is fatal. */
  method PopLongMsg(q: seq<Element>, len: nat) returns (ok: bool, data: seq<Byte>, rest: seq<Element>)
    requires Pieces(len) <= |q| && forall i | 0 <= i < |q| :: Wide(q[i])
    ensures ok <==> forall i | 0 <= i < Pieces(len) :: q[i].command.Piece?
    ensures ok ==> data == Reassembled(q, len) && rest == q[Pieces(len)..]
  {
    hide Reassembled, Pieces;
    var left: nat := len;
    var at: nat := 0;
    data := [];
    assert q[0..] == q;
    while left > 0
      invariant left <= len && at + Pieces(left) == Pieces(len)
      invariant forall i | 0 <= i < at :: q[i].command.Piece?
      invariant data + Reassembled(q[at..], left) == Reassembled(q, len)
      decreases left
    {
      PiecesStep(left);
      var e := q[at];
      ReassembledStep(q[at..], left);
      if !e.command.Piece? {
        return false, [], [];
      }
      var n := Min(PIECE, left);
      ghost var before, tail := data, Reassembled(q[at..], left);
      data := data + e.raw[..n];
      assert q[at..][1..] == q[at + 1..];
      left, at := left - n, at + 1;
      assert data + Reassembled(q[at..], left) == before + tail;
    }
    PiecesStep(0);
    ReassembledNone(q[at..]);
    assert data + [] == data;
    return true, data, q[at..];
  }

  lemma PiecesStep(n: nat)
    ensures if n == 0 then Pieces(n) == 0 else Pieces(n) == 1 + Pieces(n - Min(PIECE, n))
  {
  }

  lemma ReassembledStep(es: seq<Element>, len: nat)
    requires Pieces(len) <= |es| && (forall i | 0 <= i < |es| :: Wide(es[i])) && len > 0
    ensures var n := Min(PIECE, len);
      Pieces(len - n) <= |es[1..]| && Reassembled(es, len) == es[0].raw[..n] + Reassembled(es[1..], len - n)
  {
  }

  lemma ReassembledNone(es: seq<Element>)
    requires forall i | 0 <= i < |es| :: Wide(es[i])
    ensures Reassembled(es, 0) == []
  {
  }

  /** A message sent and received: the head gives the length, the fragments give the bytes, and what
      follows in the queue is left alone. */
  method RoundTrip(data: seq<Byte>, subcommand: nat, junk: seq<Byte>, more: seq<Element>)
      returns (ok: bool, out: seq<Byte>, rest: seq<Element>)
    requires |junk| == PIECE && subcommand < 256 && |data| < TWO32 / 2 && forall i | 0 <= i < |more| :: Wide(more[i])
    ensures ok && out == data && rest == more
  {
    hide Fragments, Reassembled, Place;
    var q := PushLongMsg(data, subcommand, junk, []);
    q := q + more;
    var head := q[0];
    var len := IntToSize(FromLe32(head.raw[..4]));
    PlaceIsRemainder(|data|, TWO32);
    Le32RoundTrip(Place(|data|, TWO32));
    LengthSurvives(|data|);
    assert head.raw[..4] == Le32(Place(|data|, TWO32));
    assert q[1..] == Fragments(data, head.raw) + more;
    FragmentsReassemble(data, head.raw, more);
    ok, out, rest := PopLongMsg(q[1..], len);
  }
}
