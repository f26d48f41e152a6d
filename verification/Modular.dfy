/** Arithmetic of wrapping indices: the 32- and 64-bit counters of the queues are reduced
    modulo a power of two, and a buffer whose size divides that power can be addressed by
    the wrapped counter as if it never wrapped. */
module Modular {

  const TWO32: nat := 0x1_0000_0000
  const TWO64: nat := 0x1_0000_0000_0000_0000

  type U32 = x: int | 0 <= x < 0x1_0000_0000
  type U64 = x: int | 0 <= x < 0x1_0000_0000_0000_0000

  function Min(a: nat, b: nat): nat {
    if a < b then a else b
  }

  predicate PowerOfTwo(n: nat)
  {
    n == 1 || (n > 1 && n % 2 == 0 && PowerOfTwo(n / 2))
  }

  /** The slot of position i in a buffer of m slots: the remainder of i by m. Stated by
      subtraction so that proofs about slots need no reasoning about division. */
  function Place(i: nat, m: nat): (r: nat)
    requires m > 0
    ensures r < m
  {
    if i < m then i else Place(i - m, m)
  }

  /** The 32-bit word of a counter. */
  function Wrap32(x: nat): U32 {
    Place(x, TWO32)
  }

  /** The 64-bit word of a counter. */
  function Wrap64(x: nat): U64 {
    Place(x, TWO64)
  }

  /** Unsigned subtraction of words. */
  function Sub64(a: U64, b: U64): U64 {
    if b <= a then a - b else a - b + TWO64
  }

  function Sub32(a: U32, b: U32): U32 {
    if b <= a then a - b else a - b + TWO32
  }

  // ---------------------------------------------------------------- slots

  lemma {:induction false} PlaceIsRemainder(i: nat, m: nat)
    requires m > 0
    ensures Place(i, m) == i % m
    decreases i
  {
    if i >= m {
      PlaceIsRemainder(i - m, m);
      var q, r := (i - m) / m, (i - m) % m;
      assert i == q * m + r + m;
      assert (q + 1) * m == q * m + m;
      RemainderUnique(i, m, q + 1, r);
    } else {
      RemainderUnique(i, m, 0, i);
    }
  }

  /** A multiple of m strictly between -m and m is zero. */
  lemma SmallMultiple(k: int, m: int)
    requires m > 0 && -m < k * m < m
    ensures k == 0
  {
    assert k >= 1 ==> (k - 1) * m >= 0;
    assert k <= -1 ==> (-k - 1) * m >= 0;
  }

  /** The quotient and remainder of a division are the only ones there are. */
  lemma RemainderUnique(x: int, m: int, q: int, r: int)
    requires m > 0 && 0 <= r < m && x == q * m + r
    ensures x % m == r && x / m == q
  {
    var k := x / m - q;
    assert k * m == (x / m) * m - q * m;
    assert k * m == r - x % m;
    SmallMultiple(k, m);
  }

  /** One turn of the buffer later, the same slot. */
  lemma PlaceTurns(i: nat, m: nat)
    requires m > 0
    ensures Place(i + m, m) == Place(i, m)
  {
  }

  lemma {:induction false} PlaceAdd(i: nat, j: nat, m: nat)
    requires m > 0
    ensures Place(Place(i, m) + j, m) == Place(i + j, m)
    decreases i
  {
    if i >= m {
      PlaceAdd(i - m, j, m);
      PlaceTurns(i - m + j, m);
    }
  }

  /** Two positions less than a buffer apart never share a slot. */
  lemma {:induction false} PlacesDiffer(i: nat, j: nat, m: nat)
    requires m > 0 && i < j < i + m
    ensures Place(i, m) != Place(j, m)
    decreases i
  {
    if i >= m {
      PlacesDiffer(i - m, j - m, m);
    }
  }

  /** Stepping k slots from the slot of i wraps at most once. */
  lemma PlaceAfter(i: nat, k: nat, m: nat)
    requires k < m
    ensures var off := Place(i, m);
      Place(i + k, m) == if k < m - off then off + k else k - (m - off)
  {
    PlaceAdd(i, k, m);
  }

  /** Reducing by a multiple of the buffer size first changes no slot. */
  lemma {:induction false} PlaceOfPlace(i: nat, w: nat, k: nat, m: nat)
    requires m > 0 && w > 0 && w == k * m
    ensures Place(Place(i, w), m) == Place(i, m)
    decreases i
  {
    if i >= w {
      PlaceOfPlace(i - w, w, k, m);
      PlaceTurnsMany(i - w, k, m);
    }
  }

  lemma {:induction false} PlaceTurnsMany(i: nat, k: nat, m: nat)
    requires m > 0
    ensures k * m >= 0 && Place(i + k * m, m) == Place(i, m)
    decreases k
  {
    if k > 0 {
      assert k * m == (k - 1) * m + m;
      PlaceTurnsMany(i, k - 1, m);
      PlaceTurns(i + (k - 1) * m, m);
    }
  }

  // ---------------------------------------------------------------- words

  /** The distance of two wrapped counters is the distance of the counters themselves. */
  lemma {:induction false} Distance64(a: nat, b: nat)
    requires b <= a < b + TWO64
    ensures Sub64(Wrap64(a), Wrap64(b)) == a - b
    decreases b
  {
    if b >= TWO64 {
      Distance64(a - TWO64, b - TWO64);
    } else if a >= TWO64 {
      assert Wrap64(a) == Place(a - TWO64, TWO64) == a - TWO64;
    }
  }

  lemma Small32(x: nat)
    requires x < TWO32
    ensures Wrap32(x) == x
  {
  }

  /** Counters that agree on 32 bits and are less than 2^32 apart are equal. */
  lemma SameWord32(a: nat, b: nat)
    requires a <= b < a + TWO32 && Wrap32(a) == Wrap32(b)
    ensures a == b
  {
    if a < b {
      PlacesDiffer(a, b, TWO32);
    }
  }

  // ---------------------------------------------------------------- powers of two

  /** A power of two divides every larger one. */
  lemma {:induction false} PowerOfTwoDivides(m: nat, w: nat) returns (k: nat)
    requires PowerOfTwo(m) && PowerOfTwo(w) && m <= w
    ensures w == k * m
  {
    if m == 1 {
      k := w;
    } else {
      k := PowerOfTwoDivides(m / 2, w / 2);
    }
  }

  lemma Double(n: nat)
    requires PowerOfTwo(n)
    ensures PowerOfTwo(2 * n)
  {
    assert (2 * n) / 2 == n && (2 * n) % 2 == 0;
  }

  lemma TimesSixteen(n: nat)
    requires PowerOfTwo(n)
    ensures PowerOfTwo(16 * n)
  {
    hide PowerOfTwo;
    Double(n);
    Double(2 * n);
    Double(4 * n);
    Double(8 * n);
  }

  lemma WordsArePowersOfTwo()
    ensures PowerOfTwo(TWO32) && PowerOfTwo(TWO64)
  {
    TimesSixteen(1);
    TimesSixteen(0x10);
    TimesSixteen(0x100);
    TimesSixteen(0x1000);
    TimesSixteen(0x1_0000);
    TimesSixteen(0x10_0000);
    TimesSixteen(0x100_0000);
    TimesSixteen(0x1000_0000);
    TimesSixteen(0x1_0000_0000);
    TimesSixteen(0x10_0000_0000);
    TimesSixteen(0x100_0000_0000);
    TimesSixteen(0x1000_0000_0000);
    TimesSixteen(0x1_0000_0000_0000);
    TimesSixteen(0x10_0000_0000_0000);
    TimesSixteen(0x100_0000_0000_0000);
    TimesSixteen(0x1000_0000_0000_0000);
  }

  /** A 64-bit index masks to the slot of the count it stands for. */
  lemma Slot64(count: nat, m: nat)
    requires PowerOfTwo(m) && m < TWO64
    ensures Place(Wrap64(count), m) == Place(count, m)
  {
    WordsArePowersOfTwo();
    var k := PowerOfTwoDivides(m, TWO64);
    PlaceOfPlace(count, TWO64, k, m);
  }

  /** A 32-bit index masks to the slot of the count it stands for. */
  lemma Slot32(count: nat, m: nat)
    requires PowerOfTwo(m) && m < TWO32
    ensures Place(Wrap32(count), m) == Place(count, m)
  {
    WordsArePowersOfTwo();
    var k := PowerOfTwoDivides(m, TWO32);
    PlaceOfPlace(count, TWO32, k, m);
  }
}
