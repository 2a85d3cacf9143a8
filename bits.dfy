/**
 * Byte and word arithmetic shared by the register file, the memory bus and
 * the picture unit.  Go's `byte` and `uint16` are modelled as bounded
 * integers; every wrap-around is written out with `%` where the source relies
 * on it, and bit tests are defined through a logical right shift.
 */
module Bits {

  /** Go's `byte`. */
  type Byte = x: int | 0 <= x < 0x100

  /** Go's `uint16`. */
  type Word = x: int | 0 <= x < 0x1_0000

  /** 2 to the power k. */
  function Pow2(k: nat): (r: nat)
    ensures r >= 1
  {
    if k == 0 then 1 else 2 * Pow2(k - 1)
  }

  /** Logical right shift, n >> k. */
  function Shr(n: nat, k: nat): nat
  {
    if k == 0 then n else Shr(n / 2, k - 1)
  }

  /**
   * hasBit: `n & (1 << pos) > 0` on uint16 operands.  In Go the shifted
   * constant is a uint16, so it is 0 (and the test false) once pos >= 16.
   */
  predicate HasBit(n: Word, pos: Word)
    ensures HasBit(n, pos) ==> pos < 16 && n > 0
  {
    ShrIsDiv(n, pos);
    pos < 16 && Shr(n, pos) % 2 == 1
  }

  /** `(x & mask) >> i` for `mask = 1 << i`: bit i of x as the number 0 or 1. */
  function BitValue(x: Byte, i: Word): (r: Byte)
    ensures r <= 1
    ensures r == 1 <==> HasBit(x, i)
  {
    if HasBit(x, i) then 1 else 0
  }

  /** Bitwise `x & y` on bytes. */
  function And8(x: Byte, y: Byte): Byte
  {
    ((x as bv8) & (y as bv8)) as int
  }

  /** Bitwise `x | y` on bytes. */
  function Or8(x: Byte, y: Byte): Byte
  {
    ((x as bv8) | (y as bv8)) as int
  }

  /** Bitwise `x ^ y` on bytes. */
  function Xor8(x: Byte, y: Byte): Byte
  {
    ((x as bv8) ^ (y as bv8)) as int
  }

  /**
   * Bitwise complement `^x` of a byte, as the difference from 0xFF; lemma
   * Not8FlipsBits shows that every one of the eight bits is inverted.
   */
  function Not8(x: Byte): Byte
  {
    0xFF - x
  }

  /** Within k bits, 2^k - 1 - x has bit i exactly where x does not. */
  lemma {:induction false} ComplementDigit(k: nat, x: nat, i: nat)
    requires x < Pow2(k) && i < k
    ensures Shr(Pow2(k) - 1 - x, i) % 2 == 1 - Shr(x, i) % 2
  {
    if i > 0 {
      var y := Pow2(k) - 1 - x;
      DivMod(y, 2, Pow2(k - 1) - 1 - x / 2, 1 - x % 2);
      ComplementDigit(k - 1, x / 2, i - 1);
    }
  }

  /** The complement inverts each of the eight bits and keeps the (clear) high ones. */
  lemma Not8FlipsBits(x: Byte, i: Word)
    ensures HasBit(Not8(x), i) <==> i < 8 && !HasBit(x, i)
  {
    if i < 8 {
      Pow2Eight();
      ComplementDigit(8, x, i);
    } else {
      ByteHighBitsClear(Not8(x), i);
      ByteHighBitsClear(x, i);
    }
  }

  /**
   * `((v & 0xf) << 4) | ((v & 0xf0) >> 4)`: the low nibble moves up and the
   * high nibble moves down.  The two shifted parts share no bit, so the `|`
   * is a sum.
   */
  function SwapNibbles(v: Byte): (r: Byte)
    ensures r % 16 == v / 16 && r / 16 == v % 16
  {
    (v % 16) * 16 + v / 16
  }

  /** Swapping the nibbles twice gives the byte back. */
  lemma SwapNibblesInvolution(v: Byte)
    ensures SwapNibbles(SwapNibbles(v)) == v
  {
  }

  /** One more shift halves: n >> (k + 1) == (n >> k) / 2. */
  lemma {:induction false} ShrSucc(n: nat, k: nat)
    ensures Shr(n, k + 1) == Shr(n, k) / 2
  {
    if k > 0 {
      ShrSucc(n / 2, k - 1);
    }
  }

  /** Bits at or above the width of n are zero. */
  lemma {:induction false} ShrBeyondWidth(n: nat, k: nat, i: nat)
    requires n < Pow2(k) && k <= i
    ensures Shr(n, i) == 0
  {
    if i > 0 {
      if k > 0 {
        ShrBeyondWidth(n / 2, k - 1, i - 1);
      } else {
        ShrBeyondWidth(n / 2, 0, i - 1);
      }
    }
  }

  /** A byte has no bit 8 and above: hasBit of a zero-extended byte is false there. */
  lemma ByteHighBitsClear(x: Byte, i: Word)
    requires i >= 8
    ensures !HasBit(x, i)
  {
    ShrBeyondWidth(x, 8, i);
  }

  /** Adding 2^p to a number whose bit p is clear sets bit p and keeps every other bit. */
  lemma {:induction false} AddClearBit(n: nat, p: nat, i: nat)
    requires Shr(n, p) % 2 == 0
    ensures Shr(n + Pow2(p), i) % 2 == if i == p then 1 else Shr(n, i) % 2
  {
    if p == 0 {
      if i > 0 {
        assert (n + 1) / 2 == n / 2;
      }
    } else if i > 0 {
      assert (n + Pow2(p)) / 2 == n / 2 + Pow2(p - 1);
      AddClearBit(n / 2, p - 1, i - 1);
    }
  }

  /** A number whose bit p is set is at least 2^p, and removing 2^p clears that bit. */
  lemma {:induction false} SubSetBit(n: nat, p: nat)
    requires Shr(n, p) % 2 == 1
    ensures n >= Pow2(p) && Shr(n - Pow2(p), p) % 2 == 0
  {
    if p > 0 {
      SubSetBit(n / 2, p - 1);
      assert (n - Pow2(p)) / 2 == n / 2 - Pow2(p - 1);
    }
  }

  /** Setting a clear bit below the width of n stays below that width. */
  lemma {:induction false} AddClearBitBound(n: nat, p: nat, k: nat)
    requires n < Pow2(k) && p < k && Shr(n, p) % 2 == 0
    ensures n + Pow2(p) < Pow2(k)
  {
    var half := Pow2(k - 1);
    assert Pow2(k) == 2 * half;
    DivMod(n, 2, n / 2, n % 2);
    if p > 0 {
      assert Pow2(p) == 2 * Pow2(p - 1);
      AddClearBitBound(n / 2, p - 1, k - 1);
    }
  }

  /** 2^8 is one past the largest byte. */
  lemma Pow2Eight()
    ensures Pow2(8) == 0x100
  {
    assert Pow2(2) == 4;
    assert Pow2(4) == 16;
    assert Pow2(6) == 64;
  }

  /** `x | (1 << p)` on a byte whose bit p is clear: x + 2^p, with only bit p changed. */
  lemma SetBitOfByte(x: Byte, p: Word)
    requires p < 8 && !HasBit(x, p)
    ensures x + Pow2(p) < 0x100
    ensures forall i: Word :: HasBit(x + Pow2(p), i) == (i == p || HasBit(x, i))
  {
    Pow2Eight();
    AddClearBitBound(x, p, 8);
    forall i: Word
      ensures HasBit(x + Pow2(p), i) == (i == p || HasBit(x, i))
    {
      AddClearBit(x, p, i);
    }
  }

  /** `x &^ (1 << p)` on a byte whose bit p is set: x - 2^p, with only bit p changed. */
  lemma ClearBitOfByte(x: Byte, p: Word)
    requires p < 8 && HasBit(x, p)
    ensures x - Pow2(p) >= 0
    ensures forall i: Word :: HasBit(x - Pow2(p), i) == (i != p && HasBit(x, i))
  {
    SubSetBit(x, p);
    var y := x - Pow2(p);
    forall i: Word
      ensures HasBit(y, i) == (i != p && HasBit(x, i))
    {
      AddClearBit(y, p, i);
    }
  }

  /** Numbers below 2^k that agree on bits 0 .. k-1 are equal. */
  lemma {:induction false} BitsDetermine(x: nat, y: nat, k: nat)
    requires x < Pow2(k) && y < Pow2(k)
    requires forall i: nat :: i < k ==> Shr(x, i) % 2 == Shr(y, i) % 2
    ensures x == y
  {
    if k > 0 {
      assert Shr(x, 0) % 2 == Shr(y, 0) % 2;
      forall i: nat | i < k - 1
        ensures Shr(x / 2, i) % 2 == Shr(y / 2, i) % 2
      {
        assert Shr(x, i + 1) % 2 == Shr(y, i + 1) % 2;
      }
      BitsDetermine(x / 2, y / 2, k - 1);
    }
  }

  /** Two bytes with the same eight bits are the same byte. */
  lemma ByteExtensionality(x: Byte, y: Byte)
    requires forall i: Word :: i < 8 ==> HasBit(x, i) == HasBit(y, i)
    ensures x == y
  {
    Pow2Eight();
    forall i: nat | i < 8
      ensures Shr(x, i) % 2 == Shr(y, i) % 2
    {
      assert HasBit(x, i) == HasBit(y, i);
    }
    BitsDetermine(x, y, 8);
  }

  /** Halving twice is dividing by the product: (n / 2) / m == n / (2 * m). */
  lemma DivHalf(n: nat, m: nat)
    requires m >= 1
    ensures (n / 2) / m == n / (2 * m)
  {
    var q := n / (2 * m);
    var t := n % (2 * m);
    assert n == (2 * m) * q + t;
    assert n / 2 == m * q + t / 2;
    assert 0 <= t / 2 < m;
    DivUnique(n / 2, m, q, t / 2);
  }

  /** Quotients are unique: a == m * q + t with 0 <= t < m gives a / m == q. */
  lemma DivUnique(a: int, m: int, q: int, t: int)
    requires m >= 1 && 0 <= t < m && a == m * q + t
    ensures a / m == q
  {
    var q' := a / m;
    var t' := a % m;
    assert a == m * q' + t';
    if q' > q {
      var d := q' - q;
      assert m * q' == m * q + m * d;
      AtLeastOnce(m, d);
    } else if q' < q {
      var d := q - q';
      assert m * q == m * q' + m * d;
      AtLeastOnce(m, d);
    }
  }

  /** Quotient and remainder together: a == m * q + t with 0 <= t < m. */
  lemma DivMod(a: int, m: int, q: int, t: int)
    requires m >= 1 && 0 <= t < m && a == m * q + t
    ensures a / m == q && a % m == t
  {
    DivUnique(a, m, q, t);
  }

  /** A positive multiple of m is at least m. */
  lemma AtLeastOnce(m: int, d: int)
    requires m >= 1 && d >= 1
    ensures m * d >= m
  {
    assert m * d == m + m * (d - 1);
  }

  /** The shift is division by a power of two. */
  lemma {:induction false} ShrIsDiv(n: nat, k: nat)
    ensures Shr(n, k) == n / Pow2(k)
  {
    if k > 0 {
      ShrIsDiv(n / 2, k - 1);
      DivHalf(n, Pow2(k - 1));
    }
  }

  /** Bit 7 of a byte is set exactly when the byte is at least 0x80. */
  lemma TopBitOfByte(x: Byte)
    ensures HasBit(x, 7) <==> x >= 0x80
  {
    ShrIsDiv(x, 7);
    assert Pow2(7) == 0x80 by { Pow2Eight(); }
    if x >= 0x80 {
      DivMod(x, 0x80, 1, x - 0x80);
    } else {
      DivMod(x, 0x80, 0, x);
    }
  }

  /** hasBit tests binary digit `pos` of n: the digit (n / 2^pos) mod 2 is 1. */
  lemma HasBitIsDigit(n: Word, pos: Word)
    ensures HasBit(n, pos) <==> pos < 16 && (n / Pow2(pos)) % 2 == 1
  {
    ShrIsDiv(n, pos);
  }

  // ----- Words as two bytes -----

  /**
   * The uint16 whose high byte is `high` and low byte is `low`:
   * `(uint16(high) << 8) + uint16(low)`.
   */
  function Word16(high: Byte, low: Byte): Word
  {
    high * 0x100 + low
  }

  /** `byte(w >> 8)`. */
  function HighByte(w: Word): Byte
  {
    w / 0x100
  }

  /** `byte(w)`. */
  function LowByte(w: Word): Byte
  {
    w % 0x100
  }

  /** Splitting a word into its bytes and joining them again gives the word. */
  lemma SplitJoin(w: Word)
    ensures Word16(HighByte(w), LowByte(w)) == w
  {
  }

  /** Joining two bytes and splitting the word gives the bytes back. */
  lemma JoinSplit(high: Byte, low: Byte)
    ensures HighByte(Word16(high, low)) == high && LowByte(Word16(high, low)) == low
  {
  }
}
