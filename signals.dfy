/** Fixed-width values and the bit-level helpers the gateware uses.
    migen signals are unsigned bit vectors; here they are bounded integers and
    every truncation, slice and wrap-around is written out. */
module Signals {

  /** An 8-bit bus value (the `data` field of the byte stream layout). */
  type Byte = b: int | 0 <= b < 0x100

  /** A 16-bit memory word or memory address. */
  type Word = w: int | 0 <= w < 0x1_0000

  /** Number of distinct 16-bit values. */
  const WordRange: nat := 0x1_0000

  datatype Option<T> = None | Some(value: T)

  function Min(a: int, b: int): int { if a <= b then a else b }

  function Pow2(k: nat): (r: nat)
    ensures r >= 1
  {
    if k == 0 then 1 else 2 * Pow2(k - 1)
  }

  /** The width migen gives an unsigned signal that must hold `v`
      (at least one bit, as for `Signal(max=1)`). */
  function BitsFor(v: nat): (r: nat)
    ensures 1 <= r && v < Pow2(r)
    ensures r > 1 ==> Pow2(r - 1) <= v
  {
    if v < 2 then 1 else 1 + BitsFor(v / 2)
  }

  /** Truncating to a narrower width never increases a value. */
  lemma ModAtMost(x: nat, m: nat)
    requires m > 0
    ensures x % m <= x && x % m < m
  {
    if x >= m {
      assert x == (x / m) * m + x % m;
      assert x / m >= 1;
      MulSign(x / m, m);
    }
  }

  lemma WrapAddOne(x: nat)
    ensures (x + 1) % WordRange == (x % WordRange + 1) % WordRange
  {
  }

  lemma ModSmall(x: nat, m: nat)
    requires x < m
    ensures x % m == x
  {
  }

  /** Bit `i` of `x`, counting from the least significant bit 0; for every
      `x` and `i` it is `(x / 2^i) % 2 == 1` (`BitIsDigit`). */
  predicate Bit(x: nat, i: nat)
    decreases i
  {
    if i == 0 then x % 2 == 1 else Bit(x / 2, i - 1)
  }

  lemma {:induction false} BitIsDigit(x: nat, i: nat)
    ensures Bit(x, i) <==> (x / Pow2(i)) % 2 == 1
    decreases i
  {
    if i > 0 {
      BitIsDigit(x / 2, i - 1);
      HalfSplit(x, Pow2(i - 1));
    }
  }

  /** Bit `i` of `x / 2^k` is bit `i + k` of `x`: a right shift. */
  lemma {:induction false} BitShift(x: nat, k: nat, q: nat, i: nat)
    requires q == x / Pow2(k)
    ensures Bit(q, i) == Bit(x, i + k)
    decreases k
  {
    if k > 0 {
      HalfSplit(x, Pow2(k - 1));
      BitShift(x / 2, k - 1, q, i);
    }
  }

  /** Truncating to `k` bits keeps the bits below `k`. */
  lemma {:induction false} BitLow(x: nat, k: nat, i: nat)
    requires i < k
    ensures Bit(x % Pow2(k), i) == Bit(x, i)
    decreases i
  {
    HalfSplit(x, Pow2(k - 1));
    if i > 0 {
      BitLow(x / 2, k - 1, i - 1);
    }
  }

  /** A value below `2^k` has no bit at `k` or above. */
  lemma {:induction false} BitHigh(x: nat, k: nat, i: nat)
    requires x < Pow2(k) && k <= i
    ensures !Bit(x, i)
    decreases i
  {
    if i > 0 {
      BitHigh(x / 2, if k == 0 then 0 else k - 1, i - 1);
    }
  }

  /** Two `k`-bit values are equal exactly when all their `k` bits are. */
  lemma BitsEqual(a: nat, b: nat, k: nat)
    requires a < Pow2(k) && b < Pow2(k)
    ensures (forall i :: 0 <= i < k ==> Bit(a, i) == Bit(b, i)) ==> a == b
    ensures a == b ==> forall i :: 0 <= i < k ==> Bit(a, i) == Bit(b, i)
  {
    if forall i :: 0 <= i < k ==> Bit(a, i) == Bit(b, i) {
      SameBits(a, b, k);
    }
  }

  lemma {:induction false} SameBits(a: nat, b: nat, k: nat)
    requires a < Pow2(k) && b < Pow2(k)
    requires forall i :: 0 <= i < k ==> Bit(a, i) == Bit(b, i)
    ensures a == b
    decreases k
  {
    if k > 0 {
      assert Bit(a, 0) == Bit(b, 0);
      forall i | 0 <= i < k - 1 ensures Bit(a / 2, i) == Bit(b / 2, i) {
        assert Bit(a, i + 1) == Bit(b, i + 1);
      }
      SameBits(a / 2, b / 2, k - 1);
    }
  }

  /** A `width`-bit bitwise inverse, as `~s` on a `width`-bit unsigned
      signal: every one of the `width` bits is flipped, and none above. */
  function Invert(v: nat, width: nat): (r: nat)
    ensures r < Pow2(width)
    ensures forall i :: 0 <= i < width ==> Bit(r, i) != Bit(v, i)
    decreases width
  {
    if width == 0 then 0 else 2 * Invert(v / 2, width - 1) + (1 - v % 2)
  }

  /** The inverse and the truncated value add up to all ones. */
  lemma {:induction false} InvertSum(v: nat, width: nat)
    ensures Invert(v, width) + v % Pow2(width) == Pow2(width) - 1
    decreases width
  {
    if width > 0 {
      InvertSum(v / 2, width - 1);
      HalfSplit(v, Pow2(width - 1));
    }
  }

  /** Dividing by `2 * m` is halving and then dividing by `m`; the low bits
      modulo `2 * m` are those of `v / 2` modulo `m` with bit 0 appended. */
  lemma HalfSplit(v: nat, m: nat)
    requires m >= 1
    ensures v / (2 * m) == (v / 2) / m
    ensures v % (2 * m) == 2 * ((v / 2) % m) + v % 2
  {
    var q, t := (v / 2) / m, (v / 2) % m;
    assert v == (2 * m) * q + (2 * t + v % 2);
    DivModUnique(v, 2 * m, q, 2 * t + v % 2);
  }

  /** Euclidean division is unique. */
  lemma DivModUnique(x: nat, m: nat, q: nat, rem: nat)
    requires m >= 1 && x == m * q + rem && rem < m
    ensures x / m == q && x % m == rem
  {
    var q', rem' := x / m, x % m;
    assert (q' - q) * m == rem - rem';
    MulSign(q' - q, m);
  }

  lemma MulSign(k: int, m: int)
    requires m >= 1
    ensures k >= 1 ==> k * m >= m
    ensures k <= -1 ==> k * m <= -m
  {
  }

  /** `adr + 1` on a 16-bit signal: the increment wraps from 0xFFFF to 0. */
  function Inc16(w: Word): (r: Word)
    ensures w < 0xFFFF ==> r == w + 1
    ensures w == 0xFFFF ==> r == 0
  {
    (w + 1) % WordRange
  }

  /** How many increments of a 16-bit pointer lead from `from` to `to`. */
  function Offset(from: Word, to: Word): (r: nat)
    ensures r < WordRange
    ensures (from + r) % WordRange == to
  {
    (to - from) % WordRange
  }

  lemma OffsetAfterInc(from: Word, to: Word)
    requires from != to
    ensures Offset(Inc16(from), to) == Offset(from, to) - 1
  {
  }

  lemma OffsetSelf(from: Word)
    ensures Offset(from, from) == 0
    ensures Offset(Inc16(from), from) == WordRange - 1
  {
  }
}
