/**
 * Machine integers and the bit operations that `match.h` applies to them.
 *
 * Every C value here is a mathematical integer restricted to its range.
 * A pointer-sized word (`void*`, `uintptr_t`, `uint64_t`) is an integer in
 * [0, 2^64); `intptr_t` is a 64-bit two's-complement integer.  `&` and `|`
 * are defined bit by bit, so the encoders in module Encoding can be written
 * with the operators the macros use, and the lemmas below turn them into
 * arithmetic.
 */
module Bits {

  const TWO_15: int := 0x8000
  const TWO_16: int := 0x1_0000
  const TWO_32: int := 0x1_0000_0000
  const TWO_60: int := 0x1000_0000_0000_0000
  const TWO_63: int := 0x8000_0000_0000_0000
  const TWO_64: int := 0x1_0000_0000_0000_0000

  /** `uintptr_t`, `uint64_t` and the bits of a `void*`. */
  type Word = x: int | 0 <= x < TWO_64

  /** `intptr_t` (and `int64_t`). */
  type Int64 = x: int | -TWO_63 <= x < TWO_63

  /** C `int` on the platforms the library targets. */
  type Int32 = x: int | -0x8000_0000 <= x < 0x8000_0000

  /** `int16_t`. */
  type Int16 = x: int | -TWO_15 <= x < TWO_15

  function Pow2(k: nat): (r: nat)
    ensures r >= 1
  {
    if k == 0 then 1 else 2 * Pow2(k - 1)
  }

  lemma {:induction false} Pow2Add(a: nat, b: nat)
    ensures Pow2(a + b) == Pow2(a) * Pow2(b)
  {
    if a > 0 {
      Pow2Add(a - 1, b);
    }
  }

  lemma Pow2Small()
    ensures Pow2(4) == 16 && Pow2(8) == 256
  {
    Pow2Add(4, 4);
  }

  lemma Pow2Mid()
    ensures Pow2(16) == TWO_16 && Pow2(32) == TWO_32
  {
    Pow2Small();
    Pow2Add(8, 8);
    Pow2Add(16, 16);
  }

  lemma Pow2At48()
    ensures Pow2(48) == 0x1_0000_0000_0000
  {
    Pow2Mid();
    Pow2Add(32, 16);
  }

  lemma Pow2At56()
    ensures Pow2(56) == 0x100_0000_0000_0000
  {
    Pow2At48();
    Pow2Small();
    Pow2Add(48, 8);
  }

  lemma Pow2At60()
    ensures Pow2(60) == TWO_60
  {
    Pow2At56();
    Pow2Small();
    Pow2Add(56, 4);
  }

  lemma Pow2At64()
    ensures Pow2(64) == TWO_64
  {
    Pow2At60();
    Pow2Small();
    Pow2Add(60, 4);
  }

  /** The powers of two that name the fields of a pattern word. */
  lemma Pow2Constants()
    ensures Pow2(4) == 16
    ensures Pow2(16) == TWO_16 && Pow2(32) == TWO_32
    ensures Pow2(60) == TWO_60 && Pow2(64) == TWO_64
  {
    Pow2Small();
    Pow2Mid();
    Pow2At60();
    Pow2At64();
  }

  /** Bitwise `&` on non-negative integers, one bit at a time from the bottom. */
  function BitAnd(a: nat, b: nat): nat
  {
    if a == 0 || b == 0 then 0
    else 2 * BitAnd(a / 2, b / 2) + (if a % 2 == 1 && b % 2 == 1 then 1 else 0)
  }

  /** Bitwise `|` on non-negative integers, one bit at a time from the bottom. */
  function BitOr(a: nat, b: nat): nat
  {
    if a == 0 then b
    else if b == 0 then a
    else 2 * BitOr(a / 2, b / 2) + (if a % 2 == 1 || b % 2 == 1 then 1 else 0)
  }

  /** `w >> k` on an unsigned word. */
  function Shr(w: Word, k: nat): Word
  {
    DivAtMost(w, Pow2(k));
    w / Pow2(k)
  }

  /** `w << k` on a `uint64_t`: bits pushed past bit 63 are lost. */
  function Shl(w: Word, k: nat): Word
  {
    (w * Pow2(k)) % TWO_64
  }

  /** The C conversion of an integer value to `uintptr_t` / `uint64_t`. */
  function ToUintptr(v: int): Word
  {
    v % TWO_64
  }

  /** The C conversion of an integer value to `uint16_t`. */
  function ToUint16(v: int): (r: nat)
    ensures r < TWO_16
  {
    v % TWO_16
  }

  /** The conversion of a word to `intptr_t`: bit 63 is the sign. */
  function ToIntptr(w: Word): Int64
  {
    if w < TWO_63 then w else w - TWO_64
  }

  /** The conversion of a value below 2^16 to `int16_t`: bit 15 is the sign. */
  function ToInt16(u: nat): Int16
    requires u < TWO_16
  {
    if u < TWO_15 then u else u - TWO_16
  }

  /** Masking with 2^k - 1 keeps the low k bits. */
  lemma {:induction false} AndLowMask(w: nat, k: nat)
    ensures BitAnd(w, Pow2(k) - 1) == w % Pow2(k)
  {
    if k == 0 {
      assert Pow2(k) == 1;
    } else if w == 0 {
      ModUnique(0, Pow2(k), 0, 0);
    } else {
      var m := Pow2(k - 1);
      assert Pow2(k) == 2 * m;
      AndLowMask(w / 2, k - 1);
      AndLowMaskStep(w, w / 2, m, m - 1, Pow2(k), Pow2(k) - 1);
    }
  }

  /**
   * If the mask c = m - 1 keeps the low bits of h = w / 2, then the mask
   * b = 2m - 1 keeps the low bits of w, modulo p = 2m.
   */
  lemma AndLowMaskStep(w: nat, h: nat, m: nat, c: nat, p: nat, b: nat)
    requires w > 0 && h == w / 2 && m >= 1 && c == m - 1 && p == 2 * m && b == p - 1
    requires BitAnd(h, c) == h % m
    ensures BitAnd(w, b) == w % p
  {
    BitAndOdd(w, c);
    assert b == 2 * c + 1;
    DivModHalf(w, m);
  }

  /** One step of `&` with an odd mask: the low bit of `a` survives. */
  lemma BitAndOdd(a: nat, c: nat)
    requires a > 0
    ensures BitAnd(a, 2 * c + 1) == 2 * BitAnd(a / 2, c) + a % 2
  {
    assert (2 * c + 1) / 2 == c && (2 * c + 1) % 2 == 1;
  }

  /** Dividing a natural number by a positive divisor never makes it larger. */
  lemma DivAtMost(w: nat, d: int)
    requires d >= 1
    ensures 0 <= w / d <= w
  {
    var q, r := w / d, w % d;
    assert w == d * q + r;
    MulBounds(d, q);
  }

  /** A quotient below c, for a dividend below c·d. */
  lemma DivLess(p: int, d: int, c: int)
    requires d > 0 && 0 <= p < c * d
    ensures 0 <= p / d < c
  {
    var q, r := p / d, p % d;
    assert p == d * q + r;
    MulBounds(d, q);
    MulBounds(d, q - c);
  }

  /** Splitting off the lowest bit of a remainder modulo 2m. */
  lemma DivModHalf(w: nat, m: nat)
    requires m >= 1
    ensures w % (2 * m) == 2 * ((w / 2) % m) + w % 2
  {
    var q := w / 2;
    var t := q / m;
    var s := q % m;
    assert w == 2 * q + w % 2;
    assert q == m * t + s;
    assert w == (2 * m) * t + (2 * s + w % 2);
    ModUnique(w, 2 * m, t, 2 * s + w % 2);
  }

  lemma ModUnique(w: int, d: int, t: int, x: int)
    requires 0 <= x < d && w == d * t + x
    ensures w % d == x && w / d == t
  {
    var q, r := w / d, w % d;
    assert d * (q - t) == x - r;
    MulBounds(d, q - t);
  }

  /** A product with a positive factor d keeps the sign of the other factor and is at least d in size. */
  lemma MulBounds(d: int, n: int)
    requires d >= 1
    ensures n >= 1 ==> d * n >= d
    ensures n <= -1 ==> d * n <= -d
    ensures n >= 0 ==> d * n >= n
  {
  }

  /** Or-ing a value below 2^k into a value shifted up by k bits is addition. */
  lemma {:induction false} OrDisjoint(h: nat, l: nat, k: nat)
    requires l < Pow2(k)
    ensures BitOr(h * Pow2(k), l) == h * Pow2(k) + l
  {
    if k > 0 && h > 0 && l > 0 {
      var m := Pow2(k - 1);
      assert h * Pow2(k) == 2 * (h * m);
      assert (h * Pow2(k)) / 2 == h * m && (h * Pow2(k)) % 2 == 0;
      OrDisjoint(h, l / 2, k - 1);
    } else if k == 0 {
      assert l == 0;
    }
  }

  /** `(intptr_t)(void*)(intptr_t)x == x`: storing a subject in a pointer loses nothing. */
  lemma IntptrRoundTrip(x: Int64)
    ensures ToIntptr(ToUintptr(x)) == x
  {
  }

  /** `(int16_t)(uint16_t)v`, what a 16-bit range bound becomes. */
  function Int16Of(v: int): Int16
  {
    ToInt16(ToUint16(v))
  }

  /** A bound survives the 16-bit round trip exactly when it is an `int16_t`. */
  lemma Int16OfExact(v: int)
    ensures Int16Of(v) == v <==> -TWO_15 <= v < TWO_15
    ensures Int16Of(v) % TWO_16 == v % TWO_16
  {
  }
}
