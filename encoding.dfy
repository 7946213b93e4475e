/**
 * The pattern word of `match.h`: its encoders (one per macro), its decoders
 * (`GET_*`) and `evaluate_pattern`.
 *
 * A pattern is one 64-bit word.  The top nibble is the kind: 0 literal,
 * 1..5 `gt` `ge` `lt` `le` `ne`, 6 `range`, 7 `between`.  A comparison keeps
 * the low 60 bits of its bound; a range keeps two 16-bit bounds, `low` in
 * bits 32..47 and `high` in bits 0..15.  The wildcard `__` is the fixed word
 * 0x1DEADBEEF, which is tested before the kind is looked at.
 */
module Encoding {
  import opened Bits

  /** `__`. */
  const WILDCARD: Word := 0x1_DEAD_BEEF

  const MASK60: nat := 0x0FFF_FFFF_FFFF_FFFF

  const GT_TAG: nat := 0x1000_0000_0000_0000
  const GE_TAG: nat := 0x2000_0000_0000_0000
  const LT_TAG: nat := 0x3000_0000_0000_0000
  const LE_TAG: nat := 0x4000_0000_0000_0000
  const NE_TAG: nat := 0x5000_0000_0000_0000
  const RANGE_TAG: nat := 0x6000_0000_0000_0000
  const BETWEEN_TAG: nat := 0x7000_0000_0000_0000

  // ---------------------------------------------------------------------------
  // Encoders
  // ---------------------------------------------------------------------------

  /** `IS_WILDCARD(p)`. */
  predicate IsWildcard(p: Word)
  {
    p == WILDCARD
  }

  /**
   * An integer written where a pattern is expected: `_auto_pattern` turns it
   * into `(void*)(intptr_t)(x)`.
   */
  function Literal(x: Int64): Word
  {
    ToUintptr(x)
  }

  /** `(uintptr_t)(val) & 0x0FFFFFFFFFFFFFFFULL`: the bound reduced modulo 2^60. */
  function ComparePayload(val: int): (r: nat)
    ensures r == val % TWO_60
  {
    Pow2Constants();
    AndLowMask(ToUintptr(val), 60);
    ModOfMultiple(val, TWO_60, 16);
    BitAnd(ToUintptr(val), MASK60)
  }

  /** `0xK000000000000000ULL | payload` for a kind K below 8 and a payload below 2^60. */
  function WithTag(tag: nat, payload: nat): (r: Word)
    requires tag % TWO_60 == 0 && tag < 8 * TWO_60 && payload < TWO_60
    ensures r == tag + payload
  {
    Pow2Constants();
    assert tag == (tag / TWO_60) * TWO_60;
    OrDisjoint(tag / TWO_60, payload, 60);
    BitOr(tag, payload)
  }

  /** `gt(val)`. */
  function Gt(val: int): Word
  {
    WithTag(GT_TAG, ComparePayload(val))
  }

  /** `ge(val)`. */
  function Ge(val: int): Word
  {
    WithTag(GE_TAG, ComparePayload(val))
  }

  /** `lt(val)`. */
  function Lt(val: int): Word
  {
    WithTag(LT_TAG, ComparePayload(val))
  }

  /** `le(val)`. */
  function Le(val: int): Word
  {
    WithTag(LE_TAG, ComparePayload(val))
  }

  /** `ne(val)`. */
  function Ne(val: int): Word
  {
    WithTag(NE_TAG, ComparePayload(val))
  }

  /**
   * `((uint64_t)((uint16_t)(low)) << 32) | ((uint16_t)(high))`: both bounds
   * truncated to 16 bits, `low` in bits 32..47 and `high` in bits 0..15.
   */
  function RangeBounds(low: int, high: int): (r: nat)
    ensures r == ToUint16(low) * TWO_32 + ToUint16(high)
    ensures r < TWO_60
  {
    Pow2Mid();
    var lo, hi := ToUint16(low), ToUint16(high);
    var shifted := lo * 0x1_0000_0000;
    assert shifted < 0x1_0000_0000_0000;
    ModUnique(shifted, TWO_64, 0, shifted);
    OrDisjoint(lo, hi, 32);
    BitOr(Shl(lo, 32), hi)
  }

  /** `range(low, high)`: an exclusive range. */
  function Range(low: int, high: int): Word
  {
    WithTag(RANGE_TAG, RangeBounds(low, high))
  }

  /** `between(low, high)`: an inclusive range. */
  function Between(low: int, high: int): Word
  {
    WithTag(BETWEEN_TAG, RangeBounds(low, high))
  }

  // ---------------------------------------------------------------------------
  // Decoders
  // ---------------------------------------------------------------------------

  /** `GET_PATTERN_TYPE(p)`: the top nibble. */
  function PatternType(p: Word): (r: nat)
    ensures r == p / TWO_60 && r < 16
  {
    Pow2Small();
    Pow2At60();
    DivLess(p, TWO_60, 16);
    AndLowMask(Shr(p, 60), 4);
    ModUnique(Shr(p, 60), 16, 0, Shr(p, 60));
    BitAnd(Shr(p, 60), 0xF)
  }

  /** `GET_PATTERN_VALUE(p)`: the low 60 bits, read as an `intptr_t`. */
  function PatternValue(p: Word): (r: Int64)
    ensures r == p % TWO_60
  {
    Pow2Constants();
    AndLowMask(p, 60);
    ToIntptr(BitAnd(p, MASK60))
  }

  /** `GET_RANGE_LOW(p)`: bits 32..47, read as an `int16_t`. */
  function RangeLow(p: Word): (r: Int16)
    ensures r == ToInt16((p / TWO_32) % TWO_16)
  {
    Pow2Constants();
    AndLowMask(Shr(p, 32), 16);
    ToInt16(BitAnd(Shr(p, 32), 0xFFFF))
  }

  /** `GET_RANGE_HIGH(p)`: bits 0..15, read as an `int16_t`. */
  function RangeHigh(p: Word): (r: Int16)
    ensures r == ToInt16(p % TWO_16)
  {
    Pow2Constants();
    AndLowMask(p, 16);
    ToInt16(BitAnd(p, 0xFFFF))
  }

  // ---------------------------------------------------------------------------
  // evaluate_pattern
  // ---------------------------------------------------------------------------

  /**
   * `evaluate_pattern(actual, pattern)`.  The wildcard is recognised before
   * anything is decoded; a kind of 8 or more falls out of the switch and does
   * not match.
   */
  function EvaluatePattern(actual: Int64, pattern: Word): bool
  {
    if IsWildcard(pattern) then true
    else
      var kind := PatternType(pattern);
      if kind == 0 then actual == ToIntptr(pattern)
      else if kind == 1 then actual > PatternValue(pattern)
      else if kind == 2 then actual >= PatternValue(pattern)
      else if kind == 3 then actual < PatternValue(pattern)
      else if kind == 4 then actual <= PatternValue(pattern)
      else if kind == 5 then actual != PatternValue(pattern)
      else if kind == 6 then
        var low := RangeLow(pattern);
        var high := RangeHigh(pattern);
        actual > low && actual < high
      else if kind == 7 then
        var low := RangeLow(pattern);
        var high := RangeHigh(pattern);
        actual >= low && actual <= high
      else false
  }

  // ---------------------------------------------------------------------------
  // The fields each encoder leaves for the decoders
  // ---------------------------------------------------------------------------

  /** Reducing modulo c·d and then modulo d is reducing modulo d. */
  lemma ModOfMultiple(v: int, d: int, c: int)
    requires d > 0 && c > 0
    ensures (v % (c * d)) % d == v % d
  {
    var q := v / (c * d);
    var r := v % (c * d);
    assert v == (c * d) * q + r;
    var q' := r / d;
    var r' := r % d;
    assert r == d * q' + r';
    assert v == d * (c * q + q') + r';
    ModUnique(v, d, c * q + q', r');
  }

  /** Dividing a tagged word by 2^60 gives back the tag, the remainder the payload. */
  lemma TaggedFields(kind: nat, payload: nat)
    requires kind < 8 && payload < TWO_60
    ensures (kind * TWO_60 + payload) / TWO_60 == kind
    ensures (kind * TWO_60 + payload) % TWO_60 == payload
  {
    ModUnique(kind * TWO_60 + payload, TWO_60, kind, payload);
  }

  /** `gt(val)`: kind 1, bound `val` modulo 2^60, never the wildcard. */
  lemma GtFields(val: int)
    ensures PatternType(Gt(val)) == 1 && PatternValue(Gt(val)) == val % TWO_60
    ensures !IsWildcard(Gt(val))
  {
    TaggedFields(1, val % TWO_60);
  }

  /** `ge(val)`: kind 2, bound `val` modulo 2^60, never the wildcard. */
  lemma GeFields(val: int)
    ensures PatternType(Ge(val)) == 2 && PatternValue(Ge(val)) == val % TWO_60
    ensures !IsWildcard(Ge(val))
  {
    TaggedFields(2, val % TWO_60);
  }

  /** `lt(val)`: kind 3, bound `val` modulo 2^60, never the wildcard. */
  lemma LtFields(val: int)
    ensures PatternType(Lt(val)) == 3 && PatternValue(Lt(val)) == val % TWO_60
    ensures !IsWildcard(Lt(val))
  {
    TaggedFields(3, val % TWO_60);
  }

  /** `le(val)`: kind 4, bound `val` modulo 2^60, never the wildcard. */
  lemma LeFields(val: int)
    ensures PatternType(Le(val)) == 4 && PatternValue(Le(val)) == val % TWO_60
    ensures !IsWildcard(Le(val))
  {
    TaggedFields(4, val % TWO_60);
  }

  /** `ne(val)`: kind 5, bound `val` modulo 2^60, never the wildcard. */
  lemma NeFields(val: int)
    ensures PatternType(Ne(val)) == 5 && PatternValue(Ne(val)) == val % TWO_60
    ensures !IsWildcard(Ne(val))
  {
    TaggedFields(5, val % TWO_60);
  }

  /** The two 16-bit fields of a range payload come back as `int16_t` values. */
  lemma BoundsFields(kind: nat, low: int, high: int)
    requires kind < 8
    ensures RangeLow(kind * TWO_60 + RangeBounds(low, high)) == Int16Of(low)
    ensures RangeHigh(kind * TWO_60 + RangeBounds(low, high)) == Int16Of(high)
  {
    var lo, hi := ToUint16(low), ToUint16(high);
    var w := kind * TWO_60 + RangeBounds(low, high);
    assert w == (kind * 0x1000_0000 + lo) * TWO_32 + hi;
    ModUnique(w, TWO_32, kind * 0x1000_0000 + lo, hi);
    ModUnique(kind * 0x1000_0000 + lo, TWO_16, kind * 0x1000, lo);
    assert w % TWO_16 == hi by {
      assert w == (kind * 0x1000_0000_0000 + lo * TWO_16) * TWO_16 + hi;
      ModUnique(w, TWO_16, kind * 0x1000_0000_0000 + lo * TWO_16, hi);
    }
  }

  /** `range(low, high)`: kind 6, both bounds reduced to `int16_t`. */
  lemma RangeFields(low: int, high: int)
    ensures PatternType(Range(low, high)) == 6 && !IsWildcard(Range(low, high))
    ensures RangeLow(Range(low, high)) == Int16Of(low)
    ensures RangeHigh(Range(low, high)) == Int16Of(high)
  {
    TaggedFields(6, RangeBounds(low, high));
    BoundsFields(6, low, high);
  }

  /** `between(low, high)`: kind 7, both bounds reduced to `int16_t`. */
  lemma BetweenFields(low: int, high: int)
    ensures PatternType(Between(low, high)) == 7 && !IsWildcard(Between(low, high))
    ensures RangeLow(Between(low, high)) == Int16Of(low)
    ensures RangeHigh(Between(low, high)) == Int16Of(high)
  {
    TaggedFields(7, RangeBounds(low, high));
    BoundsFields(7, low, high);
  }

  /** A literal's kind is its top nibble; every negative literal has kind 8 or more. */
  lemma LiteralFields(x: Int64)
    ensures x >= 0 ==> PatternType(Literal(x)) == x / TWO_60
    ensures x < 0 ==> PatternType(Literal(x)) >= 8
    ensures 0 <= x < TWO_60 ==> PatternType(Literal(x)) == 0 && ToIntptr(Literal(x)) == x
  {
    if x < 0 {
      ModUnique(x, TWO_64, -1, x + TWO_64);
      assert Literal(x) == x + TWO_64 >= 8 * TWO_60;
    } else {
      ModUnique(x, TWO_64, 0, x);
    }
  }
}
