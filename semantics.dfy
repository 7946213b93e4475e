/**
 * What a pattern word means.  `Pattern` is the criterion a caller writes;
 * `Matches` is its intended meaning on a subject; `Encode` is the macro the
 * caller uses for it and `Decode` reads a word back through the `GET_*`
 * decoders.  The theorems say that `evaluate_pattern` is exactly
 * `Matches ∘ Decode`, that decoding inverts encoding on in-range arguments,
 * and what happens outside that range.
 */
module Semantics {
  import opened Bits
  import opened Encoding

  datatype CmpOp = Greater | AtLeast | Less | AtMost | Unequal

  datatype Pattern =
    | Wild                           // `__`
    | Lit(value: Int64)              // a plain integer
    | Cmp(op: CmpOp, bound: int)     // `gt` `ge` `lt` `le` `ne`
    | Open(low: int, high: int)      // `range`: low < x < high
    | Closed(low: int, high: int)    // `between`: low <= x <= high
    | Never                          // a word of kind 8..15: no macro builds one

  predicate Holds(op: CmpOp, x: int, bound: int)
  {
    match op
    case Greater => x > bound
    case AtLeast => x >= bound
    case Less => x < bound
    case AtMost => x <= bound
    case Unequal => x != bound
  }

  /** The intended meaning of a pattern on a subject. */
  predicate Matches(p: Pattern, x: int)
  {
    match p
    case Wild => true
    case Lit(v) => x == v
    case Cmp(op, b) => Holds(op, x, b)
    case Open(lo, hi) => lo < x < hi
    case Closed(lo, hi) => lo <= x <= hi
    case Never => false
  }

  /** The kind nibble each comparison is stored under. */
  function Kind(op: CmpOp): (k: nat)
    ensures 1 <= k <= 5
  {
    match op
    case Greater => 1
    case AtLeast => 2
    case Less => 3
    case AtMost => 4
    case Unequal => 5
  }

  function CompareWord(op: CmpOp, bound: int): Word
  {
    match op
    case Greater => Gt(bound)
    case AtLeast => Ge(bound)
    case Less => Lt(bound)
    case AtMost => Le(bound)
    case Unequal => Ne(bound)
  }

  /** The word the caller's macro builds for a pattern. */
  function Encode(p: Pattern): Word
    requires !p.Never?
  {
    match p
    case Wild => WILDCARD
    case Lit(v) => Literal(v)
    case Cmp(op, b) => CompareWord(op, b)
    case Open(lo, hi) => Range(lo, hi)
    case Closed(lo, hi) => Between(lo, hi)
  }

  /** A word read back through `IS_WILDCARD` and the `GET_*` decoders. */
  function Decode(w: Word): Pattern
  {
    if IsWildcard(w) then Wild
    else
      var kind := PatternType(w);
      if kind == 0 then Lit(ToIntptr(w))
      else if kind == 1 then Cmp(Greater, PatternValue(w))
      else if kind == 2 then Cmp(AtLeast, PatternValue(w))
      else if kind == 3 then Cmp(Less, PatternValue(w))
      else if kind == 4 then Cmp(AtMost, PatternValue(w))
      else if kind == 5 then Cmp(Unequal, PatternValue(w))
      else if kind == 6 then Open(RangeLow(w), RangeHigh(w))
      else if kind == 7 then Closed(RangeLow(w), RangeHigh(w))
      else Never
  }

  /**
   * The patterns the encoding represents faithfully: a literal with a clear top
   * nibble that is not the sentinel, a comparison bound below 2^60, and range
   * bounds that are `int16_t` values.
   */
  predicate InRange(p: Pattern)
  {
    match p
    case Wild => true
    case Lit(v) => 0 <= v < TWO_60 && v != WILDCARD
    case Cmp(_, b) => 0 <= b < TWO_60
    case Open(lo, hi) => -TWO_15 <= lo < TWO_15 && -TWO_15 <= hi < TWO_15
    case Closed(lo, hi) => -TWO_15 <= lo < TWO_15 && -TWO_15 <= hi < TWO_15
    case Never => false
  }

  // ---------------------------------------------------------------------------
  // evaluate_pattern is the meaning of the decoded word
  // ---------------------------------------------------------------------------

  /** Every word means some pattern, and `evaluate_pattern` tests exactly that pattern. */
  lemma EvaluateIsDecodedMeaning(x: Int64, w: Word)
    ensures EvaluatePattern(x, w) == Matches(Decode(w), x)
  {
  }

  /** The wildcard matches every subject. */
  lemma WildcardMatchesAll(x: Int64)
    ensures EvaluatePattern(x, WILDCARD)
  {
  }

  // ---------------------------------------------------------------------------
  // Decoding inverts encoding, and what the encoding loses
  // ---------------------------------------------------------------------------

  /** What a comparison macro's word decodes to, for every bound: the bound modulo 2^60. */
  lemma DecodeCompare(op: CmpOp, bound: int)
    ensures PatternType(CompareWord(op, bound)) == Kind(op)
    ensures Decode(CompareWord(op, bound)) == Cmp(op, bound % TWO_60)
  {
    match op
    case Greater => GtFields(bound);
    case AtLeast => GeFields(bound);
    case Less => LtFields(bound);
    case AtMost => LeFields(bound);
    case Unequal => NeFields(bound);
  }

  /** What `range(lo, hi)` decodes to: both bounds truncated to `int16_t`. */
  lemma DecodeRange(lo: int, hi: int)
    ensures Decode(Range(lo, hi)) == Open(Int16Of(lo), Int16Of(hi))
  {
    RangeFields(lo, hi);
  }

  /** What `between(lo, hi)` decodes to: both bounds truncated to `int16_t`. */
  lemma DecodeBetween(lo: int, hi: int)
    ensures Decode(Between(lo, hi)) == Closed(Int16Of(lo), Int16Of(hi))
  {
    BetweenFields(lo, hi);
  }

  /**
   * A literal reads back as itself exactly when its top nibble is clear and it
   * is not the sentinel.  A negative literal reads as a pattern that never
   * matches; the sentinel reads as the wildcard; a literal of 2^60 or more
   * reads as a comparison or a range.
   */
  lemma DecodeLiteral(v: Int64)
    ensures Decode(Literal(v)) == Lit(v) <==> 0 <= v < TWO_60 && v != WILDCARD
    ensures v < 0 ==> Decode(Literal(v)) == Never
    ensures v == WILDCARD ==> Decode(Literal(v)) == Wild
    ensures TWO_60 <= v ==> Decode(Literal(v)).Cmp? || Decode(Literal(v)).Open? || Decode(Literal(v)).Closed?
  {
    LiteralFields(v);
    if v >= TWO_60 {
      assert v / TWO_60 < 8;
    }
  }

  /** On in-range arguments, decoding inverts every encoder. */
  lemma DecodeEncode(p: Pattern)
    requires InRange(p)
    ensures Decode(Encode(p)) == p
  {
    match p
    case Wild =>
    case Lit(v) => DecodeLiteral(v);
    case Cmp(op, b) =>
      DecodeCompare(op, b);
      ModUnique(b, TWO_60, 0, b);
    case Open(lo, hi) =>
      DecodeRange(lo, hi);
      Int16OfExact(lo);
      Int16OfExact(hi);
    case Closed(lo, hi) =>
      DecodeBetween(lo, hi);
      Int16OfExact(lo);
      Int16OfExact(hi);
  }

  /** On in-range arguments, `evaluate_pattern` on the macro's word is the intended meaning. */
  lemma EvaluateEncode(x: Int64, p: Pattern)
    requires InRange(p)
    ensures EvaluatePattern(x, Encode(p)) == Matches(p, x)
  {
    DecodeEncode(p);
    EvaluateIsDecodedMeaning(x, Encode(p));
  }

  // ---------------------------------------------------------------------------
  // The encoders evaluated, for every argument
  // ---------------------------------------------------------------------------

  /** A comparison macro compares against its bound modulo 2^60. */
  lemma EvaluateCompare(x: Int64, op: CmpOp, bound: int)
    ensures EvaluatePattern(x, CompareWord(op, bound)) == Holds(op, x, bound % TWO_60)
  {
    DecodeCompare(op, bound);
    EvaluateIsDecodedMeaning(x, CompareWord(op, bound));
  }

  /** For a bound in [0, 2^60) the comparison macros mean what they say. */
  lemma EvaluateComparisons(x: Int64, bound: int)
    requires 0 <= bound < TWO_60
    ensures EvaluatePattern(x, Gt(bound)) == (x > bound)
    ensures EvaluatePattern(x, Ge(bound)) == (x >= bound)
    ensures EvaluatePattern(x, Lt(bound)) == (x < bound)
    ensures EvaluatePattern(x, Le(bound)) == (x <= bound)
    ensures EvaluatePattern(x, Ne(bound)) == (x != bound)
  {
    ModUnique(bound, TWO_60, 0, bound);
    EvaluateCompare(x, Greater, bound);
    EvaluateCompare(x, AtLeast, bound);
    EvaluateCompare(x, Less, bound);
    EvaluateCompare(x, AtMost, bound);
    EvaluateCompare(x, Unequal, bound);
  }

  /** `range` is exclusive and `between` inclusive, on the `int16_t` images of the bounds. */
  lemma EvaluateRanges(x: Int64, lo: int, hi: int)
    ensures EvaluatePattern(x, Range(lo, hi)) == (Int16Of(lo) < x < Int16Of(hi))
    ensures EvaluatePattern(x, Between(lo, hi)) == (Int16Of(lo) <= x <= Int16Of(hi))
  {
    RangeFields(lo, hi);
    BetweenFields(lo, hi);
  }

  /** For `int16_t` bounds, `range` and `between` are the intervals they name. */
  lemma EvaluateInt16Ranges(x: Int64, lo: Int16, hi: Int16)
    ensures EvaluatePattern(x, Range(lo, hi)) == (lo < x < hi)
    ensures EvaluatePattern(x, Between(lo, hi)) == (lo <= x <= hi)
  {
    EvaluateRanges(x, lo, hi);
    Int16OfExact(lo);
    Int16OfExact(hi);
  }

  /** A literal with a clear top nibble matches exactly the equal subject; a negative one nothing. */
  lemma EvaluateLiteral(x: Int64, v: Int64)
    ensures 0 <= v < TWO_60 && v != WILDCARD ==> (EvaluatePattern(x, Literal(v)) <==> x == v)
    ensures v < 0 ==> !EvaluatePattern(x, Literal(v))
    ensures v == WILDCARD ==> EvaluatePattern(x, Literal(v))
  {
    DecodeLiteral(v);
    EvaluateIsDecodedMeaning(x, Literal(v));
  }

  // ---------------------------------------------------------------------------
  // Two consequences of the narrow fields
  // ---------------------------------------------------------------------------

  /** `gt(-1)` is `gt(2^60 - 1)`: it rejects 0 although 0 > -1. */
  lemma NegativeBoundWraps()
    ensures !EvaluatePattern(0, Gt(-1))
    ensures EvaluatePattern(TWO_60, Gt(-1))
  {
    EvaluateCompare(0, Greater, -1);
    EvaluateCompare(TWO_60, Greater, -1);
  }

  /** `between(0, 40000)` is `between(0, -25536)`: it matches nothing, not even 100. */
  lemma WideRangeIsEmpty(x: Int64)
    ensures !EvaluatePattern(x, Between(0, 40000))
    ensures !EvaluatePattern(x, Range(0, 40000))
  {
    EvaluateRanges(x, 0, 40000);
  }
}
