/**
 * benchmarks/let_expressions_*.c: conditional expressions written as a
 * hand-made ternary chain and as `let(...) in(...)`.  The floating-point
 * `compute_result_*` pair is not part of this model.
 */
module LetExpressions {
  import opened Bits
  import opened Encoding
  import opened Semantics
  import opened Dispatch
  import SimpleMatching

  // ---------------------------------------------------------------------------
  // Hand-written versions
  // ---------------------------------------------------------------------------

  function GradeFromScoreHandwritten(score: Int32): char
  {
    if score >= 90 then 'A'
    else if score >= 80 then 'B'
    else if score >= 70 then 'C'
    else if score >= 60 then 'D'
    else 'F'
  }

  function CategorizeValueHandwritten(x: Int32, y: Int32): Int32
  {
    if x == 0 && y == 0 then 0
    else if x > 0 && y > 0 then 1
    else if x < 0 && y < 0 then 2
    else if x > 0 && y < 0 then 3
    else 4
  }

  function ProcessRangeHandwritten(value: Int32): Int32
  {
    if value > 90 then 1000
    else if value >= 70 && value <= 90 then 500
    else if value >= 50 && value < 70 then 250
    else if value >= 20 && value < 50 then 100
    else if value > 0 then 50
    else 0
  }

  // ---------------------------------------------------------------------------
  // Versions written with `let`
  // ---------------------------------------------------------------------------

  function GradeFromScoreLet(score: Int32): char
  {
    MatchExpr([score], SimpleMatching.GradeBranches(Ge(90), Ge(80), Ge(70), Ge(60)), 'F')
  }

  /** The chain of `categorize_value_let`, over the words of its patterns. */
  function CategoryBranches(zx: Word, zy: Word, px: Word, py: Word, nx: Word, ny: Word): (bs: seq<Branch<Int32>>)
    ensures Arity(2, bs)
  {
    [Branch([zx, zy], 0), Branch([px, py], 1), Branch([nx, ny], 2), Branch([px, ny], 3)]
  }

  function CategorizeValueLet(x: Int32, y: Int32): Int32
  {
    MatchExpr([x, y], CategoryBranches(Literal(0), Literal(0), Gt(0), Gt(0), Lt(0), Lt(0)), 4)
  }

  /** The chain of `process_range_let`, over the words of its five patterns. */
  function RangeBranches(a: Word, b: Word, c: Word, d: Word, e: Word): (bs: seq<Branch<Int32>>)
    ensures Arity(1, bs)
  {
    [Branch([a], 1000), Branch([b], 500), Branch([c], 250), Branch([d], 100), Branch([e], 50)]
  }

  function ProcessRangeLet(value: Int32): Int32
  {
    MatchExpr([value], RangeBranches(Gt(90), Between(70, 90), Between(50, 69), Between(20, 49), Gt(0)), 0)
  }

  // ---------------------------------------------------------------------------
  // The two versions agree
  // ---------------------------------------------------------------------------

  lemma GradeFromScoreAgree(score: Int32)
    ensures GradeFromScoreLet(score) == GradeFromScoreHandwritten(score)
    ensures GradeFromScoreHandwritten(score) == SimpleMatching.CalculateGradeHandwritten(score)
  {
    EvaluateComparisons(score, 90);
    EvaluateComparisons(score, 80);
    EvaluateComparisons(score, 70);
    EvaluateComparisons(score, 60);
    SimpleMatching.GradeChain(score, Ge(90), Ge(80), Ge(70), Ge(60));
  }

  /** The last two branches of the categorisation chain. */
  lemma CategoryTail(x: Int32, y: Int32, px: Word, nx: Word, ny: Word)
    requires EvaluatePattern(x, px) == (x > 0)
    requires EvaluatePattern(x, nx) == (x < 0) && EvaluatePattern(y, ny) == (y < 0)
    ensures MatchExpr([x, y], [Branch([nx, ny], 2 as Int32), Branch([px, ny], 3)], 4) ==
      if x < 0 && y < 0 then 2 else if x > 0 && y < 0 then 3 else 4
  {
    var b2, b3 := Branch([nx, ny], 2 as Int32), Branch([px, ny], 3 as Int32);
    SatisfiesTwo(x, y, nx, ny);
    SatisfiesTwo(x, y, px, ny);
    MatchExprStep([x, y], b3, [], 4);
    MatchExprStep([x, y], b2, [b3], 4);
    assert [b3] + [] == [b3] && [b2] + [b3] == [b2, b3];
  }

  /** The categorisation chain over any words that test the six sign conditions. */
  lemma CategoryChain(x: Int32, y: Int32, zx: Word, zy: Word, px: Word, py: Word, nx: Word, ny: Word)
    requires EvaluatePattern(x, zx) == (x == 0) && EvaluatePattern(y, zy) == (y == 0)
    requires EvaluatePattern(x, px) == (x > 0) && EvaluatePattern(y, py) == (y > 0)
    requires EvaluatePattern(x, nx) == (x < 0) && EvaluatePattern(y, ny) == (y < 0)
    ensures MatchExpr([x, y], CategoryBranches(zx, zy, px, py, nx, ny), 4) == CategorizeValueHandwritten(x, y)
  {
    var b0, b1 := Branch([zx, zy], 0 as Int32), Branch([px, py], 1 as Int32);
    var r2 := [Branch([nx, ny], 2 as Int32), Branch([px, ny], 3 as Int32)];
    CategoryTail(x, y, px, nx, ny);
    SatisfiesTwo(x, y, zx, zy);
    SatisfiesTwo(x, y, px, py);
    MatchExprStep([x, y], b1, r2, 4);
    ArityCons(2, b1, r2);
    MatchExprStep([x, y], b0, [b1] + r2, 4);
    assert [b0] + ([b1] + r2) == CategoryBranches(zx, zy, px, py, nx, ny);
  }

  lemma CategorizeValueAgree(x: Int32, y: Int32)
    ensures CategorizeValueLet(x, y) == CategorizeValueHandwritten(x, y)
  {
    EvaluateComparisons(x, 0);
    EvaluateComparisons(y, 0);
    EvaluateLiteral(x, 0);
    EvaluateLiteral(y, 0);
    CategoryChain(x, y, Literal(0), Literal(0), Gt(0), Gt(0), Lt(0), Lt(0));
  }

  /** The last three branches of the range chain. */
  lemma ProcessRangeTail(value: Int32, c: Word, d: Word, e: Word)
    requires EvaluatePattern(value, c) == (50 <= value <= 69)
    requires EvaluatePattern(value, d) == (20 <= value <= 49)
    requires EvaluatePattern(value, e) == (value > 0)
    ensures MatchExpr([value], [Branch([c], 250 as Int32), Branch([d], 100), Branch([e], 50)], 0) ==
      if 50 <= value <= 69 then 250 else if 20 <= value <= 49 then 100 else if value > 0 then 50 else 0
  {
    var b2, b3, b4 := Branch([c], 250 as Int32), Branch([d], 100 as Int32), Branch([e], 50 as Int32);
    SatisfiesOne(value, c);
    SatisfiesOne(value, d);
    SatisfiesOne(value, e);
    MatchExprStep([value], b4, [], 0);
    MatchExprStep([value], b3, [b4], 0);
    MatchExprStep([value], b2, [b3, b4], 0);
    assert [b4] + [] == [b4] && [b3] + [b4] == [b3, b4] && [b2] + [b3, b4] == [b2, b3, b4];
  }

  /** The range chain over any five words that test its five conditions. */
  lemma ProcessRangeChain(value: Int32, a: Word, b: Word, c: Word, d: Word, e: Word)
    requires EvaluatePattern(value, a) == (value > 90)
    requires EvaluatePattern(value, b) == (70 <= value <= 90)
    requires EvaluatePattern(value, c) == (50 <= value <= 69)
    requires EvaluatePattern(value, d) == (20 <= value <= 49)
    requires EvaluatePattern(value, e) == (value > 0)
    ensures MatchExpr([value], RangeBranches(a, b, c, d, e), 0) == ProcessRangeHandwritten(value)
  {
    var b0, b1 := Branch([a], 1000 as Int32), Branch([b], 500 as Int32);
    var r2 := [Branch([c], 250 as Int32), Branch([d], 100), Branch([e], 50)];
    ProcessRangeTail(value, c, d, e);
    SatisfiesOne(value, a);
    SatisfiesOne(value, b);
    MatchExprStep([value], b1, r2, 0);
    ArityCons(1, b1, r2);
    MatchExprStep([value], b0, [b1] + r2, 0);
    assert [b0] + ([b1] + r2) == RangeBranches(a, b, c, d, e);
  }

  /**
   * The two versions agree although they write the bands differently: the
   * hand-written `value < 70` is the `let` version's `between(50, 69)` on
   * integers.
   */
  lemma ProcessRangeAgree(value: Int32)
    ensures ProcessRangeLet(value) == ProcessRangeHandwritten(value)
  {
    EvaluateComparisons(value, 90);
    EvaluateComparisons(value, 0);
    EvaluateInt16Ranges(value, 70, 90);
    EvaluateInt16Ranges(value, 50, 69);
    EvaluateInt16Ranges(value, 20, 49);
    ProcessRangeChain(value, Gt(90), Between(70, 90), Between(50, 69), Between(20, 49), Gt(0));
  }

  // ---------------------------------------------------------------------------
  // What the functions compute
  // ---------------------------------------------------------------------------

  /** The five categories and the points that fall in each. */
  lemma CategoryClasses(x: Int32, y: Int32)
    ensures CategorizeValueHandwritten(x, y) == 0 <==> x == 0 && y == 0
    ensures CategorizeValueHandwritten(x, y) == 1 <==> x > 0 && y > 0
    ensures CategorizeValueHandwritten(x, y) == 2 <==> x < 0 && y < 0
    ensures CategorizeValueHandwritten(x, y) == 3 <==> x > 0 && y < 0
    ensures CategorizeValueHandwritten(x, y) == 4 <==>
      (x <= 0 && y > 0) || (x < 0 && y == 0) || (x == 0 && y < 0) || (x > 0 && y == 0)
  {
  }

  /** The range bands cover every integer: a larger value never earns less. */
  lemma ProcessRangeMonotone(s: Int32, t: Int32)
    requires s <= t
    ensures ProcessRangeHandwritten(s) <= ProcessRangeHandwritten(t)
  {
  }

  /** The result is one of the six band values, each returned exactly for its band. */
  lemma ProcessRangeValues(value: Int32)
    ensures ProcessRangeHandwritten(value) in {0, 50, 100, 250, 500, 1000}
    ensures ProcessRangeHandwritten(value) == 0 <==> value <= 0
    ensures ProcessRangeHandwritten(value) == 1000 <==> value > 90
    ensures ProcessRangeHandwritten(value) == 500 <==> 70 <= value <= 90
    ensures ProcessRangeHandwritten(value) == 250 <==> 50 <= value <= 69
    ensures ProcessRangeHandwritten(value) == 100 <==> 20 <= value <= 49
    ensures ProcessRangeHandwritten(value) == 50 <==> 1 <= value <= 19
  {
  }

  /** 90 is in the inclusive `between(70, 90)`, not in `gt(90)`; 69 belongs to the 250 band. */
  lemma ProcessRangeBoundaries()
    ensures ProcessRangeLet(90) == 500 && ProcessRangeLet(91) == 1000
    ensures ProcessRangeLet(69) == 250 && ProcessRangeLet(70) == 500
  {
    ProcessRangeAgree(90);
    ProcessRangeAgree(91);
    ProcessRangeAgree(69);
    ProcessRangeAgree(70);
  }
}
