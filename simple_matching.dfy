/**
 * benchmarks/simple_matching_*.c: three decision functions, each written once
 * by hand as an if/else-if chain and once with `let(...) in(is(...) ? ...)`.
 * The repository claims the two versions are the same computation; the
 * `...Agree` lemmas prove it for every input.
 */
module SimpleMatching {
  import opened Bits
  import opened Encoding
  import opened Semantics
  import opened Dispatch

  // ---------------------------------------------------------------------------
  // Hand-written versions
  // ---------------------------------------------------------------------------

  function CalculateGradeHandwritten(score: Int32): char
  {
    if score >= 90 then 'A'
    else if score >= 80 then 'B'
    else if score >= 70 then 'C'
    else if score >= 60 then 'D'
    else 'F'
  }

  function CheckRangeHandwritten(value: Int32): Int32
  {
    if value > 50 then 100
    else if value >= 20 && value <= 30 then 50
    else if value > 10 then 25
    else 0
  }

  function ProcessCoordinatesHandwritten(x: Int32, y: Int32): Int32
  {
    if x == 0 && y == 0 then 0
    else if x > 0 && y > 0 then 1
    else if x < 0 && y < 0 then 2
    else 3
  }

  // ---------------------------------------------------------------------------
  // Versions written with match.h
  // ---------------------------------------------------------------------------

  /** The chain of `calculate_grade_match`, over the words of its four patterns. */
  function GradeBranches(a: Word, b: Word, c: Word, d: Word): (bs: seq<Branch<char>>)
    ensures Arity(1, bs)
  {
    [Branch([a], 'A'), Branch([b], 'B'), Branch([c], 'C'), Branch([d], 'D')]
  }

  function CalculateGradeMatch(score: Int32): char
  {
    MatchExpr([score], GradeBranches(Ge(90), Ge(80), Ge(70), Ge(60)), 'F')
  }

  /** The chain of `check_range_match`, over the words of its three patterns. */
  function RangeBranches(a: Word, b: Word, c: Word): (bs: seq<Branch<Int32>>)
    ensures Arity(1, bs)
  {
    [Branch([a], 100), Branch([b], 50), Branch([c], 25)]
  }

  function CheckRangeMatch(value: Int32): Int32
  {
    MatchExpr([value], RangeBranches(Gt(50), Between(20, 30), Gt(10)), 0)
  }

  /** The chain of `process_coordinates_match`, over the words of its six patterns. */
  function CoordinateBranches(zx: Word, zy: Word, px: Word, py: Word, nx: Word, ny: Word): (bs: seq<Branch<Int32>>)
    ensures Arity(2, bs)
  {
    [Branch([zx, zy], 0), Branch([px, py], 1), Branch([nx, ny], 2)]
  }

  function ProcessCoordinatesMatch(x: Int32, y: Int32): Int32
  {
    MatchExpr([x, y], CoordinateBranches(Literal(0), Literal(0), Gt(0), Gt(0), Lt(0), Lt(0)), 3)
  }

  // ---------------------------------------------------------------------------
  // The two versions agree
  // ---------------------------------------------------------------------------

  /** The grade chain over any four words that test the four thresholds. */
  lemma GradeChain(score: Int32, a: Word, b: Word, c: Word, d: Word)
    requires EvaluatePattern(score, a) == (score >= 90) && EvaluatePattern(score, b) == (score >= 80)
    requires EvaluatePattern(score, c) == (score >= 70) && EvaluatePattern(score, d) == (score >= 60)
    ensures MatchExpr([score], GradeBranches(a, b, c, d), 'F') == CalculateGradeHandwritten(score)
  {
    var s := [score];
    var b0, b1, b2, b3 := Branch([a], 'A'), Branch([b], 'B'), Branch([c], 'C'), Branch([d], 'D');
    var r3 := [b3];
    var r2 := [b2] + r3;
    var r1 := [b1] + r2;
    ArityCons(1, b2, r3);
    ArityCons(1, b1, r2);
    SatisfiesOne(score, a);
    SatisfiesOne(score, b);
    SatisfiesOne(score, c);
    SatisfiesOne(score, d);
    MatchExprStep(s, b3, [], 'F');
    MatchExprStep(s, b2, r3, 'F');
    MatchExprStep(s, b1, r2, 'F');
    MatchExprStep(s, b0, r1, 'F');
    assert [b0] + r1 == GradeBranches(a, b, c, d);
    assert [b3] + [] == r3;
  }


  lemma CalculateGradeAgree(score: Int32)
    ensures CalculateGradeMatch(score) == CalculateGradeHandwritten(score)
  {
    EvaluateComparisons(score, 90);
    EvaluateComparisons(score, 80);
    EvaluateComparisons(score, 70);
    EvaluateComparisons(score, 60);
    GradeChain(score, Ge(90), Ge(80), Ge(70), Ge(60));
  }

  /** The range-check chain over any three words that test its three conditions. */
  lemma RangeChain(value: Int32, a: Word, b: Word, c: Word)
    requires EvaluatePattern(value, a) == (value > 50)
    requires EvaluatePattern(value, b) == (20 <= value <= 30)
    requires EvaluatePattern(value, c) == (value > 10)
    ensures MatchExpr([value], RangeBranches(a, b, c), 0) == CheckRangeHandwritten(value)
  {
    var s := [value];
    var b0, b1, b2 := Branch([a], 100 as Int32), Branch([b], 50 as Int32), Branch([c], 25 as Int32);
    var r2 := [b2];
    var r1 := [b1] + r2;
    ArityCons(1, b1, r2);
    SatisfiesOne(value, a);
    SatisfiesOne(value, b);
    SatisfiesOne(value, c);
    MatchExprStep(s, b2, [], 0);
    MatchExprStep(s, b1, r2, 0);
    MatchExprStep(s, b0, r1, 0);
    assert [b0] + r1 == RangeBranches(a, b, c);
    assert [b2] + [] == r2;
  }


  lemma CheckRangeAgree(value: Int32)
    ensures CheckRangeMatch(value) == CheckRangeHandwritten(value)
  {
    EvaluateComparisons(value, 50);
    EvaluateComparisons(value, 10);
    EvaluateInt16Ranges(value, 20, 30);
    RangeChain(value, Gt(50), Between(20, 30), Gt(10));
  }

  /** The coordinate chain over any words that test the six sign conditions. */
  lemma CoordinateChain(x: Int32, y: Int32, zx: Word, zy: Word, px: Word, py: Word, nx: Word, ny: Word)
    requires EvaluatePattern(x, zx) == (x == 0) && EvaluatePattern(y, zy) == (y == 0)
    requires EvaluatePattern(x, px) == (x > 0) && EvaluatePattern(y, py) == (y > 0)
    requires EvaluatePattern(x, nx) == (x < 0) && EvaluatePattern(y, ny) == (y < 0)
    ensures MatchExpr([x, y], CoordinateBranches(zx, zy, px, py, nx, ny), 3) == ProcessCoordinatesHandwritten(x, y)
  {
    var s := [x, y];
    var b0, b1, b2 := Branch([zx, zy], 0 as Int32), Branch([px, py], 1 as Int32), Branch([nx, ny], 2 as Int32);
    var r2 := [b2];
    var r1 := [b1] + r2;
    ArityCons(2, b1, r2);
    SatisfiesTwo(x, y, zx, zy);
    SatisfiesTwo(x, y, px, py);
    SatisfiesTwo(x, y, nx, ny);
    MatchExprStep(s, b2, [], 3);
    MatchExprStep(s, b1, r2, 3);
    MatchExprStep(s, b0, r1, 3);
    assert [b0] + r1 == CoordinateBranches(zx, zy, px, py, nx, ny);
    assert [b2] + [] == r2;
  }


  lemma ProcessCoordinatesAgree(x: Int32, y: Int32)
    ensures ProcessCoordinatesMatch(x, y) == ProcessCoordinatesHandwritten(x, y)
  {
    EvaluateComparisons(x, 0);
    EvaluateComparisons(y, 0);
    EvaluateLiteral(x, 0);
    EvaluateLiteral(y, 0);
    CoordinateChain(x, y, Literal(0), Literal(0), Gt(0), Gt(0), Lt(0), Lt(0));
  }

  // ---------------------------------------------------------------------------
  // What the functions compute
  // ---------------------------------------------------------------------------

  /** Each letter belongs to exactly one band of scores, and only A to F occur. */
  lemma GradeBands(score: Int32)
    ensures CalculateGradeHandwritten(score) in {'A', 'B', 'C', 'D', 'F'}
    ensures CalculateGradeHandwritten(score) == 'A' <==> score >= 90
    ensures CalculateGradeHandwritten(score) == 'B' <==> 80 <= score < 90
    ensures CalculateGradeHandwritten(score) == 'C' <==> 70 <= score < 80
    ensures CalculateGradeHandwritten(score) == 'D' <==> 60 <= score < 70
    ensures CalculateGradeHandwritten(score) == 'F' <==> score < 60
  {
  }

  /** A higher score never earns a later letter. */
  lemma GradeMonotone(s: Int32, t: Int32)
    requires s <= t
    ensures CalculateGradeHandwritten(t) <= CalculateGradeHandwritten(s)
  {
  }

  /** The four results of the range check and the values that give each. */
  lemma CheckRangeBands(value: Int32)
    ensures CheckRangeHandwritten(value) == 100 <==> value > 50
    ensures CheckRangeHandwritten(value) == 50 <==> 20 <= value <= 30
    ensures CheckRangeHandwritten(value) == 25 <==> (10 < value < 20 || 30 < value <= 50)
    ensures CheckRangeHandwritten(value) == 0 <==> value <= 10
  {
  }

  /** Origin, both positive, both negative, anything else. */
  lemma CoordinateClasses(x: Int32, y: Int32)
    ensures ProcessCoordinatesHandwritten(x, y) == 0 <==> x == 0 && y == 0
    ensures ProcessCoordinatesHandwritten(x, y) == 1 <==> x > 0 && y > 0
    ensures ProcessCoordinatesHandwritten(x, y) == 2 <==> x < 0 && y < 0
    ensures ProcessCoordinatesHandwritten(x, y) == 3 <==>
      !(x == 0 && y == 0) && !(x > 0 && y > 0) && !(x < 0 && y < 0)
  {
  }

  /**
   * Clause order decides overlaps: from 20 to 30 `gt(10)` holds as well, and
   * the earlier `between(20, 30)` wins.
   */
  lemma RangeOverlapGoesToEarlierClause(value: Int32)
    requires 20 <= value <= 30
    ensures EvaluatePattern(value, Gt(10)) && EvaluatePattern(value, Between(20, 30))
    ensures CheckRangeMatch(value) == 50
  {
    EvaluateComparisons(value, 10);
    EvaluateInt16Ranges(value, 20, 30);
    CheckRangeAgree(value);
  }

  /** The literal pattern `(0, 0)` selects the origin, and a mixed point reaches the default. */
  lemma CoordinateExamples()
    ensures ProcessCoordinatesMatch(0, 0) == 0
    ensures ProcessCoordinatesMatch(5, -3) == 3
  {
    ProcessCoordinatesAgree(0, 0);
    ProcessCoordinatesAgree(5, -3);
  }
}
