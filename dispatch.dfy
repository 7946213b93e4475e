/**
 * The arity-generic dispatcher of `match.h`.
 *
 * `match(a1, ..., an)` stores each subject in a pointer variable
 * (`void *__vK = (void*)(intptr_t)(aK)`) and runs its block inside nested
 * `for` loops that repeat while the flag `__matched` is 0.  Each
 * `when(p1, ..., pn)` guards on `!__matched`, then on the left-to-right
 * conjunction of `evaluate_pattern((intptr_t)__vK, pK)`, then sets the flag;
 * `otherwise` is `else if (!__matched && (__matched = 1))`.
 *
 * `match_expr(a1, ..., an) in(...)` (and its alias `let`) stores the subjects
 * the same way and yields the value of a ternary chain of `is(p1, ..., pn)`
 * tests that ends in a default.
 *
 * The macros exist for arities 1 to 10 and are selected by `COUNT_ARGS`.
 */
module Dispatch {
  import opened Bits
  import opened Encoding
  import opened Variants

  // ---------------------------------------------------------------------------
  // COUNT_ARGS
  // ---------------------------------------------------------------------------

  /** A macro argument: one of the caller's arguments or one of the appended counts. */
  datatype Token = Arg(text: string) | Num(n: nat)

  /** The list `10, 9, ..., 0` that `COUNT_ARGS` appends. */
  function Countdown(): (c: seq<Token>)
    ensures |c| == 11 && forall k :: 0 <= k < 11 ==> c[k] == Num(10 - k)
  {
    [Num(10), Num(9), Num(8), Num(7), Num(6), Num(5), Num(4), Num(3), Num(2), Num(1), Num(0)]
  }

  /** `_GET_11TH_ARG`. */
  function Get11thArg(args: seq<Token>): Token
    requires |args| >= 11
  {
    args[10]
  }

  /** `COUNT_ARGS(args...)`: the 11th element of the arguments followed by the countdown. */
  function CountArgs(args: seq<Token>): Token
  {
    Get11thArg(args + Countdown())
  }

  /** For one to ten arguments `COUNT_ARGS` yields how many there are. */
  lemma CountArgsCounts(args: seq<Token>)
    requires 1 <= |args| <= 10
    ensures CountArgs(args) == Num(|args|)
  {
    assert (args + Countdown())[10] == Countdown()[10 - |args|];
  }

  /** From eleven arguments on it yields the 11th argument itself, and no `MATCH_N` is selected. */
  lemma CountArgsOverflows(args: seq<Token>)
    requires |args| >= 11
    ensures CountArgs(args) == args[10]
  {
  }

  // ---------------------------------------------------------------------------
  // Subjects and clauses
  // ---------------------------------------------------------------------------

  /** The pointer variables `__v1 .. __vn`: each subject stored as `(void*)(intptr_t)(aK)`. */
  function Stash(subjects: seq<Int64>): (vs: seq<Word>)
    ensures |vs| == |subjects|
  {
    seq(|subjects|, k requires 0 <= k < |subjects| => ToUintptr(subjects[k]))
  }

  /** Reading a stored subject back with `(intptr_t)__vK` gives the subject. */
  lemma StashRoundTrip(subjects: seq<Int64>, k: nat)
    requires k < |subjects|
    ensures ToIntptr(Stash(subjects)[k]) == subjects[k]
  {
    IntptrRoundTrip(subjects[k]);
  }

  /**
   * `IS_N(p1, ..., pn)` and the pattern part of `WHEN_N`: the `&&` chain of
   * `evaluate_pattern((intptr_t)__vK, pK)`, tested left to right and stopping
   * at the first failure.
   */
  function AllHold(vs: seq<Word>, patterns: seq<Word>): bool
    requires |vs| == |patterns|
  {
    if |patterns| == 0 then true
    else EvaluatePattern(ToIntptr(vs[0]), patterns[0]) && AllHold(vs[1..], patterns[1..])
  }

  /** A clause's patterns all hold of the subjects, position by position. */
  predicate Satisfies(subjects: seq<Int64>, patterns: seq<Word>)
    requires |subjects| == |patterns|
  {
    forall k :: 0 <= k < |patterns| ==> EvaluatePattern(subjects[k], patterns[k])
  }

  /** A one-subject clause holds when its one pattern does. */
  lemma SatisfiesOne(x: Int64, a: Word)
    ensures Satisfies([x], [a]) == EvaluatePattern(x, a)
  {
    assert [x][0] == x && [a][0] == a;
  }

  /** A two-subject clause holds when both of its patterns do. */
  lemma SatisfiesTwo(x: Int64, y: Int64, a: Word, b: Word)
    ensures Satisfies([x, y], [a, b]) == (EvaluatePattern(x, a) && EvaluatePattern(y, b))
  {
    assert [x, y][0] == x && [a, b][0] == a && [x, y][1] == y && [a, b][1] == b;
  }

  /** The short-circuit chain over the stored subjects holds iff every position matches. */
  lemma {:induction false} AllHoldIff(subjects: seq<Int64>, patterns: seq<Word>)
    requires |subjects| == |patterns|
    ensures AllHold(Stash(subjects), patterns) <==> Satisfies(subjects, patterns)
  {
    if |patterns| > 0 {
      var vs := Stash(subjects);
      assert vs[1..] == Stash(subjects[1..]);
      AllHoldIff(subjects[1..], patterns[1..]);
      StashRoundTrip(subjects, 0);
      forall k | 1 <= k < |patterns|
        ensures EvaluatePattern(subjects[k], patterns[k]) == EvaluatePattern(subjects[1..][k - 1], patterns[1..][k - 1])
      {
      }
    }
  }

  // ---------------------------------------------------------------------------
  // Statement form
  // ---------------------------------------------------------------------------

  /** One statement of a `match` block; a body is named by an identifier. */
  datatype Clause = When(patterns: seq<Word>, body: nat) | Otherwise(body: nat)

  /**
   * What the preprocessor and the compiler accept: one to ten subjects, every
   * `when` with one pattern per subject, and every `otherwise` after another
   * clause (it is the `else` of the `if` before it).
   */
  predicate WellFormed(arity: nat, block: seq<Clause>)
  {
    && 1 <= arity <= 10
    && (forall i :: 0 <= i < |block| && block[i].When? ==> |block[i].patterns| == arity)
    && (forall i :: 0 <= i < |block| && block[i].Otherwise? ==> i > 0)
  }

  /** Whether a clause takes the subjects when the flag is still 0. */
  predicate Taken(subjects: seq<Int64>, c: Clause)
    requires c.When? ==> |c.patterns| == |subjects|
  {
    match c
    case When(ps, _) => Satisfies(subjects, ps)
    case Otherwise(_) => true
  }

  /** The index of the first clause that takes the subjects, if any: first match wins. */
  function FirstClause(subjects: seq<Int64>, block: seq<Clause>): (r: Option<nat>)
    requires forall i :: 0 <= i < |block| && block[i].When? ==> |block[i].patterns| == |subjects|
    ensures r.Some? ==> r.value < |block| && Taken(subjects, block[r.value])
    ensures r.Some? ==> forall j :: 0 <= j < r.value ==> !Taken(subjects, block[j])
    ensures r.None? ==> forall j :: 0 <= j < |block| ==> !Taken(subjects, block[j])
  {
    if |block| == 0 then None
    else if Taken(subjects, block[0]) then Some(0)
    else
      match FirstClause(subjects, block[1..])
      case None => None
      case Some(k) => Some(k + 1)
  }

  /**
   * One run of the block inside the innermost loop, with `__matched` at 0:
   * the clauses in order, each `when` testing the flag and then its patterns,
   * `otherwise` testing the flag only.  Returns the new flag and the bodies run.
   */
  method RunBlock(vs: seq<Word>, block: seq<Clause>, ghost subjects: seq<Int64>)
    returns (matched: bool, ran: seq<nat>)
    requires vs == Stash(subjects) && WellFormed(|subjects|, block)
    ensures matched <==> FirstClause(subjects, block).Some?
    ensures ran == if matched then [block[FirstClause(subjects, block).value].body] else []
  {
    matched := false;
    ran := [];
    ghost var first := 0;
    var i := 0;
    while i < |block|
      invariant 0 <= i <= |block|
      invariant !matched ==> ran == [] && forall j :: 0 <= j < i ==> !Taken(subjects, block[j])
      invariant matched ==> 0 <= first < i && Taken(subjects, block[first])
      invariant matched ==> forall j :: 0 <= j < first ==> !Taken(subjects, block[j])
      invariant matched ==> ran == [block[first].body]
    {
      if !matched {
        var fires := ClauseFires(vs, block[i], subjects);
        if fires {
          matched := true;
          ran := ran + [block[i].body];
          first := i;
        }
      }
      i := i + 1;
    }
  }

  /**
   * The condition of one clause once `!__matched` has held: a `when` tests its
   * patterns; `otherwise` has nothing left to test.  (Its `else` adds nothing:
   * a `when` whose `if` was taken has already set the flag.)
   */
  method ClauseFires(vs: seq<Word>, c: Clause, ghost subjects: seq<Int64>) returns (fires: bool)
    requires vs == Stash(subjects) && (c.When? ==> |c.patterns| == |subjects|)
    ensures fires == Taken(subjects, c)
  {
    match c
    case When(ps, _) =>
      AllHoldIff(subjects, ps);
      fires := AllHold(vs, ps);
    case Otherwise(_) =>
      fires := true;
  }

  /**
   * `match(a1, ..., an) { block }`.  The C loops repeat the block while the
   * flag is 0, without bound; `passes` is how many runs of the block the model
   * observes.  The result says whether the loops were left within that many
   * runs and which bodies ran.
   */
  method Match(subjects: seq<Int64>, block: seq<Clause>, passes: nat)
    returns (exited: bool, ran: seq<nat>)
    requires WellFormed(|subjects|, block)
    ensures exited <==> passes > 0 && FirstClause(subjects, block).Some?
    ensures ran == if exited then [block[FirstClause(subjects, block).value].body] else []
  {
    var vs := Stash(subjects);
    var matched := false;
    ran := [];
    var n := 0;
    while !matched && n < passes
      invariant 0 <= n <= passes
      invariant n == 0 ==> !matched && ran == []
      invariant n > 0 ==> (matched <==> FirstClause(subjects, block).Some?)
      invariant ran == if matched then [block[FirstClause(subjects, block).value].body] else []
    {
      var m, r := RunBlock(vs, block, subjects);
      matched := m;
      ran := ran + r;
      n := n + 1;
    }
    exited := matched;
  }

  /**
   * The loops are left exactly when some clause takes the subjects; that is,
   * when some `when` matches or the block has an `otherwise`.
   */
  lemma ExitsIff(subjects: seq<Int64>, block: seq<Clause>)
    requires WellFormed(|subjects|, block)
    ensures FirstClause(subjects, block).Some? <==>
      exists i :: 0 <= i < |block| && (block[i].Otherwise? || Satisfies(subjects, block[i].patterns))
  {
    var r := FirstClause(subjects, block);
    if r.Some? {
      assert block[r.value].Otherwise? || Satisfies(subjects, block[r.value].patterns);
    }
  }

  /** An `otherwise` body runs exactly when no clause before it took the subjects. */
  lemma OtherwiseRunsIff(subjects: seq<Int64>, block: seq<Clause>, k: nat)
    requires WellFormed(|subjects|, block) && k < |block| && block[k].Otherwise?
    ensures FirstClause(subjects, block) == Some(k) <==> forall j :: 0 <= j < k ==> !Taken(subjects, block[j])
  {
    var r := FirstClause(subjects, block);
    if forall j :: 0 <= j < k ==> !Taken(subjects, block[j]) {
      assert Taken(subjects, block[k]);
      assert r.Some? && r.value <= k;
    }
  }

  // ---------------------------------------------------------------------------
  // Expression form
  // ---------------------------------------------------------------------------

  /** One `is(p1, ..., pn) ? value` of a chain. */
  datatype Branch<T> = Branch(patterns: seq<Word>, value: T)

  predicate Arity<T>(n: nat, branches: seq<Branch<T>>)
  {
    forall i :: 0 <= i < |branches| ==> |branches[i].patterns| == n
  }

  /** The ternary chain `is(...) ? v1 : is(...) ? v2 : ... : default`. */
  function Chain<T>(vs: seq<Word>, branches: seq<Branch<T>>, default: T): T
    requires Arity(|vs|, branches)
  {
    if |branches| == 0 then default
    else if AllHold(vs, branches[0].patterns) then branches[0].value
    else Chain(vs, branches[1..], default)
  }

  /** `match_expr(a1, ..., an) in(chain)`, and `let`, which is the same macro. */
  function MatchExpr<T>(subjects: seq<Int64>, branches: seq<Branch<T>>, default: T): T
    requires 1 <= |subjects| <= 10 && Arity(|subjects|, branches)
  {
    Chain(Stash(subjects), branches, default)
  }

  /** The index of the first branch whose patterns all hold, if any. */
  function FirstBranch<T>(subjects: seq<Int64>, branches: seq<Branch<T>>): (r: Option<nat>)
    requires Arity(|subjects|, branches)
    ensures r.Some? ==> r.value < |branches| && Satisfies(subjects, branches[r.value].patterns)
    ensures r.Some? ==> forall j :: 0 <= j < r.value ==> !Satisfies(subjects, branches[j].patterns)
    ensures r.None? ==> forall j :: 0 <= j < |branches| ==> !Satisfies(subjects, branches[j].patterns)
  {
    if |branches| == 0 then None
    else if Satisfies(subjects, branches[0].patterns) then Some(0)
    else
      match FirstBranch(subjects, branches[1..])
      case None => None
      case Some(k) => Some(k + 1)
  }

  /** The expression form yields the first satisfied branch's value, else the default. */
  lemma {:induction false} MatchExprFirstWins<T>(subjects: seq<Int64>, branches: seq<Branch<T>>, default: T)
    requires 1 <= |subjects| <= 10 && Arity(|subjects|, branches)
    ensures MatchExpr(subjects, branches, default) ==
      match FirstBranch(subjects, branches)
      case Some(i) => branches[i].value
      case None => default
    decreases |branches|
  {
    if |branches| > 0 {
      AllHoldIff(subjects, branches[0].patterns);
      if !Satisfies(subjects, branches[0].patterns) {
        MatchExprFirstWins(subjects, branches[1..], default);
      }
    }
  }

  /** Putting a branch of the right arity in front keeps a chain well formed. */
  lemma ArityCons<T>(n: nat, b: Branch<T>, rest: seq<Branch<T>>)
    requires |b.patterns| == n && Arity(n, rest)
    ensures Arity(n, [b] + rest)
  {
    assert forall i :: 1 <= i < |[b] + rest| ==> ([b] + rest)[i] == rest[i - 1];
  }

  /** One step of the chain, for unfolding a concrete chain branch by branch. */
  lemma MatchExprStep<T>(subjects: seq<Int64>, b: Branch<T>, rest: seq<Branch<T>>, default: T)
    requires 1 <= |subjects| <= 10 && |b.patterns| == |subjects| && Arity(|subjects|, rest)
    ensures MatchExpr(subjects, [b] + rest, default) ==
      if Satisfies(subjects, b.patterns) then b.value else MatchExpr(subjects, rest, default)
  {
    AllHoldIff(subjects, b.patterns);
    assert ([b] + rest)[1..] == rest;
  }
}
