# c-match pattern matching, modelled in Dafny

`match.h` adds a pattern-matching notation to C using only the preprocessor.

- **Pattern words.** Every pattern is a single pointer-sized word.
  - The wildcard `__` is the sentinel `0x1DEADBEEF`.
  - An integer literal is the integer itself, cast through `intptr_t`.
  - `gt`, `ge`, `lt`, `le` and `ne` put a kind number 1 to 5 in the top nibble and the bound's low 60 bits below it.
  - `range` (exclusive) and `between` (inclusive) use kinds 6 and 7. They store two 16-bit bounds: `low` in bits 32-47 and `high` in bits 0-15.
  - `evaluate_pattern` decodes a word and tests a subject against it.
- **Two forms built on those words.**
  - The statement form is `match(...) { when(...) {...} otherwise {...} }`. It is a set of nested `for` loops that repeat while a `__matched` flag is clear.
  - The expression form is `match_expr(...) in(is(...) ? ... : ...)`. It is a GNU statement-expression whose value is a ternary chain.
  - Both store the subjects in `void *` variables.
  - Both are generated for arities 1 to 10. `COUNT_ARGS` picks the arity.

The benchmarks write small decision functions twice, once by hand and once with the library. The repository's claim is that the two versions are the same computation. The model proves that claim for every input.

Files:

- `bits.dfy`
  - 64-bit words as integers in `[0, 2^64)`.
  - The C casts (`uintptr_t`, `intptr_t`, `uint16_t`, `int16_t`) and `&`, `|`, `<<`, `>>` on words.
  - The arithmetic facts about them.
- `encoding.dfy`
  - The encoders, the `GET_*` decoders and `evaluate_pattern`, following the header's masks and casts exactly.
  - Field lemmas for every encoder.
- `semantics.dfy`
  - A `Pattern` datatype with its intended meaning `Matches`.
  - `Encode` and `Decode`.
  - Proofs of three facts:
    - `evaluate_pattern` is `Matches` of the decoded pattern.
    - Decoding inverts encoding on in-range arguments.
    - What happens outside that range.
- `dispatch.dfy`
  - `COUNT_ARGS`.
  - The statement form as methods with the `__matched` flag and its loops.
  - The expression form as a function on a branch list and a default.
- `variants.dfy`: the `Option` and `Result` values the benchmarks return.
- `simple_matching.dfy`, `let_expressions.dfy`, `optional_values.dfy`, `error_handling.dfy`: the benchmark functions, both versions of each.

### Narrow fields

Out-of-range bounds are not clamped.

- Each `range`/`between` bound goes through `(uint16_t)` when stored and `(int16_t)` when read back. It is reduced modulo 2^16 and sign-extended.
- A comparison bound is reduced modulo 2^60.

The model keeps both truncations, and proves what they lead to:

- `Semantics.NegativeBoundWraps`: `gt(-1)` rejects 0.
- `Semantics.WideRangeIsEmpty`: `between(0, 40000)` matches nothing.

### `let`

`let` is not defined in `match.h`, but the benchmarks use it. `tests/test_let_syntax.c:2` describes `let` as another name for `match_expr`, so the model treats `let(...) in(...)` as `match_expr(...) in(...)`.

### Subjects and integers

- A subject is an `intptr_t`, modelled as `Int64`.
- The benchmarks' `int` is `Int32`.
- `intptr_t` is taken to be 64-bit two's complement.

## Model

| member | source | states |
|---|---|---|
| Bits.IntptrRoundTrip | match.h:141 | storing a 64-bit signed subject in a `void *` and reading it back as `intptr_t` gives the subject back |
| Bits.AndLowMask | match.h:63 | masking a word with `2^k - 1` keeps its value modulo `2^k` |
| Bits.OrDisjoint | match.h:70 | or-ing a value shifted left by `k` with a value below `2^k` is their sum |
| Bits.Int16OfExact | match.h:79-80 | the `uint16_t`-then-`int16_t` round trip returns a bound exactly when the bound lies in `[-2^15, 2^15)`, and it always keeps the bound modulo 2^16 |
| Encoding.IsWildcard | match.h:56 | `IS_WILDCARD`: equality with the sentinel `0x1DEADBEEF`; `Semantics.WildcardMatchesAll` and `Semantics.DecodeLiteral` state what follows from it |
| Encoding.Literal | match.h:120 | an integer pattern is its `intptr_t` value as a word; `Encoding.LiteralFields`, `Semantics.DecodeLiteral` and `Semantics.EvaluateLiteral` characterise it |
| Encoding.Gt | match.h:63 | the `gt` word; `Encoding.GtFields`, `Semantics.DecodeCompare` and `Semantics.EvaluateComparisons` characterise it |
| Encoding.Ge | match.h:64 | the `ge` word; `Encoding.GeFields`, `Semantics.DecodeCompare` and `Semantics.EvaluateComparisons` characterise it |
| Encoding.Lt | match.h:65 | the `lt` word; `Encoding.LtFields`, `Semantics.DecodeCompare` and `Semantics.EvaluateComparisons` characterise it |
| Encoding.Le | match.h:66 | the `le` word; `Encoding.LeFields`, `Semantics.DecodeCompare` and `Semantics.EvaluateComparisons` characterise it |
| Encoding.Ne | match.h:67 | the `ne` word; `Encoding.NeFields`, `Semantics.DecodeCompare` and `Semantics.EvaluateComparisons` characterise it |
| Encoding.Range | match.h:70 | the `range` word; `Encoding.RangeFields`, `Semantics.DecodeRange` and `Semantics.EvaluateRanges` characterise it |
| Encoding.Between | match.h:71 | the `between` word; `Encoding.BetweenFields`, `Semantics.DecodeBetween` and `Semantics.EvaluateRanges` characterise it |
| Encoding.EvaluatePattern | match.h:86-110 | `evaluate_pattern`, branch for branch; `Semantics.EvaluateIsDecodedMeaning` proves it is the meaning of the decoded pattern |
| Encoding.ComparePayload | match.h:63-67 | the payload of a comparison word is the bound modulo 2^60, for every bound including negative ones |
| Encoding.WithTag | match.h:63-71 | or-ing a kind tag with a payload below 2^60 places the kind in the top nibble, with no overlap |
| Encoding.RangeBounds | match.h:70-71 | the range payload is `uint16(low) * 2^32 + uint16(high)` and stays below 2^60 |
| Encoding.PatternType | match.h:77 | `GET_PATTERN_TYPE` is the word's top nibble |
| Encoding.PatternValue | match.h:78 | `GET_PATTERN_VALUE` is the word's low 60 bits |
| Encoding.RangeLow | match.h:79 | `GET_RANGE_LOW` sign-extends bits 32-47 |
| Encoding.RangeHigh | match.h:80 | `GET_RANGE_HIGH` sign-extends bits 0-15 |
| Encoding.GtFields | match.h:63 | `gt(v)` has kind 1, has value `v mod 2^60`, and is never the wildcard |
| Encoding.GeFields | match.h:64 | `ge(v)` has kind 2, has value `v mod 2^60`, and is never the wildcard |
| Encoding.LtFields | match.h:65 | `lt(v)` has kind 3, has value `v mod 2^60`, and is never the wildcard |
| Encoding.LeFields | match.h:66 | `le(v)` has kind 4, has value `v mod 2^60`, and is never the wildcard |
| Encoding.NeFields | match.h:67 | `ne(v)` has kind 5, has value `v mod 2^60`, and is never the wildcard |
| Encoding.RangeFields | match.h:70 | `range(lo, hi)` has kind 6, is not the wildcard, and decodes to the `int16_t` images of its bounds |
| Encoding.BetweenFields | match.h:71 | `between(lo, hi)` has kind 7, is not the wildcard, and decodes to the `int16_t` images of its bounds |
| Encoding.LiteralFields | match.h:89-90 | the kind of a literal is its top nibble: 0 and exact for `[0, 2^60)`, and 8 or more for every negative literal |
| Semantics.Encode | match.h:55-71 | the macro a caller writes for each pattern; `Semantics.DecodeEncode` proves `Decode` inverts it on in-range arguments |
| Semantics.Decode | match.h:77-80 | a word read back through `IS_WILDCARD` and the `GET_*` decoders; `Semantics.DecodeEncode` and `Semantics.EvaluateIsDecodedMeaning` characterise it |
| Semantics.EvaluateIsDecodedMeaning | match.h:86-110 | `evaluate_pattern` on any word equals the intended meaning of the pattern that word decodes to |
| Semantics.WildcardMatchesAll | match.h:87 | the wildcard matches every subject |
| Semantics.DecodeCompare | match.h:63-67 | every comparison word decodes to its operator with kind 1 to 5 and the bound modulo 2^60 |
| Semantics.DecodeRange | match.h:70 | `range(lo, hi)` decodes to the open interval between the `int16_t` images of its bounds |
| Semantics.DecodeBetween | match.h:71 | `between(lo, hi)` decodes to the closed interval between the `int16_t` images of its bounds |
| Semantics.DecodeLiteral | match.h:87-109 | a literal decodes to itself iff it is in `[0, 2^60)` and is not the sentinel; a negative literal decodes to a never-matching pattern; the sentinel decodes to the wildcard; a literal of 2^60 or more decodes to a comparison or a range |
| Semantics.DecodeEncode | match.h:55-80 | decoding inverts every encoder on in-range arguments |
| Semantics.EvaluateEncode | match.h:86-110 | on in-range arguments, `evaluate_pattern` of the macro's word is the pattern's intended meaning |
| Semantics.EvaluateCompare | match.h:93-97 | each comparison macro compares the subject with its bound modulo 2^60 |
| Semantics.EvaluateComparisons | match.h:93-97 | for bounds in `[0, 2^60)`, `gt` `ge` `lt` `le` `ne` evaluate to `>` `>=` `<` `<=` `!=` |
| Semantics.EvaluateRanges | match.h:98-107 | `range` is the exclusive interval and `between` the inclusive one, on the `int16_t` images of the bounds |
| Semantics.EvaluateInt16Ranges | match.h:98-107 | for `int16_t` bounds, `range` and `between` are exactly the intervals they name |
| Semantics.EvaluateLiteral | match.h:90 | a literal in `[0, 2^60)` other than the sentinel matches exactly the equal subject; a negative literal matches nothing; the sentinel matches everything |
| Semantics.NegativeBoundWraps | match.h:93 | `gt(-1)` means `gt(2^60 - 1)`, so it rejects 0 and accepts 2^60 |
| Semantics.WideRangeIsEmpty | match.h:103-107 | `between(0, 40000)` and `range(0, 40000)` match no subject |
| Dispatch.CountArgs | match.h:52 | `COUNT_ARGS`: the 11th element of the arguments followed by the countdown; `Dispatch.CountArgsCounts` and `Dispatch.CountArgsOverflows` characterise it |
| Dispatch.Countdown | match.h:52 | the appended list is `10, 9, ..., 0` |
| Dispatch.CountArgsCounts | match.h:51-52 | for one to ten arguments, `COUNT_ARGS` yields the count |
| Dispatch.CountArgsOverflows | match.h:51-52 | from eleven arguments on, it yields the 11th argument, which is not a count |
| Dispatch.StashRoundTrip | match.h:230 | the `(intptr_t)__vK` each clause reads is the original subject |
| Dispatch.AllHold | match.h:230-297 | the left-to-right `&&` chain of `evaluate_pattern` calls on the stored words, as in `WHEN_N` and `IS_N`; `Dispatch.AllHoldIff` characterises it |
| Dispatch.AllHoldIff | match.h:229-297 | the clause test on the stored subjects holds iff every position's `evaluate_pattern` holds on the original subjects |
| Dispatch.FirstClause | match.h:229-299 | the selected clause is taken (its patterns all hold, or it is `otherwise`), and no earlier clause is; if none is selected, no clause is taken |
| Dispatch.ClauseFires | match.h:230 | one `when` or `otherwise` test sets the flag exactly when that clause is taken |
| Dispatch.RunBlock | match.h:229-299 | one pass over the block sets the flag iff some clause is taken, and runs exactly the first taken clause's body, or nothing |
| Dispatch.Match | match.h:139-222 | the loop exits iff some clause is taken; it then has run exactly that first clause's body once; otherwise nothing has run |
| Dispatch.ExitsIff | match.h:139-141 | the loop exits iff some `when` holds or the block has an `otherwise` |
| Dispatch.OtherwiseRunsIff | match.h:299 | an `otherwise` is the selected clause iff no clause before it is taken |
| Dispatch.Chain | match.h:355-408 | the ternary chain of `is(...)` tests on the stored words, ending in the default; `Dispatch.MatchExprFirstWins` characterises it |
| Dispatch.MatchExpr | match.h:309-349 | `match_expr(...) in(...)`: the subjects stored, then the chain's value; `Dispatch.MatchExprFirstWins` and `Dispatch.MatchExprStep` characterise it |
| Dispatch.FirstBranch | match.h:355-408 | the selected branch satisfies its `is` test and no earlier one does; when none is selected, no branch satisfies its test |
| Dispatch.MatchExprFirstWins | match.h:309-349 | the expression form's value is the first satisfied branch's value, or the default when none is satisfied |
| Dispatch.MatchExprStep | match.h:349 | unfolding the chain by one branch: take the head's value if its test holds, else continue with the rest |
| SimpleMatching.CalculateGradeHandwritten | benchmarks/simple_matching_handwritten.c:11-17 | the hand-written grade; `SimpleMatching.GradeBands` and `SimpleMatching.GradeMonotone` characterise it |
| SimpleMatching.CheckRangeHandwritten | benchmarks/simple_matching_handwritten.c:20-25 | the hand-written range check; `SimpleMatching.CheckRangeBands` characterises it |
| SimpleMatching.ProcessCoordinatesHandwritten | benchmarks/simple_matching_handwritten.c:28-33 | the hand-written quadrant test; `SimpleMatching.CoordinateClasses` characterises it |
| SimpleMatching.CalculateGradeMatch | benchmarks/simple_matching_match.c:12-20 | the `let` chain over `ge(90)`, `ge(80)`, `ge(70)`, `ge(60)`; `SimpleMatching.CalculateGradeAgree` proves it equal to the hand-written grade |
| SimpleMatching.CheckRangeMatch | benchmarks/simple_matching_match.c:23-30 | the `let` chain over `gt(50)`, `between(20, 30)`, `gt(10)`; `SimpleMatching.CheckRangeAgree` proves it equal to the hand-written check |
| SimpleMatching.ProcessCoordinatesMatch | benchmarks/simple_matching_match.c:33-40 | the two-subject `let` chain; `SimpleMatching.ProcessCoordinatesAgree` proves it equal to the hand-written version |
| SimpleMatching.GradeChain | benchmarks/simple_matching_match.c:13-19 | the grade chain over any four patterns that test the thresholds 90, 80, 70, 60 computes the hand-written grade |
| SimpleMatching.CalculateGradeAgree | benchmarks/simple_matching_match.c:12-20 | `calculate_grade_match` equals `calculate_grade_handwritten` for every `int` |
| SimpleMatching.RangeChain | benchmarks/simple_matching_match.c:24-29 | the range-check chain over any patterns testing `> 50`, `20..30` and `> 10` computes the hand-written result |
| SimpleMatching.CheckRangeAgree | benchmarks/simple_matching_match.c:23-30 | `check_range_match` equals `check_range_handwritten` for every `int` |
| SimpleMatching.CoordinateChain | benchmarks/simple_matching_match.c:34-39 | the coordinate chain over any patterns testing the six sign conditions computes the hand-written result |
| SimpleMatching.ProcessCoordinatesAgree | benchmarks/simple_matching_match.c:33-40 | `process_coordinates_match` equals `process_coordinates_handwritten` for every pair of `int`s |
| SimpleMatching.GradeBands | benchmarks/simple_matching_handwritten.c:11-17 | the result is always one of A, B, C, D, F, and each letter is returned exactly for its band of scores |
| SimpleMatching.GradeMonotone | benchmarks/simple_matching_handwritten.c:11-17 | a higher score never gets a later letter |
| SimpleMatching.CheckRangeBands | benchmarks/simple_matching_handwritten.c:20-25 | 100 iff above 50; 50 iff in 20..30; 25 iff in 11..19 or 31..50; 0 iff at most 10 |
| SimpleMatching.CoordinateClasses | benchmarks/simple_matching_handwritten.c:28-33 | 0 iff the origin, 1 iff both positive, 2 iff both negative, 3 iff none of these |
| SimpleMatching.RangeOverlapGoesToEarlierClause | benchmarks/simple_matching_match.c:26-27 | for 20..30 both `between(20, 30)` and `gt(10)` hold, and the earlier one decides the result, 50 |
| SimpleMatching.CoordinateExamples | benchmarks/simple_matching_match.c:35-38 | the literal pattern `(0, 0)` selects 0 at the origin, and `(5, -3)` reaches the default 3 |
| LetExpressions.GradeFromScoreHandwritten | benchmarks/let_expressions_handwritten.c:12-17 | the hand-written ternary grade; `LetExpressions.GradeFromScoreAgree` proves it equal to `calculate_grade_handwritten`, which `SimpleMatching.GradeBands` characterises |
| LetExpressions.CategorizeValueHandwritten | benchmarks/let_expressions_handwritten.c:20-25 | the hand-written categorisation; `LetExpressions.CategoryClasses` characterises it |
| LetExpressions.ProcessRangeHandwritten | benchmarks/let_expressions_handwritten.c:36-42 | the hand-written range bands; `LetExpressions.ProcessRangeValues` and `LetExpressions.ProcessRangeMonotone` characterise it |
| LetExpressions.GradeFromScoreLet | benchmarks/let_expressions_match.c:13-21 | the `let` grade chain; `LetExpressions.GradeFromScoreAgree` proves it equal to the hand-written version |
| LetExpressions.CategorizeValueLet | benchmarks/let_expressions_match.c:24-32 | the two-subject `let` chain; `LetExpressions.CategorizeValueAgree` proves it equal to the hand-written version |
| LetExpressions.ProcessRangeLet | benchmarks/let_expressions_match.c:46-55 | the `let` chain of `gt` and `between` tests; `LetExpressions.ProcessRangeAgree` proves it equal to the hand-written version |
| LetExpressions.GradeFromScoreAgree | benchmarks/let_expressions_match.c:13-21 | `grade_from_score_let` equals `grade_from_score_handwritten` for every `int`, and the latter equals `calculate_grade_handwritten` |
| LetExpressions.CategoryTail | benchmarks/let_expressions_match.c:28-30 | the last two branches of the categorisation chain give 2, 3 or the default 4 under their sign conditions |
| LetExpressions.CategoryChain | benchmarks/let_expressions_match.c:25-31 | the categorisation chain over any patterns testing the six sign conditions computes the hand-written result |
| LetExpressions.CategorizeValueAgree | benchmarks/let_expressions_match.c:24-32 | `categorize_value_let` equals `categorize_value_handwritten` for every pair of `int`s |
| LetExpressions.ProcessRangeTail | benchmarks/let_expressions_match.c:50-53 | the last three branches of the range chain give 250, 100, 50 or the default 0 under their conditions |
| LetExpressions.ProcessRangeChain | benchmarks/let_expressions_match.c:47-54 | the range chain over any patterns testing its five conditions computes the hand-written result |
| LetExpressions.ProcessRangeAgree | benchmarks/let_expressions_match.c:46-55 | `process_range_let` equals `process_range_handwritten` for every `int`; the inclusive `between(50, 69)` and `between(20, 49)` coincide with the hand-written half-open tests |
| LetExpressions.CategoryClasses | benchmarks/let_expressions_handwritten.c:20-25 | each of the five categories is returned exactly for its region of the plane |
| LetExpressions.ProcessRangeMonotone | benchmarks/let_expressions_handwritten.c:36-42 | the hand-written range function never decreases as the value grows |
| LetExpressions.ProcessRangeValues | benchmarks/let_expressions_handwritten.c:36-42 | the result is one of 0, 50, 100, 250, 500, 1000, and each value is returned exactly for its band: above 90, 70..90, 50..69, 20..49, 1..19, at most 0 |
| LetExpressions.ProcessRangeBoundaries | benchmarks/let_expressions_match.c:48-50 | `gt(90)` is strict and `between(70, 90)` inclusive: 90 gives 500, 91 gives 1000, 69 gives 250, 70 gives 500 |
| OptionalValues.IndexOf | benchmarks/optional_values_handwritten.c:16-23 | reference search: a found index is in bounds, holds the target, and is the least such index; nothing is found iff the target does not occur |
| OptionalValues.FindInArrayHandwritten | benchmarks/optional_values_handwritten.c:16-23 | the loop returns the least index below `size` holding the target, or `None` iff no element below `size` equals it; the array is only read |
| OptionalValues.FindInArrayMatch | benchmarks/optional_values_match.c:13-20 | the same result as the reference search over `arr[0..size)`, with the same bounds and the same iff for `None` |
| OptionalValues.FindInArrayAgree | benchmarks/optional_values_match.c:13-20 | the two searches return the same result for every array, size and target |
| OptionalValues.FirstHit | benchmarks/optional_values_handwritten.c:18-19 | returning at the first position that holds the target yields the reference search's answer |
| OptionalValues.IndexOfOdds | benchmarks/optional_values_handwritten.c:43-49 | in the benchmark's table `{1, 3, ..., 2n-1}` an odd target `t` is found at `(t-1)/2`, and no other target is found |
| OptionalValues.GetConfigHandwritten | benchmarks/optional_values_handwritten.c:25-33 | the hand-written `strcmp` chain; `OptionalValues.GetConfigIsLookup` characterises it |
| OptionalValues.GetConfigMatch | benchmarks/optional_values_match.c:22-30 | the same chain; `OptionalValues.GetConfigAgree` proves it equal to the hand-written version |
| OptionalValues.GetConfigIsLookup | benchmarks/optional_values_handwritten.c:25-33 | `get_config_handwritten` is a lookup in `{debug: enabled, port: 8080}`, returning `None` exactly for the other keys |
| OptionalValues.GetConfigAgree | benchmarks/optional_values_match.c:22-30 | `get_config_match` equals `get_config_handwritten` on every key |
| ErrorHandling.ParseIntHandwritten | benchmarks/error_handling_handwritten.c:23-31 | the guarded returns on NULL, empty and "42"; `ErrorHandling.ParseIntOutcomes` characterises it |
| ErrorHandling.ParseIntMatch | benchmarks/error_handling_match.c:17-25 | the same guarded returns; `ErrorHandling.ParseIntAgree` proves it equal to the hand-written version |
| ErrorHandling.ParseIntOutcomes | benchmarks/error_handling_handwritten.c:23-31 | `Ok` iff the text is exactly "42", and then the payload is 42; "Empty string" iff NULL or empty; "Invalid number" iff any other text; no other message occurs |
| ErrorHandling.ParseIntAgree | benchmarks/error_handling_match.c:17-25 | `parse_int_match` equals `parse_int_handwritten` on every input, NULL included |
| ErrorHandling.ParseIntBenchmarkInputs | benchmarks/error_handling_handwritten.c:53-55 | on the benchmark's inputs, "42" gives `Ok(42)`, "" gives "Empty string", and "invalid" gives "Invalid number" |

## Left out

- `compute_result_*` and `divide_*`: floating-point arithmetic is not modelled. Subjects and bounds of type `double`, which the header truncates through `intptr_t`, are not modelled either.
- The benchmarks' `main` functions: timing loops over `clock()`, `volatile` accumulators and `printf`.
- `examples/comprehensive_example.c` and the files under `tests/`: they illustrate and exercise the library; they add no operations of their own to `match.h`.
- Option/Result generation macros, `tag_union`, variant tags such as `Result_Ok`, and automatic variant detection: none of them is defined in `match.h`. The benchmarks' results are the plain `Option` and `Result` datatypes of `variants.dfy`.
- `_auto_pattern`: its `_Generic` selection is not modelled. An integer argument is taken as `Literal` of its value. A `void *` argument is taken as the pattern word itself. An `unsigned long` of 2^63 or more has no `Int64` value, so it is not modelled.
- Token pasting in the `*_DISPATCH` macros, GNU statement-expressions and `do(...)`: the model selects the arity directly. It also evaluates each subject once, as the stashed `__vK` variables do.
- Clause bodies: they are modelled as identifiers. Their side effects, and `break`, `continue` or `return` inside them, are not modelled.
- Dispatch.Match: the C loops repeat for ever when no clause is taken. The model runs at most `passes` passes, and only proves that the loop does not exit in that case. It cannot state non-termination.
- Dispatch.CountArgs: the empty argument list is not covered. The preprocessor sees one empty argument there, and that case is not modelled.
- Dispatch.WellFormed: every `when` must have as many patterns as there are subjects. C also compiles a `when` with fewer patterns, which tests only the first subjects (`WHEN_1` inside `MATCH_2` reads only `__v1`). The model excludes that case.
- Arities above 10: `match.h` generates no macros for them. `CountArgsOverflows` only shows that the count is then wrong.
- C strings: modelled as `seq<char>` without the terminating NUL. `strlen` is the length and `strcmp(...) == 0` is equality. A possibly-NULL `const char *` is an `Option<string>`.
- OptionalValues.GetConfigHandwritten: the key is never NULL, since `strcmp` on NULL is undefined behaviour in C.
- OptionalValues.FindInArrayHandwritten, OptionalValues.FindInArrayMatch, OptionalValues.FindInArrayAgree: `arr` is a non-null array that holds at least `size` elements. Reading beyond a C array is undefined behaviour, so no contract covers that case.
- Pointer widths other than 64 bits are not modelled. `intptr_t` is always 64-bit two's complement.
