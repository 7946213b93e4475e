/**
 * benchmarks/error_handling_*.c: `parse_int_*`, which returns `Result_int`.
 * A C string pointer that may be null is an `Option<string>`; the string is
 * the characters before its terminating NUL.  The floating-point
 * `divide_*` pair is not part of this model.
 */
module ErrorHandling {
  import opened Bits
  import opened Variants

  const EMPTY_STRING: string := "Empty string"
  const INVALID_NUMBER: string := "Invalid number"

  function ParseIntHandwritten(str: Option<string>): Result<Int32>
  {
    if str.None? || |str.value| == 0 then Err(EMPTY_STRING)
    else if str.value == "42" then Ok(42)
    else Err(INVALID_NUMBER)
  }

  function ParseIntMatch(str: Option<string>): Result<Int32>
  {
    if str.None? || |str.value| == 0 then Err(EMPTY_STRING)
    else if str.value == "42" then Ok(42)
    else Err(INVALID_NUMBER)
  }

  /**
   * The three outcomes: only the text "42" parses, to 42; a null or empty
   * string is "Empty string"; any other text is "Invalid number".
   */
  lemma ParseIntOutcomes(str: Option<string>)
    ensures ParseIntHandwritten(str).Ok? <==> str == Some("42")
    ensures ParseIntHandwritten(str).Ok? ==> ParseIntHandwritten(str).value == 42
    ensures ParseIntHandwritten(str) == Err(EMPTY_STRING) <==> str.None? || str == Some("")
    ensures ParseIntHandwritten(str) == Err(INVALID_NUMBER) <==> str.Some? && str.value !in {"", "42"}
    ensures ParseIntHandwritten(str).Err? ==> ParseIntHandwritten(str).message in {EMPTY_STRING, INVALID_NUMBER}
  {
  }

  /** The two versions return the same result for every argument. */
  lemma ParseIntAgree(str: Option<string>)
    ensures ParseIntMatch(str) == ParseIntHandwritten(str)
  {
  }

  /** The benchmark's inputs `{"42", "", "invalid", "42"}` contribute 42 + 0 + 0 + 42. */
  lemma ParseIntBenchmarkInputs()
    ensures ParseIntHandwritten(Some("42")) == Ok(42)
    ensures ParseIntHandwritten(Some("")) == Err(EMPTY_STRING)
    ensures ParseIntHandwritten(Some("invalid")) == Err(INVALID_NUMBER)
  {
  }
}
