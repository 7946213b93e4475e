/**
 * benchmarks/optional_values_*.c: a linear search and a configuration lookup
 * that return `Option_int` and `Option_char_ptr`.  The hand-written and the
 * pattern-matching files define these functions with the same bodies; the
 * difference between them lies in how their `main` consumes the result.
 */
module OptionalValues {
  import opened Bits
  import opened Variants

  // ---------------------------------------------------------------------------
  // find_in_array
  // ---------------------------------------------------------------------------

  /** The first position of `target` in `s`, if it occurs. */
  function IndexOf(s: seq<Int32>, target: Int32): (r: Option<int>)
    ensures r.Some? ==> 0 <= r.value < |s| && s[r.value] == target
    ensures r.Some? ==> forall j :: 0 <= j < r.value ==> s[j] != target
    ensures r.None? <==> target !in s
    decreases |s|
  {
    if |s| == 0 then None
    else if s[0] == target then Some(0)
    else
      match IndexOf(s[1..], target)
      case None => None
      case Some(k) => Some(k + 1)
  }

  /** How many elements `for (int i = 0; i < size; i++)` visits: none for a negative size. */
  function Searched(size: Int32): nat
  {
    if size < 0 then 0 else size
  }

  /**
   * `find_in_array_handwritten`: the first index below `size` holding
   * `target`.  The array is only read.
   */
  method FindInArrayHandwritten(arr: array<Int32>, size: Int32, target: Int32) returns (r: Option<int>)
    requires size <= arr.Length
    ensures r == IndexOf(arr[..Searched(size)], target)
    ensures r.Some? ==> 0 <= r.value < size && arr[r.value] == target
    ensures r.None? <==> forall j :: 0 <= j < size ==> arr[j] != target
  {
    var i := 0;
    while i < size
      invariant 0 <= i <= Searched(size)
      invariant forall j :: 0 <= j < i ==> arr[j] != target
    {
      if arr[i] == target {
        FirstHit(arr[..Searched(size)], target, i);
        return Some(i);
      }
      i := i + 1;
    }
    assert target !in arr[..Searched(size)];
    return None;
  }

  /** `find_in_array_match`: the same loop, with the same result. */
  method FindInArrayMatch(arr: array<Int32>, size: Int32, target: Int32) returns (r: Option<int>)
    requires size <= arr.Length
    ensures r == IndexOf(arr[..Searched(size)], target)
    ensures r.Some? ==> 0 <= r.value < size && arr[r.value] == target
    ensures r.None? <==> forall j :: 0 <= j < size ==> arr[j] != target
  {
    for i := 0 to Searched(size)
      invariant forall j :: 0 <= j < i ==> arr[j] != target
    {
      if arr[i] == target {
        FirstHit(arr[..Searched(size)], target, i);
        return Some(i);
      }
    }
    assert target !in arr[..Searched(size)];
    return None;
  }

  /** The two searches give the same answer on every array, size and target. */
  method FindInArrayAgree(arr: array<Int32>, size: Int32, target: Int32) returns (h: Option<int>, m: Option<int>)
    requires size <= arr.Length
    ensures h == m
  {
    h := FindInArrayHandwritten(arr, size, target);
    m := FindInArrayMatch(arr, size, target);
  }

  /** A position holding `target` with no earlier one is what `IndexOf` finds. */
  lemma FirstHit(s: seq<Int32>, target: Int32, i: nat)
    requires i < |s| && s[i] == target
    requires forall j :: 0 <= j < i ==> s[j] != target
    ensures IndexOf(s, target) == Some(i)
  {
    assert target in s;
  }

  /** The benchmark's table `{1, 3, ..., 2n - 1}`: odd `t` sits at `(t - 1) / 2`, nothing else occurs. */
  lemma IndexOfOdds(n: nat, t: Int32)
    requires n < 0x4000_0000
    ensures IndexOf(seq(n, k requires 0 <= k < n => (2 * k + 1) as Int32), t) ==
      if 0 < t < 2 * n && t % 2 == 1 then Some((t - 1) / 2) else None
  {
    var s := seq(n, k requires 0 <= k < n => (2 * k + 1) as Int32);
    if 0 < t < 2 * n && t % 2 == 1 {
      var k := (t - 1) / 2;
      assert s[k] == t;
      forall j | 0 <= j < k
        ensures s[j] != t
      {
        assert s[j] == 2 * j + 1;
      }
      FirstHit(s, t, k);
    } else {
      forall j | 0 <= j < n
        ensures s[j] != t
      {
        assert s[j] == 2 * j + 1;
      }
    }
  }

  // ---------------------------------------------------------------------------
  // get_config
  // ---------------------------------------------------------------------------

  /** The two settings the benchmark knows. */
  const CONFIG: map<string, string> := map["debug" := "enabled", "port" := "8080"]

  function GetConfigHandwritten(key: string): Option<string>
  {
    if key == "debug" then Some("enabled")
    else if key == "port" then Some("8080")
    else None
  }

  function GetConfigMatch(key: string): Option<string>
  {
    if key == "debug" then Some("enabled")
    else if key == "port" then Some("8080")
    else None
  }

  /** A lookup in the configuration table, absent keys giving `none`. */
  lemma GetConfigIsLookup(key: string)
    ensures GetConfigHandwritten(key) == (if key in CONFIG then Some(CONFIG[key]) else None)
    ensures GetConfigHandwritten(key).Some? <==> key == "debug" || key == "port"
  {
  }

  /** The two versions return the same result for every key. */
  lemma GetConfigAgree(key: string)
    ensures GetConfigMatch(key) == GetConfigHandwritten(key)
  {
  }
}
