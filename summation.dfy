/** The two summation strategies of the benchmark: a counting loop
    (`calculateSumCpp`) and `std::iota` followed by `std::accumulate` over a
    freshly allocated vector (`calculateSumSTL`). Both are proved to return
    the sum 0 + 1 + ... + (size - 1), to agree with each other and with the
    closed form size * (size - 1) / 2, and never to overflow a `long long`
    for any `int` size. */
module Summation {
  import opened BoundedInts

  // ---------------------------------------------------------------------
  // Specification

  /** 0 + 1 + ... + (n - 1), and 0 when n <= 0 (the empty sum). */
  function SeriesSum(n: int): int
    decreases n
  {
    if n <= 0 then 0 else SeriesSum(n - 1) + (n - 1)
  }

  /** The left fold `std::accumulate` performs with `+`, seeded with 0:
      ((0 + s[0]) + s[1]) + ... */
  function Sum(s: seq<int>): int
  {
    if s == [] then 0 else Sum(s[..|s| - 1]) + s[|s| - 1]
  }

  /** Folding `s` with `+` from the seed `init` keeps every partial result,
      the seed included, within `long long`. */
  predicate FoldFits(init: int, s: seq<int>) {
    forall k :: 0 <= k <= |s| ==> InInt64(init + Sum(s[..k]))
  }

  /** The sequence start, start + 1, ..., start + n - 1. */
  function Ascending(start: int, n: nat): (r: seq<int>)
    ensures |r| == n
  {
    seq(n, k => start + k)
  }

  // ---------------------------------------------------------------------
  // Properties of the specification

  /** Gauss's closed form of the series. */
  lemma {:induction false} SeriesSumClosedForm(n: nat)
    ensures 2 * SeriesSum(n) == n * (n - 1)
    ensures SeriesSum(n) == n * (n - 1) / 2
  {
    if n > 0 {
      SeriesSumClosedForm(n - 1);
      assert 2 * SeriesSum(n) == (n - 1) * (n - 2) + 2 * (n - 1);
    }
  }

  /** For every size an `int` can hold, the series stays below 2^61, well
      inside `long long`. */
  lemma SeriesSumBound(n: int)
    requires n <= INT32_MAX
    ensures 0 <= SeriesSum(n) < 0x2000_0000_0000_0000
  {
    if n > 0 {
      SeriesSumClosedForm(n);
      MulMonotone(n - 1, INT32_MAX, n);
      MulMonotone(n, INT32_MAX, INT32_MAX);
      assert INT32_MAX * INT32_MAX < 2 * 0x2000_0000_0000_0000;
    }
  }

  lemma MulMonotone(a: int, b: int, c: nat)
    requires 0 <= a <= b
    ensures a * c <= b * c
  {
  }

  /** Every prefix of 0, 1, ..., n - 1 folds to the series of its length. */
  lemma {:induction false} SumOfAscendingPrefix(n: nat, k: nat)
    requires k <= n
    ensures Sum(Ascending(0, n)[..k]) == SeriesSum(k)
  {
    if k > 0 {
      var s := Ascending(0, n);
      assert s[..k][..k - 1] == s[..k - 1];
      SumOfAscendingPrefix(n, k - 1);
    }
  }

  /** Folding 0, 1, ..., n - 1 with `+` gives the series; with `n` an `int`,
      no partial result of that fold leaves `long long`. */
  lemma SumOfAscending(n: nat)
    ensures Sum(Ascending(0, n)) == SeriesSum(n)
    ensures n <= INT32_MAX ==> FoldFits(0, Ascending(0, n))
  {
    assert Ascending(0, n)[..n] == Ascending(0, n);
    SumOfAscendingPrefix(n, n);
    if n <= INT32_MAX {
      forall k | 0 <= k <= n
        ensures InInt64(0 + Sum(Ascending(0, n)[..k]))
      {
        SumOfAscendingPrefix(n, k);
        SeriesSumBound(k);
      }
    }
  }

  // ---------------------------------------------------------------------
  // Strategy A: `calculateSumCpp`

  /** Adds 0, 1, ..., size - 1 into a `long long` in a counting loop; a
      non-positive size skips the loop and returns 0. */
  method CalculateSumCpp(size: int32) returns (sum: int64)
    ensures sum == SeriesSum(size)
    ensures size <= 0 ==> sum == 0
    ensures size >= 0 ==> sum == size * (size - 1) / 2
  {
    sum := 0;
    var i: int32 := 0;
    while i < size
      invariant 0 <= i && (i == 0 || i <= size)
      invariant sum == SeriesSum(i)
    {
      SeriesSumBound(i + 1);
      sum := sum + i;
      i := i + 1;
    }
    if size >= 0 {
      SeriesSumClosedForm(size);
    }
  }

  // ---------------------------------------------------------------------
  // Strategy B: `calculateSumSTL`

  /** `std::iota`: stores value, value + 1, ... into the array in place.
      The counter is an `int` incremented once per element, so it must not
      pass INT32_MAX. */
  method Iota(a: array<int32>, value: int32)
    requires value + a.Length <= INT32_MAX
    modifies a
    ensures a[..] == Ascending(value, a.Length)
  {
    var v := value;
    for k := 0 to a.Length
      invariant v == value + k
      invariant forall j :: 0 <= j < k ==> a[j] == value + j
    {
      a[k] := v;
      v := v + 1;
    }
  }

  /** `std::accumulate` with a `long long` seed: folds the array with `+`
      from `init`, left to right. The caller must keep every partial
      result within `long long`. */
  method Accumulate(a: array<int32>, init: int64) returns (acc: int64)
    requires FoldFits(init, a[..])
    ensures acc == init + Sum(a[..])
  {
    acc := init;
    for k := 0 to a.Length
      invariant acc == init + Sum(a[..k])
    {
      assert a[..k + 1][..k] == a[..k];
      assert InInt64(init + Sum(a[..][..k + 1]));
      acc := acc + a[k];
    }
    assert a[..a.Length] == a[..];
  }

  /** Allocates a vector of `size` zeros, fills it with 0, 1, ..., size - 1
      and folds it from the seed `0LL`. A negative size is not accepted:
      the vector constructor would read it as an enormous unsigned count. */
  method CalculateSumStl(size: int32) returns (total: int64)
    requires size >= 0
    ensures total == SeriesSum(size)
    ensures total == size * (size - 1) / 2
  {
    var numbers := new int32[size](_ => 0);
    Iota(numbers, 0);
    SumOfAscending(size);
    total := Accumulate(numbers, 0);
    SeriesSumClosedForm(size);
  }

  /** The correctness check the benchmark leaves out: both strategies give
      the same total, the closed form, for every valid size. */
  method SumsAgree(size: int32) returns (cpp: int64, stl: int64)
    requires size >= 0
    ensures cpp == stl
    ensures cpp == size * (size - 1) / 2
  {
    cpp := CalculateSumCpp(size);
    stl := CalculateSumStl(size);
  }
}
