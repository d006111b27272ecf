/** The benchmark driver of `main`: it times each strategy ITERATIONS times,
    collects the elapsed milliseconds into two sample vectors in trial order,
    and reduces each vector to its minimum, maximum and truncated average.
    The clock is not modelled: the durations the clock would report are
    inputs, one sequence per strategy. */
module Benchmark {
  import opened BoundedInts
  import opened Summation

  const SIZE: int32 := 10_000_000
  const ITERATIONS: int32 := 10

  /** The sum every trial computes, with the fixed benchmark size. */
  lemma BenchmarkSizeSum()
    ensures SeriesSum(SIZE) == 49_999_995_000_000
  {
    SeriesSumClosedForm(SIZE);
  }

  // ---------------------------------------------------------------------
  // Timer

  /** `measureTime`: pairs the wrapped call's result with the elapsed time
      the clock reported around the call. The result goes through unchanged,
      whatever the duration. */
  function MeasureTime<R>(result: R, elapsed: int64): (timed: (R, int64))
    ensures timed.0 == result
    ensures timed.1 == elapsed
  {
    (result, elapsed)
  }

  // ---------------------------------------------------------------------
  // Statistics reducer

  /** The value `*std::min_element(...)` reads: the first smallest sample. */
  function MinElement(s: seq<int>): (m: int)
    requires s != []
    ensures m in s
    ensures forall i :: 0 <= i < |s| ==> m <= s[i]
  {
    if |s| == 1 then s[0]
    else
      var smallest := MinElement(s[..|s| - 1]);
      if s[|s| - 1] < smallest then s[|s| - 1] else smallest
  }

  /** The value `*std::max_element(...)` reads: the first largest sample. */
  function MaxElement(s: seq<int>): (m: int)
    requires s != []
    ensures m in s
    ensures forall i :: 0 <= i < |s| ==> s[i] <= m
  {
    if |s| == 1 then s[0]
    else
      var largest := MaxElement(s[..|s| - 1]);
      if largest < s[|s| - 1] then s[|s| - 1] else largest
  }

  /** `std::accumulate(times, 0LL) / ITERATIONS`: the samples folded from a
      `long long` zero, then divided by the trial count with C++'s
      truncating division. */
  function Average(times: seq<int64>): (avg: int64)
    requires FoldFits(0, times)
    ensures 0 <= Sum(times) ==> avg == Sum(times) / ITERATIONS as int
  {
    assert times[..|times|] == times;
    TruncDiv(Sum(times), ITERATIONS as int)
  }

  /** Minimum, maximum and average of one sample vector. */
  datatype Stats = Stats(min: int64, max: int64, avg: int64)

  function Summarize(times: seq<int64>): (stats: Stats)
    requires times != [] && FoldFits(0, times)
    ensures stats.min in times && stats.max in times
    ensures forall i :: 0 <= i < |times| ==> stats.min <= times[i] <= stats.max
  {
    Stats(MinElement(times), MaxElement(times), Average(times))
  }

  /** n * lo <= Sum(s) <= n * hi when every one of the n samples lies in
      [lo, hi]. */
  lemma {:induction false} SumBetween(s: seq<int>, lo: int, hi: int)
    requires forall i :: 0 <= i < |s| ==> lo <= s[i] <= hi
    ensures |s| * lo <= Sum(s) <= |s| * hi
  {
    if s != [] {
      SumBetween(s[..|s| - 1], lo, hi);
      assert |s| * lo == (|s| - 1) * lo + lo;
      assert |s| * hi == (|s| - 1) * hi + hi;
    }
  }

  /** A truncated quotient of a value in [n * lo, n * hi] lies in [lo, hi]. */
  lemma TruncDivBetween(a: int, n: int, lo: int, hi: int)
    requires n > 0 && n * lo <= a <= n * hi
    ensures lo <= TruncDiv(a, n) <= hi
  {
    var q := TruncDiv(a, n);
    assert -n < a - n * q < n;
    assert n * (lo - 1) == n * lo - n && n * (hi + 1) == n * hi + n;
    MulCancel(n, lo - 1, q);
    MulCancel(n, q, hi + 1);
  }

  lemma MulCancel(n: int, x: int, y: int)
    requires n > 0 && n * x < n * y
    ensures x < y
  {
  }

  /** With exactly ITERATIONS samples the average lies between the minimum
      and the maximum, although it is truncated toward zero. */
  lemma AverageBetween(times: seq<int64>)
    requires |times| == ITERATIONS as int && FoldFits(0, times)
    ensures MinElement(times) <= Average(times) <= MaxElement(times)
  {
    SumBetween(times, MinElement(times), MaxElement(times));
    TruncDivBetween(Sum(times), |times|, MinElement(times), MaxElement(times));
  }

  // ---------------------------------------------------------------------
  // Driver

  /** The benchmark loop: each trial runs the loop strategy, then the
      library strategy, each under the timer, and appends the elapsed time
      the clock reported (`cppClock[i]`, `stlClock[i]` for trial i) to the
      strategy's sample vector. The sums themselves are discarded. */
  method RunTrials(cppClock: seq<int64>, stlClock: seq<int64>)
    returns (cppTimes: seq<int64>, stlTimes: seq<int64>)
    requires |cppClock| == |stlClock| == ITERATIONS as int
    ensures |cppTimes| == |stlTimes| == ITERATIONS as int
    ensures cppTimes == cppClock && stlTimes == stlClock
  {
    cppTimes, stlTimes := [], [];
    for i := 0 to ITERATIONS
      invariant cppTimes == cppClock[..i]
      invariant stlTimes == stlClock[..i]
    {
      var sumCpp := CalculateSumCpp(SIZE);
      var (resultCpp, timeCpp) := MeasureTime(sumCpp, cppClock[i]);
      cppTimes := cppTimes + [timeCpp];

      var sumStl := CalculateSumStl(SIZE);
      var (resultStl, timeStl) := MeasureTime(sumStl, stlClock[i]);
      stlTimes := stlTimes + [timeStl];
      // Never checked by the benchmark itself; holds by the strategies' contracts.
      BenchmarkSizeSum();
      assert resultCpp == resultStl == 49_999_995_000_000;
    }
    assert cppClock[..ITERATIONS] == cppClock && stlClock[..ITERATIONS] == stlClock;
  }

  /** The whole of `main` short of printing: collect the samples, then
      reduce each vector. Every partial sum of each vector must fit a
      `long long`, as `std::accumulate` with a `0LL` seed demands. */
  method RunBenchmark(cppClock: seq<int64>, stlClock: seq<int64>)
    returns (cppStats: Stats, stlStats: Stats)
    requires |cppClock| == |stlClock| == ITERATIONS as int
    requires FoldFits(0, cppClock) && FoldFits(0, stlClock)
    ensures cppStats == Summarize(cppClock) && stlStats == Summarize(stlClock)
    ensures cppStats.min <= cppStats.avg <= cppStats.max
    ensures stlStats.min <= stlStats.avg <= stlStats.max
  {
    var cppTimes, stlTimes := RunTrials(cppClock, stlClock);
    cppStats := Summarize(cppTimes);
    stlStats := Summarize(stlTimes);
    AverageBetween(cppTimes);
    AverageBetween(stlTimes);
  }
}
