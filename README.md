# Sum of an array: a verified model of the C++ benchmark

The C++ benchmark `1_Sum_of_array/sum.cpp` compares two ways of summing the
integers 0 .. size-1:

- `calculateSumCpp` adds them into a `long long` in a counting loop;
- `calculateSumSTL` allocates a `std::vector<int>` of `size` zeros, fills it
  in place with `std::iota`, and folds it with `std::accumulate` from the
  seed `0LL`.

`main` times each strategy `ITERATIONS` (10) times through `measureTime`.
It collects the elapsed milliseconds into two vectors and reduces each
vector to its minimum, its maximum and its truncated average.

The model has three modules:

- `BoundedInts` (`bounded_ints.dfy`): C++ `int` and `long long` as the subset
  types `int32` and `int64`. Every assignment to a variable of these types
  is range-checked by the verifier, so a verified method cannot overflow.
  The module also models C++'s truncating `/`.
- `Summation` (`summation.dfy`): both strategies as imperative methods.
  `Iota` fills an array in place and `Accumulate` folds it. Both strategies
  are proved against the reference sum `SeriesSum` and its closed form
  size·(size−1)/2. They are proved never to overflow a `long long` for any
  non-negative `int` size. `SumsAgree` proves that the two strategies agree,
  a check the benchmark never makes.
- `Benchmark` (`benchmark.dfy`): the timer, the trial loop and the
  statistics. The clock is not modelled: the durations it would report are
  inputs, one sequence per strategy.

`main` divides each total by the constant `ITERATIONS` (`sum.cpp:54`,
`sum.cpp:59`), not by the vector's length. The two agree because `RunTrials`
leaves exactly `ITERATIONS` samples in each vector, and `AverageBetween` is
stated for that length.

## Model

| member | source | states |
|---|---|---|
| `Summation.SeriesSumClosedForm` | 1_Sum_of_array/sum.cpp:20-26 | 0 + 1 + … + (n−1) equals n·(n−1)/2 (and twice it equals n·(n−1)) for every n ≥ 0, by induction on n |
| `Summation.SeriesSumBound` | 1_Sum_of_array/sum.cpp:20-33 | for every n ≤ INT_MAX the sum 0 + … + (n−1) lies in [0, 2^61), so no partial sum of either strategy leaves `long long` |
| `Summation.CalculateSumCpp` | 1_Sum_of_array/sum.cpp:20-26 | the counting loop returns the sum of 0 .. size−1 for every `int` size, equal to size·(size−1)/2 when size ≥ 0 and 0 when size ≤ 0; every `+=` and `++i` stays in range (loop invariant: the accumulator is the sum of 0 .. i−1) |
| `Summation.Iota` | 1_Sum_of_array/sum.cpp:31 | `std::iota` leaves the array holding value, value+1, …, value+len−1 in place, without overflowing its `int` counter |
| `Summation.Accumulate` | 1_Sum_of_array/sum.cpp:32 | `std::accumulate` with a `long long` seed returns the seed plus the left fold of the array, provided every partial result fits `long long` |
| `Summation.SumOfAscendingPrefix` | 1_Sum_of_array/sum.cpp:30-32 | every prefix of length k of 0, 1, …, n−1 folds to the sum of 0 .. k−1 |
| `Summation.SumOfAscending` | 1_Sum_of_array/sum.cpp:30-32 | the fold of 0, 1, …, n−1 equals the loop's sum, and for n ≤ INT_MAX no partial result of that fold overflows |
| `Summation.CalculateSumStl` | 1_Sum_of_array/sum.cpp:29-33 | for every size ≥ 0, allocate + iota + accumulate returns the sum of 0 .. size−1, equal to size·(size−1)/2 |
| `Summation.SumsAgree` | 1_Sum_of_array/sum.cpp:20-33 | both strategies return the same value, the closed form size·(size−1)/2, for every size ≥ 0 |
| `Benchmark.BenchmarkSizeSum` | 1_Sum_of_array/sum.cpp:36 | with SIZE = 10,000,000 every trial's sum is 49,999,995,000,000 |
| `Benchmark.MeasureTime` | 1_Sum_of_array/sum.cpp:9-17 | the timer returns the wrapped call's result unchanged as the first component, paired with the elapsed time |
| `Benchmark.MinElement` | 1_Sum_of_array/sum.cpp:52 | the value `*min_element` reads is an element of the vector and no element is smaller |
| `Benchmark.MaxElement` | 1_Sum_of_array/sum.cpp:53 | the value `*max_element` reads is an element of the vector and no element is larger |
| `BoundedInts.TruncDiv` | 1_Sum_of_array/sum.cpp:54 | C++ division by a positive divisor: the remainder has the sign of the dividend and is smaller than the divisor, the quotient is no larger in magnitude than the dividend, and it equals Euclidean division for a non-negative dividend |
| `Benchmark.Average` | 1_Sum_of_array/sum.cpp:54 | the average is the fold of the samples divided by ITERATIONS; for a non-negative total it is the floor of that quotient |
| `Benchmark.Summarize` | 1_Sum_of_array/sum.cpp:52-59 | the reported minimum and maximum are samples, and every sample lies between them |
| `Benchmark.SumBetween` | 1_Sum_of_array/sum.cpp:54 | when all n samples lie in [lo, hi], their sum lies in [n·lo, n·hi] |
| `Benchmark.TruncDivBetween` | 1_Sum_of_array/sum.cpp:54 | a truncated quotient by n of a value in [n·lo, n·hi] lies in [lo, hi] |
| `Benchmark.AverageBetween` | 1_Sum_of_array/sum.cpp:52-59 | for a vector of exactly ITERATIONS samples, min ≤ sum/ITERATIONS ≤ max under truncating division, for samples of any sign |
| `Benchmark.RunTrials` | 1_Sum_of_array/sum.cpp:39-49 | after the trial loop each vector holds exactly ITERATIONS samples, the durations reported for that strategy in trial order (that both strategies' sums are equal in each trial is asserted in the loop body; the contract stating it is `SumsAgree`'s) |
| `Benchmark.RunBenchmark` | 1_Sum_of_array/sum.cpp:35-59 | `main` without printing: each strategy's statistics are the reduction of its samples, and min ≤ avg ≤ max for both |

## Left out

- Reading `std::chrono::high_resolution_clock` and `duration_cast` to milliseconds (`sum.cpp:11-15`). These are clock I/O. Each duration is an input of `RunTrials` and `MeasureTime`.
- Console output and the `std::fixed`/`setprecision` formatting (`sum.cpp:62-67`). This is pure I/O.
- `MeasureTime` takes the wrapped call's result, not the callable and its arguments. Dafny functions cannot call the methods that model the strategies, so `RunTrials` makes the call and passes the result to the timer.
- `BoundedInts.TruncDiv`: models C++ `/` only for a positive divisor. The program divides only by `ITERATIONS` = 10.
- `Summation.Iota` is specialised to an `int` array with an `int` start, as `calculateSumSTL` uses it (`sum.cpp:31`).
- `Summation.Accumulate` is specialised to an `int` array with a `long long` seed, as `calculateSumSTL` uses it (`sum.cpp:32`). The folds over `std::vector<long long>` in `main` (`sum.cpp:54`, `sum.cpp:59`) are modelled by the fold `Sum` in `Benchmark.Average`. The generic iterator templates are not modelled.
- `Summation.CalculateSumStl` requires size ≥ 0. A negative `int` becomes a huge `size_t` in the vector constructor, which fails at run time. The loop strategy has no such restriction and returns 0.
- Allocation failure of the vector (an unhandled runtime fault) is not modelled.
- `1_Sum_of_array/sum.py` is not part of this model. Its timing uses floating-point wall-clock time, its statistics use floating-point `statistics.mean`, and its second strategy is a foreign NumPy call.
