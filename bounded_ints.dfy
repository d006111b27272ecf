/** Fixed-width C++ integers as subset types of `int`, and C++ integer division.
    Because `int32` and `int64` are subset types, every assignment to a
    variable of one of them makes Dafny prove that the value is in range:
    that is how the model shows that no `int` or `long long` overflows. */
module BoundedInts {

  const INT32_MIN: int := -0x8000_0000
  const INT32_MAX: int := 0x7fff_ffff
  const INT64_MIN: int := -0x8000_0000_0000_0000
  const INT64_MAX: int := 0x7fff_ffff_ffff_ffff

  /** C++ `int` (32 bits on every platform the program targets). */
  type int32 = x: int | INT32_MIN <= x <= INT32_MAX

  /** C++ `long long`. */
  type int64 = x: int | INT64_MIN <= x <= INT64_MAX

  predicate InInt64(x: int) {
    INT64_MIN <= x <= INT64_MAX
  }

  function Abs(x: int): nat {
    if x < 0 then -x else x
  }

  /** C++ `a / d` for a positive divisor: the quotient is truncated toward
      zero, so the remainder `a - d * q` takes the sign of `a`, whereas Dafny's
      `/` is Euclidean and its remainder is never negative. */
  function TruncDiv(a: int, d: int): (q: int)
    requires d > 0
    ensures 0 <= a ==> 0 <= a - d * q < d
    ensures a < 0 ==> -d < a - d * q <= 0
    ensures Abs(q) <= Abs(a)
    ensures 0 <= a ==> q == a / d
  {
    if a >= 0 then
      DivRemainder(a, d);
      a / d
    else
      DivRemainder(-a, d);
      -((-a) / d)
  }

  /** Euclidean division of a natural number: `n == d * (n / d) + n % d`. */
  lemma DivRemainder(n: nat, d: int)
    requires d > 0
    ensures 0 <= n / d <= n
    ensures 0 <= n - d * (n / d) < d
  {
    var q, r := n / d, n % d;
    assert n == d * q + r && 0 <= r < d;
    MulAtLeast(d, q);
  }

  lemma MulAtLeast(d: int, k: nat)
    requires d > 0
    ensures d * k >= k
  {
  }
}
