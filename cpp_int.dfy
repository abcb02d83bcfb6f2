/**
 * The C++ integer semantics the timer's arithmetic relies on, written out
 * because Dafny's integers are unbounded and its `/` and `%` are Euclidean.
 */
module CppInt {

  const TWO_31: int := 0x8000_0000
  const TWO_32: int := 0x1_0000_0000
  const TWO_63: int := 0x8000_0000_0000_0000

  /** A `long long`, the representation of `std::chrono::milliseconds`. */
  type Int64 = x: int | -TWO_63 <= x < TWO_63

  /**
   * `static_cast<int>(x)` for a 64-bit `x`: the value congruent to `x`
   * modulo 2^32 in the range of a 32-bit `int` (the GCC behaviour, and the
   * rule of C++20).
   */
  function ToInt32(x: int): (r: int)
    ensures -TWO_31 <= r < TWO_31
    ensures (x - r) % TWO_32 == 0
    ensures -TWO_31 <= x < TWO_31 ==> r == x
  {
    var m := x % TWO_32;
    if m >= TWO_31 then m - TWO_32 else m
  }

  /**
   * `static_cast<DWORD>(x)`: the value congruent to `x` modulo 2^32 in the
   * range of a 32-bit unsigned integer.
   */
  function ToDword(x: int): (r: nat)
    ensures r < TWO_32
    ensures (x - r) % TWO_32 == 0
    ensures 0 <= x < TWO_32 ==> r == x
  {
    x % TWO_32
  }

  /** C++ `a / d` for a positive divisor: the quotient truncated toward zero. */
  function Quot(a: int, d: int): (q: int)
    requires d > 0
    ensures 0 <= a ==> 0 <= q <= a
    ensures a < 0 ==> a <= q <= 0
  {
    if a >= 0 then (QuotientBound(a, d); a / d) else (QuotientBound(-a, d); -((-a) / d))
  }

  /** The Euclidean quotient of a non-negative number lies between 0 and it. */
  lemma QuotientBound(n: int, d: int)
    requires 0 <= n && d > 0
    ensures 0 <= n / d <= n
  {
    var q, r := n / d, n % d;
    assert n == q * d + r && 0 <= r && 0 <= q;
    MulNonNegative(q, d - 1);
    assert q * d == q * (d - 1) + q;
  }

  /** A product of non-negative factors is not negative. */
  lemma MulNonNegative(x: int, y: int)
    requires 0 <= x && 0 <= y
    ensures 0 <= x * y
  {
  }

  /** C++ `a % d` for a positive divisor: the remainder takes the sign of `a`. */
  function Rem(a: int, d: int): (r: int)
    requires d > 0
    ensures a == Quot(a, d) * d + r
    ensures 0 <= a ==> 0 <= r < d
    ensures a < 0 ==> -d < r <= 0
  {
    if a >= 0 then a % d else -((-a) % d)
  }
}
