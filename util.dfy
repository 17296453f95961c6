// Scalar helpers of the renderer (util.h) and the two C++ integer operations the
// rest of the model needs: the truncating `static_cast<int>` of a double and the
// truncating `%` operator.

module Util {

  /** A pointer that may be null, or a value that may be absent. */
  datatype Option<T> = None | Some(value: T)

  /** A value returned by C `rand()`: some non-negative int. */
  type Draw = nat

  /** `static_cast<int>(x)` for a double x in range: truncation toward zero. */
  function Trunc(x: real): (i: int)
    ensures 0.0 <= x ==> 0 <= i && i as real <= x < i as real + 1.0
    ensures x < 0.0 ==> i <= 0 && i as real - 1.0 < x <= i as real
  {
    if x >= 0.0 then x.Floor else -((-x).Floor)
  }

  /** C++ `a % b` on ints: the remainder of truncating division, carrying the sign of `a`. */
  function CRem(a: int, b: int): (r: int)
    requires b != 0
    ensures 0 <= a ==> 0 <= r < (if b > 0 then b else -b)
    ensures a < 0 ==> -(if b > 0 then b else -b) < r <= 0
    ensures 0 <= a && 0 < b ==> r == a % b
  {
    var m := if b > 0 then b else -b;
    if a >= 0 then a % m else -((-a) % m)
  }

  /** m (q - q') distributes. */
  lemma MulSub(m: int, q: int, q': int)
    ensures m * q - m * q' == m * (q - q')
  {
  }

  /** A positive multiple of a positive m is at least m. */
  lemma MulAtLeast(m: int, d: int)
    requires m > 0 && d >= 1
    ensures m * d >= m
  {
  }

  /** The remainder is determined by any quotient/remainder decomposition. */
  lemma ModUnique(a: int, m: int, q: int, r: int)
    requires m > 0 && 0 <= r < m && a == m * q + r
    ensures a % m == r
  {
    var q' := a / m;
    var r' := a % m;
    assert a == m * q' + r';
    MulSub(m, q, q');
    MulSub(m, q', q);
    if q > q' {
      MulAtLeast(m, q - q');
    } else if q < q' {
      MulAtLeast(m, q' - q);
    }
  }

  /** Taking m away from a >= m leaves the remainder modulo m alone. */
  lemma ModStep(a: int, m: int)
    requires m > 0 && a >= m
    ensures a % m == (a - m) % m
  {
    var q := (a - m) / m;
    var r := (a - m) % m;
    assert a - m == m * q + r;
    MulSub(m, q + 1, 1);
    ModUnique(a, m, q + 1, r);
  }

  /** Util::clamp(min, max, num): note that the bounds come first and the value last. */
  function Clamp(lo: real, hi: real, num: real): (r: real)
    ensures num < lo ==> r == lo
    ensures lo <= num && hi < num ==> r == hi
    ensures lo <= num <= hi ==> r == num
    ensures lo <= hi ==> lo <= r <= hi
  {
    if num < lo then lo
    else if num > hi then hi
    else num
  }

  /** Clamping is idempotent whenever the bounds are ordered. */
  lemma ClampIdempotent(lo: real, hi: real, num: real)
    requires lo <= hi
    ensures Clamp(lo, hi, Clamp(lo, hi, num)) == Clamp(lo, hi, num)
  {
  }

  /** Util::random_int(a, b) = a + rand() % (b - a + 1), with the `rand()` draw passed in. */
  function RandomInt(a: int, b: int, draw: Draw): (r: int)
    requires a <= b
    ensures a <= r <= b
    ensures r - a == draw % (b - a + 1)
  {
    a + CRem(draw, b - a + 1)
  }

  /** Util::linear_to_gamma: the square root of a positive component, 0 otherwise. */
  function LinearToGamma(lin: real, sqrt: real -> real): (r: real)
    ensures lin <= 0.0 ==> r == 0.0
    ensures 0.0 < lin && IsSqrt(sqrt(lin), lin) ==> 0.0 <= r && r * r == lin
  {
    if lin > 0.0 then sqrt(lin) else 0.0
  }

  /** `s` is the (non-negative) square root of `x`: what the model asks of a `sqrt` oracle. */
  predicate IsSqrt(s: real, x: real)
  {
    0.0 <= s && s * s == x
  }

  function Abs(x: real): (r: real)
    ensures 0.0 <= r && (r == x || r == -x)
  {
    if x < 0.0 then -x else x
  }
}
