/** Java's 32-bit `int` arithmetic, as far as the Emojifier uses it: the
    wrap-around of `*`, the truncating `/`, and the narrowing cast `(int)`
    from a floating-point value (modelled here as an exact real). */
module JavaArith {

  const IntMin: int := -0x8000_0000
  const IntMax: int := 0x7FFF_FFFF
  const Modulus: int := 0x1_0000_0000

  /** Whether x is a value of Java's `int`. */
  predicate IsInt(x: int) {
    IntMin <= x <= IntMax
  }

  function Abs(x: int): nat {
    if x < 0 then -x else x
  }

  /** The `int` that a mathematical result wraps around to (two's complement). */
  function Wrap(x: int): (r: int)
    ensures IsInt(r)
    ensures (r - x) % Modulus == 0
    ensures IsInt(x) ==> r == x
  {
    var m := (x - IntMin) % Modulus;
    WrapDiffers(x - IntMin);
    m + IntMin
  }

  /** The remainder of a non-negative-modulus division differs from the
      dividend by a multiple of the modulus. */
  lemma WrapDiffers(a: int)
    ensures (a % Modulus - a) % Modulus == 0
  {
    var q := a / Modulus;
    assert a == q * Modulus + a % Modulus;
    assert a % Modulus - a == (-q) * Modulus;
  }

  /** Java's `a / b` for a positive divisor: the quotient is rounded toward
      zero, so the remainder is smaller than the divisor and has the sign of
      the dividend (or is zero). */
  function Div(a: int, b: int): (q: int)
    requires b > 0
    ensures Abs(a - q * b) < b
    ensures a - q * b == 0 || (a - q * b < 0 <==> a < 0)
    ensures 0 <= a ==> 0 <= q
    ensures a <= 0 ==> q <= 0
    ensures Abs(q) * b <= Abs(a)
  {
    if a >= 0 then
      EuclidSplit(a, b);
      a / b
    else
      EuclidSplit(-a, b);
      -((-a) / b)
  }

  /** Dafny's `/` and `%` on a non-negative dividend split it into quotient
      times divisor plus a remainder below the divisor. */
  lemma EuclidSplit(a: int, b: int)
    requires a >= 0 && b > 0
    ensures a / b >= 0 && a == (a / b) * b + a % b && 0 <= a % b < b
  {
  }

  /** Java's narrowing cast `(int) r` from a floating-point value: rounded
      toward zero, and saturated at the ends of the `int` range. */
  function ToInt(r: real): (i: int)
    ensures IsInt(i)
    ensures 0.0 <= r ==> 0 <= i && i as real <= r
    ensures 0.0 <= r < IntMax as real + 1.0 ==> r < i as real + 1.0
    ensures r <= 0.0 ==> i <= 0 && r <= i as real
    ensures IntMin as real - 1.0 < r <= 0.0 ==> i as real - 1.0 < r
    ensures IntMax as real <= r ==> i == IntMax
    ensures r <= IntMin as real ==> i == IntMin
  {
    if r >= IntMax as real then IntMax
    else if r <= IntMin as real then IntMin
    else if r >= 0.0 then r.Floor
    else -((-r).Floor)
  }
}
