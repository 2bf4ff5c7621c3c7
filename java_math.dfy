/**
  Java's integer quotient and remainder, which round toward zero, next to Dafny's
  Euclidean `/` and `%`. The chart code divides only by positive numbers (a day in
  milliseconds, a tick interval in days), so only positive divisors are modelled.
*/
module JavaMath {

  /** Java's `a / b`: the quotient truncated toward zero. */
  function Div(a: int, b: int): (q: int)
    requires b > 0
    ensures a >= 0 ==> 0 <= a - b * q < b
    ensures a < 0 ==> -b < a - b * q <= 0
  {
    if a >= 0 then a / b else -((-a) / b)
  }

  /** Java's `a % b`: the remainder takes the sign of the dividend. */
  function Rem(a: int, b: int): (r: int)
    requires b > 0
    ensures a >= 0 ==> 0 <= r < b
    ensures a < 0 ==> -b < r <= 0
    ensures (a - r) % b == 0
    ensures a >= 0 ==> r == a % b
    ensures a < 0 ==> r == -((-a) % b)
  {
    MultipleModZero(Div(a, b), b);
    a - b * Div(a, b)
  }

  /** A multiple of `b` leaves no Euclidean remainder. */
  lemma MultipleModZero(k: int, b: int)
    requires b > 0
    ensures (b * k) % b == 0
  {
    var x := b * k;
    var d := k - x / b;
    assert b * d == x % b;
    if d >= 1 {
      MulAtLeast(b, d);
    } else if d <= -1 {
      MulAtLeast(b, -d);
    }
  }

  /** A number with no remainder modulo `b` is `b` times its quotient. */
  lemma ModZeroIsMultiple(x: int, b: int)
    requires b > 0 && x % b == 0
    ensures x == b * (x / b)
  {
  }

  /** The only multiple of `b` strictly between `-b` and `b` is zero. */
  lemma SmallMultipleIsZero(x: int, b: int)
    requires b > 0 && x % b == 0 && -b < x < b
    ensures x == 0
  {
    var q := x / b;
    ModZeroIsMultiple(x, b);
    if q >= 1 {
      MulAtLeast(b, q);
    } else if q <= -1 {
      MulAtLeast(b, -q);
    }
  }

  /** Multiplying a positive number by at least one does not make it smaller. */
  lemma MulAtLeast(b: int, d: int)
    requires b > 0 && d >= 1
    ensures b * d >= b
  {
  }

  /** Being a multiple of `b` is closed under sums and differences. */
  lemma MultipleSum(x: int, y: int, b: int)
    requires b > 0 && x % b == 0 && y % b == 0
    ensures (x + y) % b == 0 && (x - y) % b == 0
  {
    ModZeroIsMultiple(x, b);
    ModZeroIsMultiple(y, b);
    assert x + y == b * (x / b + y / b);
    assert x - y == b * (x / b - y / b);
    MultipleModZero(x / b + y / b, b);
    MultipleModZero(x / b - y / b, b);
  }

  /** A multiple of `b` above `-b` is not negative. */
  lemma MultipleAboveNegIsNonneg(x: int, b: int)
    requires b > 0 && x % b == 0 && x > -b
    ensures x >= 0
  {
    if x < b {
      SmallMultipleIsZero(x, b);
    }
  }

  /** A positive multiple of `b` is at least `b`. */
  lemma PositiveMultipleAtLeast(x: int, b: int)
    requires b > 0 && x % b == 0 && x > 0
    ensures x >= b
  {
    if x < b {
      SmallMultipleIsZero(x, b);
    }
  }
}
