/** Arithmetic helpers: `Math.Abs`/`Min`/`Max` on doubles, the `(int)` cast of a double,
    and C#'s truncating integer remainder. */
module Numerics {

  function Abs(x: real): (r: real)
    ensures r >= 0.0 && (r == x || r == -x)
  {
    if x < 0.0 then -x else x
  }

  function Min(x: real, y: real): (r: real)
    ensures r <= x && r <= y && (r == x || r == y)
  {
    if x <= y then x else y
  }

  function Max(x: real, y: real): (r: real)
    ensures r >= x && r >= y && (r == x || r == y)
  {
    if x >= y then x else y
  }

  /** The sign of a product of two reals. */
  lemma ProductSign(a: real, b: real)
    ensures a * b > 0.0 <==> (a > 0.0 && b > 0.0) || (a < 0.0 && b < 0.0)
    ensures a * b < 0.0 <==> (a > 0.0 && b < 0.0) || (a < 0.0 && b > 0.0)
  {
    if a > 0.0 && b > 0.0 {
      assert a * b > 0.0;
    } else if a < 0.0 && b < 0.0 {
      assert (-a) * (-b) > 0.0;
    } else if a > 0.0 && b < 0.0 {
      assert a * (-b) > 0.0;
    } else if a < 0.0 && b > 0.0 {
      assert (-a) * b > 0.0;
    }
  }

  /** The product of two non-negative reals is non-negative. */
  lemma MulNonNegative(p: real, w: real)
    requires p >= 0.0 && w >= 0.0
    ensures p * w >= 0.0
  {
  }

  /** A real square is non-negative. */
  lemma SquareNonNegative(p: real)
    ensures p * p >= 0.0
  {
    if p < 0.0 {
      MulNonNegative(-p, -p);
    } else {
      MulNonNegative(p, p);
    }
  }

  /** A factor of a product equal to 1 is not zero. */
  lemma NonZeroFactor(r: real, d: real)
    requires r * d == 1.0
    ensures d != 0.0
  {
  }

  /** A quotient is the only value that multiplies back to the dividend. */
  lemma QuotientUnique(r: real, d: real, x: real)
    requires d != 0.0 && r * d == x
    ensures r == x / d
  {
  }

  /** `(int)t`: conversion of a double to int rounds toward zero. */
  function Truncate(t: real): (r: int)
    ensures t >= 0.0 ==> r == t.Floor
    ensures r as real <= t < r as real + 1.0 || r as real - 1.0 < t <= r as real
  {
    if t >= 0.0 then t.Floor else -((-t).Floor)
  }

  /** C#'s `a % n` for `n > 0`: the remainder takes the sign of `a`. */
  function CsRem(a: int, n: int): (r: int)
    requires n > 0
    ensures -n < r < n
    ensures a >= 0 ==> r >= 0
    ensures a <= 0 ==> r <= 0
  {
    if a >= 0 then a % n else -((-a) % n)
  }

  /** `(a % n + n) % n` written with C#'s remainder, as the library wraps indices. */
  function Wrap(a: int, n: int): int
    requires n > 0
  {
    (CsRem(a, n) + n) % n
  }

  lemma MulBetween(n: int, k: int)
    requires n > 0 && -n < n * k < n
    ensures k == 0
  {
  }

  /** Euclidean division is unique: a remainder in [0, n) determines `a % n`. */
  lemma ModUnique(a: int, n: int, q: int, r: int)
    requires n > 0 && 0 <= r < n && a == n * q + r
    ensures a % n == r
  {
    var q', r' := a / n, a % n;
    assert a == n * q' + r';
    assert n * (q - q') == r' - r;
    MulBetween(n, q - q');
  }

  lemma ModPeriod(a: int, n: int)
    requires n > 0
    ensures (a + n) % n == a % n
  {
    ModUnique(a + n, n, a / n + 1, a % n);
  }

  /** A value already in [0, n) is its own remainder. */
  lemma ModOfRemainder(r: int, n: int)
    requires 0 <= r < n
    ensures r % n == r
  {
    ModUnique(r, n, 0, r);
  }

  /** The remainder of a negated multiple-plus-remainder. */
  lemma ModOfNegation(a: int, n: int, q: int, r: int)
    requires n > 0 && 0 <= r < n && -a == n * q + r
    ensures a % n == if r == 0 then 0 else n - r
  {
    if r == 0 {
      assert a == n * (-q);
      ModUnique(a, n, -q, 0);
    } else {
      assert a == n * (-q - 1) + (n - r);
      ModUnique(a, n, -q - 1, n - r);
    }
  }

  /** The library's wrap of an index is Euclidean `%`: always in [0, n), whatever the sign of `a`. */
  lemma WrapIsMod(a: int, n: int)
    requires n > 0
    ensures Wrap(a, n) == a % n
    ensures 0 <= Wrap(a, n) < n
  {
    if a >= 0 {
      var r := a % n;
      ModPeriod(r, n);
      ModOfRemainder(r, n);
    } else {
      var q, r := (-a) / n, (-a) % n;
      ModOfNegation(a, n, q, r);
      assert CsRem(a, n) == -r;
      if r == 0 {
        ModUnique(n, n, 1, 0);
      } else {
        ModOfRemainder(n - r, n);
      }
    }
  }

  /** On the small ranges the engine uses, the wrap subtracts or adds one period. */
  lemma WrapSmall(a: int, n: int)
    requires n > 0 && -n <= a < 2 * n
    ensures Wrap(a, n) == if a < 0 then a + n else if a < n then a else a - n
  {
    WrapIsMod(a, n);
    if a < 0 {
      ModUnique(a, n, -1, a + n);
    } else if a < n {
      ModUnique(a, n, 0, a);
    } else {
      ModUnique(a, n, 1, a - n);
    }
  }
}
