/** Shared numeric vocabulary of the unit types: Kotlin's 64-bit `Long` with its
    two's-complement wrap-around and truncating division, the rounding done by
    `roundToLong`, truncation of an exact decimal toward zero, integer powers, and
    the collapse of Kotlin's `Number` subclasses into whole and fractional sources. */
module Numeric {

  const LONG_MIN: int := -0x8000_0000_0000_0000
  const LONG_MAX: int := 0x7FFF_FFFF_FFFF_FFFF
  /** The number of distinct `Long` values, 2^64. */
  const LONG_MODULUS: int := 0x1_0000_0000_0000_0000

  predicate InLongRange(x: int) {
    LONG_MIN <= x <= LONG_MAX
  }

  /** A Kotlin `Long`. `Byte`, `Short` and `Int` values are `Long`s too. */
  type Long = x: int | InLongRange(x)

  function Abs(x: int): (r: nat)
    ensures r == x || r == -x
  {
    if x < 0 then -x else x
  }

  function AbsReal(x: real): (r: real)
    ensures r >= 0.0 && (r == x || r == -x)
  {
    if x < 0.0 then -x else x
  }

  /** Two's-complement reduction of an exact result to 64 bits, as the JVM does for
      `Long` addition, subtraction and multiplication. */
  function Wrap64(x: int): (r: Long)
    ensures InLongRange(x) ==> r == x
  {
    var m := (x - LONG_MIN) % LONG_MODULUS;
    assert x - LONG_MIN == LONG_MODULUS * ((x - LONG_MIN) / LONG_MODULUS) + m;
    m + LONG_MIN
  }

  /** Wrap64 subtracts a whole number of 2^64 steps. */
  lemma Wrap64Decompose(x: int)
    ensures Wrap64(x) == x - LONG_MODULUS * ((x - LONG_MIN) / LONG_MODULUS)
  {
    var m := (x - LONG_MIN) % LONG_MODULUS;
    assert x - LONG_MIN == LONG_MODULUS * ((x - LONG_MIN) / LONG_MODULUS) + m;
  }

  /** Wrap64 keeps its argument's residue modulo 2^64. */
  lemma Wrap64Congruence(x: int)
    ensures (Wrap64(x) - x) % LONG_MODULUS == 0
  {
    Wrap64Decompose(x);
  }

  /** Wrap64 picks the one `Long` that differs from its argument by a multiple of
      2^64. */
  lemma Wrap64Unique(x: int, r: Long, k: int)
    requires r == x + LONG_MODULUS * k
    ensures Wrap64(x) == r
  {
    var j := (x - LONG_MIN) / LONG_MODULUS;
    var w := Wrap64(x);
    Wrap64Decompose(x);
    assert InLongRange(w) && InLongRange(r);
    assert Abs(r - w) < LONG_MODULUS;
    assert r - w == (k + j) * LONG_MODULUS;
    OnlyZeroMultipleIsSmall(k + j, LONG_MODULUS);
  }

  /** A sum or difference of two `Long`s overflows by at most one step of 2^64. */
  lemma Wrap64OneStep(x: int)
    requires -LONG_MODULUS <= x < LONG_MODULUS
    ensures x > LONG_MAX ==> Wrap64(x) == x - LONG_MODULUS
    ensures x < LONG_MIN ==> Wrap64(x) == x + LONG_MODULUS
  {
    if x > LONG_MAX {
      Wrap64Unique(x, x - LONG_MODULUS, -1);
    } else if x < LONG_MIN {
      Wrap64Unique(x, x + LONG_MODULUS, 1);
    }
  }

  /** Wrapped addition is associative: wrapping an intermediate sum does not change
      the wrapped total. */
  lemma Wrap64AddAssociative(x: int, y: int, z: int)
    ensures Wrap64(Wrap64(x + y) + z) == Wrap64(x + Wrap64(y + z))
  {
    var j1 := (x + y - LONG_MIN) / LONG_MODULUS;
    var j2 := (y + z - LONG_MIN) / LONG_MODULUS;
    var j3 := (x + Wrap64(y + z) - LONG_MIN) / LONG_MODULUS;
    Wrap64Decompose(x + y);
    Wrap64Decompose(y + z);
    Wrap64Decompose(x + Wrap64(y + z));
    Wrap64Unique(Wrap64(x + y) + z, Wrap64(x + Wrap64(y + z)), j1 - j2 - j3);
  }

  /** Wrapped subtraction undoes wrapped addition. */
  lemma Wrap64AddThenSubtract(x: Long, y: int)
    ensures Wrap64(Wrap64(x + y) - y) == x
  {
    var j := (x + y - LONG_MIN) / LONG_MODULUS;
    Wrap64Decompose(x + y);
    Wrap64Unique(Wrap64(x + y) - y, x, j);
  }

  /** Kotlin's `Long /`: the quotient rounded toward zero, so the remainder takes the
      sign of the dividend. */
  function TruncDiv(a: int, b: int): (q: int)
    requires b != 0
    ensures Abs(a - q * b) < Abs(b)
    ensures a - q * b == 0 || (a - q * b < 0) == (a < 0)
    ensures Abs(q) <= Abs(a)
    ensures b > 0 ==> (a >= 0 <==> q >= 0) || q == 0
  {
    if a >= 0 && b > 0 then TruncDivNonNeg(a, b) as int
    else if a >= 0 then -(TruncDivNonNeg(a, -b) as int)
    else if b > 0 then -(TruncDivNonNeg(-a, b) as int)
    else TruncDivNonNeg(-a, -b)
  }

  /** Division of a non-negative number by a positive one, where rounding toward zero
      and Dafny's Euclidean division agree. */
  function TruncDivNonNeg(a: nat, b: nat): (q: nat)
    requires b > 0
    ensures q * b <= a < q * b + b
    ensures q <= a
  {
    var q := a / b;
    assert a == q * b + a % b;
    MulMonotone(1, b, q);
    q
  }

  /** Scaling a `Long` by a positive factor without overflow and dividing back, by
      truncating or by exact division, gives the `Long` again. */
  lemma ScaleThenDivide(n: int, f: int)
    requires f > 0 && InLongRange(n * f)
    ensures Wrap64(n * f) == n * f
    ensures TruncDiv(Wrap64(n * f), f) == n
    ensures Wrap64(n * f) as real / f as real == n as real
  {
    TruncDivOfMultiple(n, f);
    CastOfProduct(n, f);
  }

  /** Converting a product of integers to a real is the product of the conversions. */
  lemma CastOfProduct(a: int, b: int)
    ensures (a * b) as real == a as real * b as real
  {
  }

  /** Truncating division undoes multiplication by a non-zero factor. */
  lemma TruncDivOfMultiple(n: int, f: int)
    requires f != 0
    ensures TruncDiv(n * f, f) == n
  {
    var q := TruncDiv(n * f, f);
    MulDistributes(n, q, f);
    OnlyZeroMultipleIsSmall(n - q, f);
  }

  lemma MulDistributes(n: int, q: int, f: int)
    ensures n * f - q * f == (n - q) * f
  {
  }

  /** The only multiple of `f` smaller in magnitude than `f` is zero. */
  lemma OnlyZeroMultipleIsSmall(d: int, f: int)
    requires f != 0 && Abs(d * f) < Abs(f)
    ensures d == 0
  {
    if d != 0 {
      AbsOfProduct(d, f);
      MulMonotone(1, Abs(d), Abs(f));
    }
  }

  lemma MulMonotone(x: int, y: int, z: nat)
    requires x <= y
    ensures x * z <= y * z
  {
    assert y * z - x * z == (y - x) * z;
  }

  lemma AbsOfProduct(x: int, y: int)
    ensures Abs(x * y) == Abs(x) * Abs(y)
  {
    if x < 0 && y < 0 {
      assert x * y == (-x) * (-y);
    } else if x < 0 {
      assert -(x * y) == (-x) * y;
    } else if y < 0 {
      assert -(x * y) == x * (-y);
    }
  }

  /** An exact decimal rounded toward zero, as `longValue(exactRequired = false)` and
      Kotlin's truncating conversions do. */
  function Trunc(x: real): (r: int)
    ensures (r as real) <= AbsReal(x) || r < 0
    ensures AbsReal(r as real) <= AbsReal(x) < AbsReal(r as real) + 1.0
    ensures r == 0 || (r < 0) == (x < 0.0)
  {
    if x >= 0.0 then x.Floor else -((-x).Floor)
  }

  /** Rounding to the nearest integer with ties toward positive infinity, the rounding
      of Kotlin's `roundToLong`, before any saturation. */
  function RoundHalfUp(x: real): (r: int)
    ensures r as real - 0.5 <= x < r as real + 0.5
  {
    (x + 0.5).Floor
  }

  /** Kotlin's `roundToLong`: rounds half up and saturates at the ends of the `Long`
      range. The argument is an exact real; NaN and infinities do not arise. */
  function RoundToLong(x: real): (r: Long)
    ensures x < LONG_MIN as real ==> r == LONG_MIN
    ensures x >= LONG_MAX as real + 0.5 ==> r == LONG_MAX
    ensures LONG_MIN as real <= x < LONG_MAX as real + 0.5 ==> r as real - 0.5 <= x < r as real + 0.5
  {
    var n := RoundHalfUp(x);
    if n < LONG_MIN then LONG_MIN else if n > LONG_MAX then LONG_MAX else n
  }

  /** A nearest integer of a value (any integer within a half of it) is its truncation
      or one step further from zero. */
  lemma {:induction false} NearestIsTruncOrNext(x: real, r: int)
    requires r as real - 0.5 <= x < r as real + 0.5
    ensures x >= 0.0 ==> r - Trunc(x) in {0, 1}
    ensures x < 0.0 ==> r - Trunc(x) in {-1, 0}
    ensures Abs(Trunc(x)) <= Abs(r)
  {
    var t := Trunc(x);
    if x >= 0.0 {
      assert t as real <= x < t as real + 1.0;
    } else {
      assert t as real - 1.0 < x <= t as real;
    }
  }

  function Pow(base: nat, k: nat): (r: nat)
    ensures base > 0 ==> r > 0
  {
    if k == 0 then 1 else base * Pow(base, k - 1)
  }

  /** A larger base never gives a smaller power. */
  lemma {:induction false} PowBaseMonotone(a: nat, b: nat, k: nat)
    requires a <= b
    ensures Pow(a, k) <= Pow(b, k)
  {
    if k > 0 {
      PowBaseMonotone(a, b, k - 1);
      var pa, pb := Pow(a, k - 1), Pow(b, k - 1);
      MulMonotone(a, b, pa);
      MulMonotone(pa, pb, b);
      assert pa * b == b * pa && pb * b == b * pb;
    }
  }

  /** With a base above one, powers strictly increase with the exponent. */
  lemma {:induction false} PowStrictlyIncreasing(base: nat, j: nat, k: nat)
    requires base > 1 && j < k
    ensures Pow(base, j) < Pow(base, k)
  {
    if j < k - 1 {
      PowStrictlyIncreasing(base, j, k - 1);
    }
    var p := Pow(base, k - 1);
    assert base * p >= 2 * p;
  }

  /** The source value handed to a `Number.toX(unit)` constructor: `Byte`, `Short`,
      `Int` and `Long` are whole and are used exactly; `Double`, `Float` and any other
      `Number` go through a floating-point value, idealised here as an exact real. */
  datatype Number = Integral(n: Long) | Floating(x: real)
  {
    /** The exact value of the number. */
    function Value(): real {
      match this
      case Integral(n) => n as real
      case Floating(x) => x
    }
  }

  /** The sign of a comparison, as Kotlin's `compareTo` returns it for `Long` values
      and for decimals: negative, zero or positive. */
  function CompareReal(a: real, b: real): (r: int)
    ensures r in {-1, 0, 1}
    ensures r < 0 <==> a < b
    ensures r == 0 <==> a == b
    ensures r > 0 <==> a > b
  {
    if a < b then -1 else if a == b then 0 else 1
  }

  /** Truncation is pinned down by its interval: the integer at most one step
      nearer to zero than its argument. */
  lemma TruncUnique(x: real, t: int)
    requires (x >= 0.0 && t as real <= x < t as real + 1.0) || (x < 0.0 && t as real - 1.0 < x <= t as real)
    ensures Trunc(x) == t
  {
  }

  /** Kotlin's truncating `Long /` by a positive divisor is the exact quotient rounded
      toward zero. */
  lemma TruncDivIsTruncOfQuotient(a: int, f: int)
    requires f > 0
    ensures TruncDiv(a, f) == Trunc(a as real / f as real)
  {
    TruncFromRemainder(a, f, TruncDiv(a, f));
  }

  /** A quotient `q` whose remainder is smaller than `f` and has the dividend's sign is
      the exact quotient rounded toward zero. */
  lemma TruncFromRemainder(a: int, f: int, q: int)
    requires f > 0
    requires a >= 0 ==> 0 <= a - q * f < f
    requires a < 0 ==> -f < a - q * f <= 0
    ensures Trunc(a as real / f as real) == q
  {
    var x := a as real / f as real;
    var rem := a - q * f;
    CastOfProduct(q, f);
    assert (x - q as real) * f as real == rem as real;
    if a >= 0 {
      FractionBounds(x - q as real, f as real, rem as real);
    } else {
      FractionBounds(q as real - x, f as real, -rem as real);
    }
    TruncUnique(x, q);
  }

  /** If `y * f` lies in `[0, f)` for a positive `f`, then `y` lies in `[0, 1)`. */
  lemma FractionBounds(y: real, f: real, p: real)
    requires f > 0.0 && y * f == p && 0.0 <= p < f
    ensures 0.0 <= y < 1.0
  {
  }

  /** Dividing by a factor of at least one never increases the magnitude. */
  lemma QuotientShrinks(a: int, f: int)
    requires f >= 1
    ensures AbsReal(a as real / f as real) <= AbsReal(a as real)
  {
    var x := a as real / f as real;
    var g := f as real;
    assert x * g == a as real;
    assert AbsReal(x) * g == AbsReal(a as real);
    assert AbsReal(x) * (g - 1.0) >= 0.0;
  }

  /** Dividing by a positive factor keeps the strict order of integers. */
  lemma QuotientsKeepOrder(a: int, b: int, f: int)
    requires f > 0 && a < b
    ensures a as real / f as real < b as real / f as real
  {
    var x, y, g := a as real / f as real, b as real / f as real, f as real;
    assert (y - x) * g == (b - a) as real;
    assert y - x <= 0.0 ==> (y - x) * g <= 0.0;
  }
}
