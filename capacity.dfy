/** An amount of digital data: a signed 64-bit count of bytes, compared, added and
    subtracted on that raw count and converted to and from any `CapacityUnit`. */
module Capacities {
  import opened Numeric
  import opened CapacityUnits

  /** An immutable capacity; `rawValue` is in bytes. */
  datatype Capacity = Capacity(rawValue: Long)

  /** `inWholeBytes`: the raw byte count. Reading it and building a capacity from that
      many bytes gives the same capacity back. */
  function InWholeBytes(c: Capacity): (r: Long)
    ensures ToCapacity(Integral(r), BYTE) == c
  {
    c.rawValue
  }

  /** Orders capacities by their raw byte counts. */
  function CompareTo(a: Capacity, b: Capacity): (r: int)
    ensures r in {-1, 0, 1}
    ensures r < 0 <==> a.rawValue < b.rawValue
    ensures r == 0 <==> a == b
    ensures r > 0 <==> a.rawValue > b.rawValue
  {
    CompareReal(a.rawValue as real, b.rawValue as real)
  }

  /** The raw sum, wrapped to 64 bits: overflow is not handled. */
  function Plus(a: Capacity, b: Capacity): (r: Capacity)
    ensures InLongRange(a.rawValue + b.rawValue) ==> r.rawValue == a.rawValue + b.rawValue
    ensures a.rawValue + b.rawValue > LONG_MAX ==> r.rawValue == a.rawValue + b.rawValue - LONG_MODULUS
    ensures a.rawValue + b.rawValue < LONG_MIN ==> r.rawValue == a.rawValue + b.rawValue + LONG_MODULUS
  {
    Wrap64OneStep(a.rawValue + b.rawValue);
    Capacity(Wrap64(a.rawValue + b.rawValue))
  }

  /** The raw difference, wrapped to 64 bits: overflow is not handled. */
  function Minus(a: Capacity, b: Capacity): (r: Capacity)
    ensures InLongRange(a.rawValue - b.rawValue) ==> r.rawValue == a.rawValue - b.rawValue
    ensures a.rawValue - b.rawValue > LONG_MAX ==> r.rawValue == a.rawValue - b.rawValue - LONG_MODULUS
    ensures a.rawValue - b.rawValue < LONG_MIN ==> r.rawValue == a.rawValue - b.rawValue + LONG_MODULUS
  {
    Wrap64OneStep(a.rawValue - b.rawValue);
    Capacity(Wrap64(a.rawValue - b.rawValue))
  }

  /** The exact value in `unit`; the source returns it as a `Double`. */
  function ToFractionalUnits(c: Capacity, unit: CapacityUnit): (r: real)
    ensures r * ByteFactor(unit) as real == c.rawValue as real
    ensures AbsReal(r) <= AbsReal(c.rawValue as real)
  {
    QuotientShrinks(c.rawValue, ByteFactor(unit));
    c.rawValue as real / ByteFactor(unit) as real
  }

  /** Deprecated `toDouble`: delegates to `ToFractionalUnits`, so it too is the exact
      value in `unit`. */
  function ToDouble(c: Capacity, unit: CapacityUnit): (r: real)
    ensures r * ByteFactor(unit) as real == c.rawValue as real
  {
    ToFractionalUnits(c, unit)
  }

  /** The whole number of `unit`s in `c`, by Kotlin's truncating `Long` division. */
  function ToWholeUnits(c: Capacity, unit: CapacityUnit): (r: Long)
    ensures Abs(c.rawValue - r * ByteFactor(unit)) < ByteFactor(unit)
    ensures c.rawValue - r * ByteFactor(unit) == 0 || (c.rawValue - r * ByteFactor(unit) < 0) == (c.rawValue < 0)
  {
    TruncDiv(c.rawValue, ByteFactor(unit))
  }

  /** The nearest whole number of `unit`s, ties toward positive infinity. */
  function RoundToWholeUnits(c: Capacity, unit: CapacityUnit): (r: Long)
    ensures r as real - 0.5 <= ToFractionalUnits(c, unit) < r as real + 0.5
  {
    RoundToLong(ToFractionalUnits(c, unit))
  }

  /** Deprecated `toLong`: delegates to `RoundToWholeUnits`, so it too rounds to the
      nearest whole number. */
  function ToLong(c: Capacity, unit: CapacityUnit): (r: Long)
    ensures r as real - 0.5 <= ToFractionalUnits(c, unit) < r as real + 0.5
  {
    RoundToWholeUnits(c, unit)
  }

  /** `Number.toCapacity(unit)`: whole sources are multiplied exactly in 64-bit
      arithmetic (wrapping on overflow); fractional sources are scaled and rounded with
      `roundToLong`. */
  function ToCapacity(n: Number, unit: CapacityUnit): (r: Capacity)
    ensures n.Integral? ==> (r.rawValue - n.n * ByteFactor(unit)) % LONG_MODULUS == 0
    ensures n.Integral? && InLongRange(n.n * ByteFactor(unit)) ==> r.rawValue == n.n * ByteFactor(unit)
    ensures n.Floating? && LONG_MIN as real <= n.x * ByteFactor(unit) as real <= LONG_MAX as real ==>
      r.rawValue as real - 0.5 <= n.x * ByteFactor(unit) as real < r.rawValue as real + 0.5
  {
    match n
    case Integral(k) =>
      Wrap64Congruence(k * ByteFactor(unit));
      Capacity(Wrap64(k * ByteFactor(unit)))
    case Floating(x) => Capacity(RoundToLong(x * ByteFactor(unit) as real))
  }

  /** `compareTo` is a total order that depends on the raw value alone. */
  lemma CompareToIsTotalOrder(a: Capacity, b: Capacity, c: Capacity)
    ensures CompareTo(a, a) == 0
    ensures CompareTo(a, b) == -CompareTo(b, a)
    ensures CompareTo(a, b) <= 0 && CompareTo(b, c) <= 0 ==> CompareTo(a, c) <= 0
    ensures CompareTo(a, b) == 0 <==> a.rawValue == b.rawValue
  {
  }

  /** Subtraction undoes addition for every pair of capacities: even when the sum
      overflows, the two wrap-arounds cancel. */
  lemma PlusMinusCancel(a: Capacity, b: Capacity)
    ensures Minus(Plus(a, b), b) == a
  {
    Wrap64AddThenSubtract(a.rawValue, b.rawValue);
  }

  /** Capacities under `Plus` form a commutative group: zero is the identity, every
      capacity minus itself is zero, and addition is associative despite wrap-around. */
  lemma PlusIsCommutativeGroup(a: Capacity, b: Capacity)
    ensures Plus(a, b) == Plus(b, a)
    ensures Plus(a, Capacity(0)) == a
    ensures Minus(a, a) == Capacity(0)
  {
  }

  /** Addition is associative despite wrap-around. */
  lemma PlusIsAssociative(a: Capacity, b: Capacity, c: Capacity)
    ensures Plus(Plus(a, b), c) == Plus(a, Plus(b, c))
  {
    var x, y, z := a.rawValue, b.rawValue, c.rawValue;
    assert Plus(Plus(a, b), c).rawValue == Wrap64(Wrap64(x + y) + z);
    assert Plus(a, Plus(b, c)).rawValue == Wrap64(x + Wrap64(y + z));
    Wrap64AddAssociative(x, y, z);
  }

  /** Truncating division agrees with truncating the exact quotient, so
      `ToWholeUnits` never exceeds the exact value in magnitude. */
  lemma WholeUnitsTruncateFractional(c: Capacity, unit: CapacityUnit)
    ensures ToWholeUnits(c, unit) == Trunc(ToFractionalUnits(c, unit))
    ensures AbsReal(ToWholeUnits(c, unit) as real) <= AbsReal(ToFractionalUnits(c, unit))
  {
    TruncDivIsTruncOfQuotient(c.rawValue, ByteFactor(unit));
  }

  /** `RoundToWholeUnits` is `ToWholeUnits` or one step further from zero. */
  lemma RoundedIsWholeOrNext(c: Capacity, unit: CapacityUnit)
    ensures c.rawValue >= 0 ==> RoundToWholeUnits(c, unit) - ToWholeUnits(c, unit) in {0, 1}
    ensures c.rawValue < 0 ==> RoundToWholeUnits(c, unit) - ToWholeUnits(c, unit) in {-1, 0}
  {
    var x := ToFractionalUnits(c, unit);
    WholeUnitsTruncateFractional(c, unit);
    NearestIsTruncOrNext(x, RoundToWholeUnits(c, unit));
  }

  /** The deprecated conversions agree with their replacements. */
  lemma DeprecatedAliasesAgree(c: Capacity, unit: CapacityUnit)
    ensures ToDouble(c, unit) == ToFractionalUnits(c, unit)
    ensures ToLong(c, unit) == RoundToWholeUnits(c, unit)
  {
  }

  /** Converting to any unit keeps the order of capacities. */
  lemma ConversionsPreserveOrder(a: Capacity, b: Capacity, unit: CapacityUnit)
    requires CompareTo(a, b) < 0
    ensures ToFractionalUnits(a, unit) < ToFractionalUnits(b, unit)
    ensures ToWholeUnits(a, unit) <= ToWholeUnits(b, unit)
  {
    QuotientsKeepOrder(a.rawValue, b.rawValue, ByteFactor(unit));
    WholeUnitsTruncateFractional(a, unit);
    WholeUnitsTruncateFractional(b, unit);
  }

  /** A whole number of units that fits in a `Long` once scaled comes back unchanged
      from both conversions. */
  lemma WholeRoundTrip(n: Long, unit: CapacityUnit)
    requires InLongRange(n * ByteFactor(unit))
    ensures ToWholeUnits(ToCapacity(Integral(n), unit), unit) == n
    ensures ToFractionalUnits(ToCapacity(Integral(n), unit), unit) == n as real
  {
    var f := ByteFactor(unit);
    ScaleThenDivide(n, f);
    assert ToCapacity(Integral(n), unit).rawValue == Wrap64(n * f);
  }

  /** `BYTE` is the identity unit: every `Long` is stored as given (so
      `n.bytes.inWholeBytes == n`), and reading a capacity in bytes gives its raw
      value. */
  lemma BytesIsIdentity(n: Long, c: Capacity)
    ensures ToCapacity(Integral(n), BYTE) == Capacity(n)
    ensures InWholeBytes(ToCapacity(Integral(n), BYTE)) == n
    ensures ToWholeUnits(c, BYTE) == c.rawValue
    ensures ToFractionalUnits(c, BYTE) == c.rawValue as real
  {
  }

  /** Zero from any unit and source type is `Capacity(0)`, and the extreme `Long`
      values construct exactly. */
  lemma Instantiation(unit: CapacityUnit)
    ensures ToCapacity(Integral(0), unit) == Capacity(0)
    ensures ToCapacity(Floating(0.0), unit) == Capacity(0)
    ensures ToCapacity(Integral(LONG_MAX), BYTE) == Capacity(LONG_MAX)
    ensures ToCapacity(Integral(LONG_MIN), BYTE) == Capacity(LONG_MIN)
  {
  }

  /** `ToWholeUnits` truncates: 1.01 to 1.9 terabytes are all 1 whole terabyte, and
      1.5 terabytes is 1 whole tebibyte. */
  lemma WholeUnitsTruncate()
    ensures ToWholeUnits(ToCapacity(Floating(1.5), TERABYTE), TEBIBYTE) == 1
    ensures ToWholeUnits(ToCapacity(Floating(1.49), TERABYTE), TERABYTE) == 1
    ensures ToWholeUnits(ToCapacity(Floating(1.01), TERABYTE), TERABYTE) == 1
    ensures ToWholeUnits(ToCapacity(Floating(1.51), TERABYTE), TERABYTE) == 1
    ensures ToWholeUnits(ToCapacity(Floating(1.9), TERABYTE), TERABYTE) == 1
  {
    assert ToCapacity(Floating(1.5), TERABYTE).rawValue == 1_500_000_000_000;
    assert ToCapacity(Floating(1.49), TERABYTE).rawValue == 1_490_000_000_000;
    assert ToCapacity(Floating(1.01), TERABYTE).rawValue == 1_010_000_000_000;
    assert ToCapacity(Floating(1.51), TERABYTE).rawValue == 1_510_000_000_000;
    assert ToCapacity(Floating(1.9), TERABYTE).rawValue == 1_900_000_000_000;
  }

  /** `RoundToWholeUnits` rounds to nearest: 1.01 and 1.49 terabytes round to 1 terabyte,
      1.51 and 1.9 terabytes to 2, and 1.5 terabytes to 1 tebibyte. */
  lemma WholeUnitsRound()
    ensures RoundToWholeUnits(ToCapacity(Floating(1.5), TERABYTE), TEBIBYTE) == 1
    ensures RoundToWholeUnits(ToCapacity(Floating(1.49), TERABYTE), TERABYTE) == 1
    ensures RoundToWholeUnits(ToCapacity(Floating(1.01), TERABYTE), TERABYTE) == 1
    ensures RoundToWholeUnits(ToCapacity(Floating(1.51), TERABYTE), TERABYTE) == 2
    ensures RoundToWholeUnits(ToCapacity(Floating(1.9), TERABYTE), TERABYTE) == 2
  {
    assert ToCapacity(Floating(1.5), TERABYTE).rawValue == 1_500_000_000_000;
    assert ToCapacity(Floating(1.49), TERABYTE).rawValue == 1_490_000_000_000;
    assert ToCapacity(Floating(1.01), TERABYTE).rawValue == 1_010_000_000_000;
    assert ToCapacity(Floating(1.51), TERABYTE).rawValue == 1_510_000_000_000;
    assert ToCapacity(Floating(1.9), TERABYTE).rawValue == 1_900_000_000_000;
  }

  /** 1500 gigabytes equals 1.5 terabytes, and 1 gigabyte is less than 1.5 terabytes. */
  lemma ComparisonsAcrossUnits()
    ensures CompareTo(ToCapacity(Floating(1.5), TERABYTE), ToCapacity(Integral(1500), GIGABYTE)) == 0
    ensures CompareTo(ToCapacity(Integral(1500), GIGABYTE), ToCapacity(Floating(1.5), TERABYTE)) == 0
    ensures CompareTo(ToCapacity(Floating(1.5), TERABYTE), ToCapacity(Integral(1), GIGABYTE)) > 0
    ensures CompareTo(ToCapacity(Integral(1), GIGABYTE), ToCapacity(Floating(1.5), TERABYTE)) < 0
  {
  }
}
