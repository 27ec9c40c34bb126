/** A data-transfer rate: a signed 64-bit count of bits per second, compared, added and
    subtracted on that raw count and converted to and from any `BitrateUnit`. */
module Bitrates {
  import opened Numeric
  import opened BitrateUnits

  /** An immutable bitrate; `rawValue` is in bits per second. */
  datatype Bitrate = Bitrate(rawValue: Long)

  /** Orders bitrates by their raw bit counts. */
  function CompareTo(a: Bitrate, b: Bitrate): (r: int)
    ensures r in {-1, 0, 1}
    ensures r < 0 <==> a.rawValue < b.rawValue
    ensures r == 0 <==> a == b
    ensures r > 0 <==> a.rawValue > b.rawValue
  {
    CompareReal(a.rawValue as real, b.rawValue as real)
  }

  /** The raw sum, wrapped to 64 bits: overflow is not handled. */
  function Plus(a: Bitrate, b: Bitrate): (r: Bitrate)
    ensures InLongRange(a.rawValue + b.rawValue) ==> r.rawValue == a.rawValue + b.rawValue
    ensures a.rawValue + b.rawValue > LONG_MAX ==> r.rawValue == a.rawValue + b.rawValue - LONG_MODULUS
    ensures a.rawValue + b.rawValue < LONG_MIN ==> r.rawValue == a.rawValue + b.rawValue + LONG_MODULUS
  {
    Wrap64OneStep(a.rawValue + b.rawValue);
    Bitrate(Wrap64(a.rawValue + b.rawValue))
  }

  /** The raw difference, wrapped to 64 bits: overflow is not handled. */
  function Minus(a: Bitrate, b: Bitrate): (r: Bitrate)
    ensures InLongRange(a.rawValue - b.rawValue) ==> r.rawValue == a.rawValue - b.rawValue
    ensures a.rawValue - b.rawValue > LONG_MAX ==> r.rawValue == a.rawValue - b.rawValue - LONG_MODULUS
    ensures a.rawValue - b.rawValue < LONG_MIN ==> r.rawValue == a.rawValue - b.rawValue + LONG_MODULUS
  {
    Wrap64OneStep(a.rawValue - b.rawValue);
    Bitrate(Wrap64(a.rawValue - b.rawValue))
  }

  /** The exact value in `unit`; the source returns it as a `Double`. */
  function ToFractionalUnits(b: Bitrate, unit: BitrateUnit): (r: real)
    ensures r * BitFactor(unit) as real == b.rawValue as real
    ensures AbsReal(r) <= AbsReal(b.rawValue as real)
  {
    QuotientShrinks(b.rawValue, BitFactor(unit));
    b.rawValue as real / BitFactor(unit) as real
  }

  /** Deprecated `toDouble`: the same quotient as `ToFractionalUnits`, written out
      again in the source. */
  function ToDouble(b: Bitrate, unit: BitrateUnit): (r: real)
    ensures r == ToFractionalUnits(b, unit)
  {
    b.rawValue as real / BitFactor(unit) as real
  }

  /** The whole number of `unit`s in `b`, by Kotlin's truncating `Long` division. */
  function ToWholeUnits(b: Bitrate, unit: BitrateUnit): (r: Long)
    ensures Abs(b.rawValue - r * BitFactor(unit)) < BitFactor(unit)
    ensures b.rawValue - r * BitFactor(unit) == 0 || (b.rawValue - r * BitFactor(unit) < 0) == (b.rawValue < 0)
  {
    TruncDiv(b.rawValue, BitFactor(unit))
  }

  /** The nearest whole number of `unit`s, ties toward positive infinity. */
  function RoundToWholeUnits(b: Bitrate, unit: BitrateUnit): (r: Long)
    ensures r as real - 0.5 <= ToFractionalUnits(b, unit) < r as real + 0.5
  {
    RoundToLong(ToFractionalUnits(b, unit))
  }

  /** Deprecated `toLong`: delegates to `RoundToWholeUnits`, so it too rounds to the
      nearest whole number. */
  function ToLong(b: Bitrate, unit: BitrateUnit): (r: Long)
    ensures r as real - 0.5 <= ToFractionalUnits(b, unit) < r as real + 0.5
  {
    RoundToWholeUnits(b, unit)
  }

  /** `Number.toBitrate(unit)`: whole sources are multiplied exactly in 64-bit
      arithmetic (wrapping on overflow); fractional sources are scaled and rounded with
      `roundToLong`. */
  function ToBitrate(n: Number, unit: BitrateUnit): (r: Bitrate)
    ensures n.Integral? ==> (r.rawValue - n.n * BitFactor(unit)) % LONG_MODULUS == 0
    ensures n.Integral? && InLongRange(n.n * BitFactor(unit)) ==> r.rawValue == n.n * BitFactor(unit)
    ensures n.Floating? && LONG_MIN as real <= n.x * BitFactor(unit) as real <= LONG_MAX as real ==>
      r.rawValue as real - 0.5 <= n.x * BitFactor(unit) as real < r.rawValue as real + 0.5
  {
    match n
    case Integral(k) =>
      Wrap64Congruence(k * BitFactor(unit));
      Bitrate(Wrap64(k * BitFactor(unit)))
    case Floating(x) => Bitrate(RoundToLong(x * BitFactor(unit) as real))
  }

  /** `compareTo` is a total order that depends on the raw value alone. */
  lemma CompareToIsTotalOrder(a: Bitrate, b: Bitrate, c: Bitrate)
    ensures CompareTo(a, a) == 0
    ensures CompareTo(a, b) == -CompareTo(b, a)
    ensures CompareTo(a, b) <= 0 && CompareTo(b, c) <= 0 ==> CompareTo(a, c) <= 0
    ensures CompareTo(a, b) == 0 <==> a.rawValue == b.rawValue
  {
  }

  /** Subtraction undoes addition for every pair of bitrates: even when the sum
      overflows, the two wrap-arounds cancel. */
  lemma PlusMinusCancel(a: Bitrate, b: Bitrate)
    ensures Minus(Plus(a, b), b) == a
  {
    Wrap64AddThenSubtract(a.rawValue, b.rawValue);
  }

  /** Bitrates under `Plus` form a commutative group: zero is the identity, every
      bitrate minus itself is zero. */
  lemma PlusIsCommutativeGroup(a: Bitrate, b: Bitrate)
    ensures Plus(a, b) == Plus(b, a)
    ensures Plus(a, Bitrate(0)) == a
    ensures Minus(a, a) == Bitrate(0)
  {
  }

  /** Addition is associative despite wrap-around. */
  lemma PlusIsAssociative(a: Bitrate, b: Bitrate, c: Bitrate)
    ensures Plus(Plus(a, b), c) == Plus(a, Plus(b, c))
  {
    var x, y, z := a.rawValue, b.rawValue, c.rawValue;
    assert Plus(Plus(a, b), c).rawValue == Wrap64(Wrap64(x + y) + z);
    assert Plus(a, Plus(b, c)).rawValue == Wrap64(x + Wrap64(y + z));
    Wrap64AddAssociative(x, y, z);
  }

  /** Truncating division agrees with truncating the exact quotient, so
      `ToWholeUnits` never exceeds the exact value in magnitude. */
  lemma WholeUnitsTruncateFractional(b: Bitrate, unit: BitrateUnit)
    ensures ToWholeUnits(b, unit) == Trunc(ToFractionalUnits(b, unit))
    ensures AbsReal(ToWholeUnits(b, unit) as real) <= AbsReal(ToFractionalUnits(b, unit))
  {
    TruncDivIsTruncOfQuotient(b.rawValue, BitFactor(unit));
  }

  /** `RoundToWholeUnits` is `ToWholeUnits` or one step further from zero. */
  lemma RoundedIsWholeOrNext(b: Bitrate, unit: BitrateUnit)
    ensures b.rawValue >= 0 ==> RoundToWholeUnits(b, unit) - ToWholeUnits(b, unit) in {0, 1}
    ensures b.rawValue < 0 ==> RoundToWholeUnits(b, unit) - ToWholeUnits(b, unit) in {-1, 0}
  {
    var x := ToFractionalUnits(b, unit);
    WholeUnitsTruncateFractional(b, unit);
    NearestIsTruncOrNext(x, RoundToWholeUnits(b, unit));
  }

  /** The deprecated conversions agree with their replacements. */
  lemma DeprecatedAliasesAgree(b: Bitrate, unit: BitrateUnit)
    ensures ToDouble(b, unit) == ToFractionalUnits(b, unit)
    ensures ToLong(b, unit) == RoundToWholeUnits(b, unit)
  {
  }

  /** Converting to any unit keeps the order of bitrates. */
  lemma ConversionsPreserveOrder(a: Bitrate, b: Bitrate, unit: BitrateUnit)
    requires CompareTo(a, b) < 0
    ensures ToFractionalUnits(a, unit) < ToFractionalUnits(b, unit)
    ensures ToWholeUnits(a, unit) <= ToWholeUnits(b, unit)
  {
    QuotientsKeepOrder(a.rawValue, b.rawValue, BitFactor(unit));
    WholeUnitsTruncateFractional(a, unit);
    WholeUnitsTruncateFractional(b, unit);
  }

  /** A whole number of units that fits in a `Long` once scaled comes back unchanged
      from both conversions. */
  lemma WholeRoundTrip(n: Long, unit: BitrateUnit)
    requires InLongRange(n * BitFactor(unit))
    ensures ToWholeUnits(ToBitrate(Integral(n), unit), unit) == n
    ensures ToFractionalUnits(ToBitrate(Integral(n), unit), unit) == n as real
  {
    var f := BitFactor(unit);
    ScaleThenDivide(n, f);
    assert ToBitrate(Integral(n), unit).rawValue == Wrap64(n * f);
  }

  /** `BITS` is the identity unit: every `Long` is stored as given, and reading a
      bitrate in bits gives its raw value. */
  lemma BitsIsIdentity(n: Long, b: Bitrate)
    ensures ToBitrate(Integral(n), BITS) == Bitrate(n)
    ensures ToWholeUnits(b, BITS) == b.rawValue
    ensures ToFractionalUnits(b, BITS) == b.rawValue as real
  {
  }

  /** Zero from any unit and source type is `Bitrate(0)`, and the extreme `Long`
      values construct exactly. */
  lemma Instantiation(unit: BitrateUnit)
    ensures ToBitrate(Integral(0), unit) == Bitrate(0)
    ensures ToBitrate(Floating(0.0), unit) == Bitrate(0)
    ensures ToBitrate(Integral(LONG_MAX), BITS) == Bitrate(LONG_MAX)
    ensures ToBitrate(Integral(LONG_MIN), BITS) == Bitrate(LONG_MIN)
  {
  }

  /** `ToWholeUnits` truncates: 1.01 to 1.9 terabits are all 1 whole terabit, and
      1.5 terabits is 1 whole tebibit. */
  lemma WholeUnitsTruncate()
    ensures ToWholeUnits(ToBitrate(Floating(1.5), TERABITS), TEBIBITS) == 1
    ensures ToWholeUnits(ToBitrate(Floating(1.49), TERABITS), TERABITS) == 1
    ensures ToWholeUnits(ToBitrate(Floating(1.01), TERABITS), TERABITS) == 1
    ensures ToWholeUnits(ToBitrate(Floating(1.51), TERABITS), TERABITS) == 1
    ensures ToWholeUnits(ToBitrate(Floating(1.9), TERABITS), TERABITS) == 1
  {
    assert ToBitrate(Floating(1.5), TERABITS).rawValue == 1_500_000_000_000;
    assert ToBitrate(Floating(1.49), TERABITS).rawValue == 1_490_000_000_000;
    assert ToBitrate(Floating(1.01), TERABITS).rawValue == 1_010_000_000_000;
    assert ToBitrate(Floating(1.51), TERABITS).rawValue == 1_510_000_000_000;
    assert ToBitrate(Floating(1.9), TERABITS).rawValue == 1_900_000_000_000;
  }

  /** `RoundToWholeUnits` rounds to nearest: 1.01 and 1.49 terabits round to 1 terabit,
      1.51 and 1.9 terabits to 2, and 1.5 terabits to 1 tebibit. */
  lemma WholeUnitsRound()
    ensures RoundToWholeUnits(ToBitrate(Floating(1.5), TERABITS), TEBIBITS) == 1
    ensures RoundToWholeUnits(ToBitrate(Floating(1.49), TERABITS), TERABITS) == 1
    ensures RoundToWholeUnits(ToBitrate(Floating(1.01), TERABITS), TERABITS) == 1
    ensures RoundToWholeUnits(ToBitrate(Floating(1.51), TERABITS), TERABITS) == 2
    ensures RoundToWholeUnits(ToBitrate(Floating(1.9), TERABITS), TERABITS) == 2
  {
    assert ToBitrate(Floating(1.5), TERABITS).rawValue == 1_500_000_000_000;
    assert ToBitrate(Floating(1.49), TERABITS).rawValue == 1_490_000_000_000;
    assert ToBitrate(Floating(1.01), TERABITS).rawValue == 1_010_000_000_000;
    assert ToBitrate(Floating(1.51), TERABITS).rawValue == 1_510_000_000_000;
    assert ToBitrate(Floating(1.9), TERABITS).rawValue == 1_900_000_000_000;
  }

  /** 1500 gigabits equals 1.5 terabits, and 1 gigabit is less than 1.5 terabits. */
  lemma ComparisonsAcrossUnits()
    ensures CompareTo(ToBitrate(Floating(1.5), TERABITS), ToBitrate(Integral(1500), GIGABITS)) == 0
    ensures CompareTo(ToBitrate(Integral(1500), GIGABITS), ToBitrate(Floating(1.5), TERABITS)) == 0
    ensures CompareTo(ToBitrate(Floating(1.5), TERABITS), ToBitrate(Integral(1), GIGABITS)) > 0
    ensures CompareTo(ToBitrate(Integral(1), GIGABITS), ToBitrate(Floating(1.5), TERABITS)) < 0
  {
  }
}
