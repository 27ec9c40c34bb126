/** A length, stored as an exact decimal number of metres, compared, added and
    subtracted on that value and converted through the unit's `toMeter`/`fromMeter`
    pair. */
module Lengths {
  import opened Numeric
  import opened LengthUnits

  /** An immutable length in metres. */
  datatype Length = Length(meters: real)

  /** Orders lengths by their metre values. */
  function CompareTo(a: Length, b: Length): (r: int)
    ensures r in {-1, 0, 1}
    ensures r < 0 <==> a.meters < b.meters
    ensures r == 0 <==> a == b
    ensures r > 0 <==> a.meters > b.meters
  {
    CompareReal(a.meters, b.meters)
  }

  /** The exact sum of the metre values. */
  function Plus(a: Length, b: Length): (r: Length)
    ensures r.meters - b.meters == a.meters
  {
    Length(a.meters + b.meters)
  }

  /** The exact difference of the metre values. */
  function Minus(a: Length, b: Length): (r: Length)
    ensures r.meters + b.meters == a.meters
  {
    Length(a.meters - b.meters)
  }

  /** The value in `unit`, through the unit's `fromMeter`. The source returns it as a
      `Double`; here it is exact. For the exactly invertible units, converting it back
      to metres gives the stored value. */
  function ToFractionalUnits(l: Length, unit: LengthUnit): (r: real)
    ensures IsExactPair(unit) ==> ToMeter(unit, r) == l.meters
    ensures (r < 0.0 <==> l.meters < 0.0) && (r == 0.0 <==> l.meters == 0.0)
  {
    FromMeter(unit, l.meters)
  }

  /** The integer part of the value in `unit`: `longValue` without exactness, rounding
      toward zero. */
  function ToWholeUnits(l: Length, unit: LengthUnit): (r: int)
    ensures AbsReal(r as real) <= AbsReal(FromMeter(unit, l.meters)) < AbsReal(r as real) + 1.0
    ensures r == 0 || (r < 0) == (FromMeter(unit, l.meters) < 0.0)
  {
    Trunc(FromMeter(unit, l.meters))
  }

  /** The nearest whole number of `unit`s, ties toward positive infinity, saturating at
      the ends of the `Long` range. */
  function RoundToWholeUnits(l: Length, unit: LengthUnit): (r: Long)
    ensures InLongRange(RoundHalfUp(ToFractionalUnits(l, unit))) ==>
      r as real - 0.5 <= ToFractionalUnits(l, unit) < r as real + 0.5
  {
    RoundToLong(ToFractionalUnits(l, unit))
  }

  /** `Number.toLength(unit)`: every source type is taken as an exact decimal and
      passed through the unit's `toMeter`. For the exactly invertible units, the stored
      metres convert back to the number. */
  function ToLength(n: Number, unit: LengthUnit): (r: Length)
    ensures IsExactPair(unit) ==> FromMeter(unit, r.meters) == n.Value()
    ensures (r.meters < 0.0 <==> n.Value() < 0.0) && (r.meters == 0.0 <==> n.Value() == 0.0)
  {
    Length(ToMeter(unit, n.Value()))
  }

  /** `compareTo` is a total order on the metre value. */
  lemma CompareToIsTotalOrder(a: Length, b: Length, c: Length)
    ensures CompareTo(a, a) == 0
    ensures CompareTo(a, b) == -CompareTo(b, a)
    ensures CompareTo(a, b) <= 0 && CompareTo(b, c) <= 0 ==> CompareTo(a, c) <= 0
  {
  }

  /** Lengths under `Plus` form a commutative group with zero metres as identity, and
      `Minus` undoes `Plus` exactly. */
  lemma PlusIsCommutativeGroup(a: Length, b: Length, c: Length)
    ensures Plus(a, b) == Plus(b, a)
    ensures Plus(Plus(a, b), c) == Plus(a, Plus(b, c))
    ensures Plus(a, Length(0.0)) == a
    ensures Minus(Plus(a, b), b) == a
    ensures Minus(a, a) == Length(0.0)
  {
  }

  /** Conversion to any unit keeps the order of lengths; whole units never cross. */
  lemma ConversionsPreserveOrder(a: Length, b: Length, unit: LengthUnit)
    requires CompareTo(a, b) < 0
    ensures ToFractionalUnits(a, unit) < ToFractionalUnits(b, unit)
    ensures ToWholeUnits(a, unit) <= ToWholeUnits(b, unit)
  {
    ConversionsAreAdditiveAndMonotone(unit, a.meters, b.meters);
  }

  /** `RoundToWholeUnits` is `ToWholeUnits` or one step further from zero, unless it
      saturated. */
  lemma RoundedIsWholeOrNext(l: Length, unit: LengthUnit)
    requires InLongRange(RoundHalfUp(ToFractionalUnits(l, unit)))
    ensures l.meters >= 0.0 ==> RoundToWholeUnits(l, unit) - ToWholeUnits(l, unit) in {0, 1}
    ensures l.meters < 0.0 ==> RoundToWholeUnits(l, unit) - ToWholeUnits(l, unit) in {-1, 0}
  {
    NearestIsTruncOrNext(ToFractionalUnits(l, unit), RoundToWholeUnits(l, unit));
  }

  /** For METER, KILOMETER, CENTIMETER, MILLIMETER and THOU, a whole number of units
      converted in comes back unchanged from every conversion. */
  lemma WholeRoundTrip(n: Long, unit: LengthUnit)
    requires IsExactPair(unit)
    ensures ToFractionalUnits(ToLength(Integral(n), unit), unit) == n as real
    ensures ToWholeUnits(ToLength(Integral(n), unit), unit) == n
    ensures RoundToWholeUnits(ToLength(Integral(n), unit), unit) == n
  {
    ExactPairsRoundTrip(unit, n as real, 0.0);
    TruncUnique(n as real, n);
  }

  /** For INCH through FATHOM the source's pair does not round-trip: one inch reads
      back as 1550 whole inches. */
  lemma InchDoesNotRoundTrip()
    ensures ToWholeUnits(ToLength(Integral(1), INCH), INCH) == 1550
    ensures ToFractionalUnits(ToLength(Integral(1), INCH), METER) > 39.0
  {
    ToMeterInvertsImperialScale();
    TruncUnique(1550.0, 1550);
  }

  /** With the corrected `toMeter`, a whole number of THOU converts in and back exactly,
      and one inch is 0.0254 metres. */
  lemma IntendedThouAndInch(n: Long)
    ensures Trunc(IntendedFromMeter(THOU, Length(IntendedToMeter(THOU, n as real)).meters)) == n
    ensures Length(IntendedToMeter(INCH, 1.0)) == Length(0.0254)
  {
    IntendedRoundTrip(THOU, n as real);
    TruncUnique(n as real, n);
  }

  /** 1000 millimetres, 100 centimetres and 1 metre are the same length. */
  lemma MetricUnitsAgree()
    ensures ToLength(Integral(1000), MILLIMETER) == ToLength(Integral(1), METER)
    ensures ToLength(Integral(100), CENTIMETER) == ToLength(Integral(1), METER)
    ensures ToLength(Integral(1), KILOMETER) == ToLength(Integral(1000), METER)
  {
  }
}
