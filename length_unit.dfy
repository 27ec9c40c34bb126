/** The units a length can be expressed in. Each unit carries a pair of scaling
    functions over exact decimals: `ToMeter` turns an amount of the unit into metres,
    `FromMeter` turns metres into the unit. Both are written here exactly as the enum
    states them, including the imperial entries whose pair does not invert. */
module LengthUnits {
  import opened Numeric

  datatype LengthUnit =
      // SI metric
    | METER | KILOMETER | CENTIMETER | MILLIMETER
      // US customary
    | THOU | INCH | FOOT | YARD | MILE | LEAGUE
      // Marine
    | NAUTICAL_MILE | FATHOM

  /** The unit's `toMeter` lambda. */
  function ToMeter(u: LengthUnit, x: real): real {
    match u
    case METER => x
    case KILOMETER => x * 1000.0
    case CENTIMETER => x / 100.0
    case MILLIMETER => x / 1000.0
    case THOU => x / 25.4
    case INCH => x / 0.0254
    case FOOT => x / 0.3048
    case YARD => x / 0.9144
    case MILE => x / 1609.34
    case LEAGUE => x / 4828.03
    case NAUTICAL_MILE => x / 1852.0
    case FATHOM => x / 1.8288
  }

  /** The unit's `fromMeter` lambda. */
  function FromMeter(u: LengthUnit, y: real): real {
    match u
    case METER => y
    case KILOMETER => y / 1000.0
    case CENTIMETER => y * 100.0
    case MILLIMETER => y * 1000.0
    case THOU => y * 25.4
    case INCH => y * 39.37
    case FOOT => y * 3.28084
    case YARD => y * 1.09361
    case MILE => y * 0.000621371
    case LEAGUE => y * 0.000207123
    case NAUTICAL_MILE => y * 0.000539957
    case FATHOM => y * 0.546807
  }

  /** The units whose two lambdas undo each other exactly. */
  predicate IsExactPair(u: LengthUnit) {
    u in {METER, KILOMETER, CENTIMETER, MILLIMETER, THOU}
  }

  /** Both lambdas of every unit multiply by a positive constant: the image of 1. */
  lemma ConversionsAreScalings(u: LengthUnit, x: real)
    ensures ToMeter(u, 1.0) > 0.0 && ToMeter(u, x) == ToMeter(u, 1.0) * x
    ensures FromMeter(u, 1.0) > 0.0 && FromMeter(u, x) == FromMeter(u, 1.0) * x
  {
  }

  /** Being scalings by positive constants, both lambdas are additive and strictly
      increasing. */
  lemma {:induction false} ConversionsAreAdditiveAndMonotone(u: LengthUnit, a: real, b: real)
    ensures ToMeter(u, a + b) == ToMeter(u, a) + ToMeter(u, b)
    ensures FromMeter(u, a + b) == FromMeter(u, a) + FromMeter(u, b)
    ensures a < b ==> ToMeter(u, a) < ToMeter(u, b)
    ensures a < b ==> FromMeter(u, a) < FromMeter(u, b)
  {
    ConversionsAreScalings(u, a);
    ConversionsAreScalings(u, b);
    ConversionsAreScalings(u, a + b);
    var t, f := ToMeter(u, 1.0), FromMeter(u, 1.0);
    assert t * (a + b) == t * a + t * b;
    assert f * (a + b) == f * a + f * b;
    if a < b {
      assert t * b - t * a == t * (b - a);
      assert f * b - f * a == f * (b - a);
    }
  }

  /** METER, KILOMETER, CENTIMETER, MILLIMETER and THOU round-trip exactly in both
      directions. */
  lemma ExactPairsRoundTrip(u: LengthUnit, x: real, y: real)
    requires IsExactPair(u)
    ensures FromMeter(u, ToMeter(u, x)) == x
    ensures ToMeter(u, FromMeter(u, y)) == y
  {
  }

  /** For INCH through FATHOM the pair does not invert: converting a non-zero amount to
      metres and back never gives the amount again. */
  lemma ImperialPairsDoNotRoundTrip(u: LengthUnit, x: real)
    requires !IsExactPair(u) && x != 0.0
    ensures FromMeter(u, ToMeter(u, x)) != x
  {
    ConversionsAreScalings(u, x);
    ConversionsAreScalings(u, ToMeter(u, x));
    var k := FromMeter(u, 1.0) * ToMeter(u, 1.0);
    assert FromMeter(u, ToMeter(u, x)) == k * x;
    assert k != 1.0;
  }

  /** The `toMeter` lambdas of THOU and INCH through FATHOM, as written, divide by the
      length of the unit in metres where they should multiply: one inch becomes 39.37
      metres and reads back as 1550 inches, twelve inches are not a foot, and a thou is
      stored as 1/25.4 of a metre. */
  lemma ToMeterInvertsImperialScale()
    ensures ToMeter(INCH, 1.0) > 39.0
    ensures FromMeter(INCH, ToMeter(INCH, 1.0)) == 1550.0
    ensures ToMeter(INCH, 12.0) != ToMeter(FOOT, 1.0)
    ensures ToMeter(THOU, 1.0) * 25.4 == 1.0
    ensures ToMeter(THOU, 1.0) > 1000.0 * IntendedToMeter(THOU, 1.0)
  {
  }

  /** The conversion the imperial and marine entries evidently intend: multiply by the
      unit's length in metres (a thou being a thousandth of an inch, 0.0000254 m).
      The metric entries are unchanged. */
  function IntendedToMeter(u: LengthUnit, x: real): real {
    match u
    case THOU => x * 0.0000254
    case INCH => x * 0.0254
    case FOOT => x * 0.3048
    case YARD => x * 0.9144
    case MILE => x * 1609.34
    case LEAGUE => x * 4828.03
    case NAUTICAL_MILE => x * 1852.0
    case FATHOM => x * 1.8288
    case _ => ToMeter(u, x)
  }

  /** The inverse of `IntendedToMeter`: exact for the metric units and THOU, and the
      source's own `fromMeter` factors (units per metre, rounded) for the rest. */
  function IntendedFromMeter(u: LengthUnit, y: real): real {
    if u == THOU then y / 0.0000254 else FromMeter(u, y)
  }

  /** With the corrected `toMeter`, the units agree with one another: 1000 thou make an
      inch, 12 inches a foot, 3 feet a yard and 2 yards a fathom. */
  lemma IntendedUnitsAgree()
    ensures IntendedToMeter(INCH, 1.0) == 0.0254
    ensures IntendedToMeter(THOU, 1000.0) == IntendedToMeter(INCH, 1.0)
    ensures IntendedToMeter(INCH, 12.0) == IntendedToMeter(FOOT, 1.0)
    ensures IntendedToMeter(FOOT, 3.0) == IntendedToMeter(YARD, 1.0)
    ensures IntendedToMeter(YARD, 2.0) == IntendedToMeter(FATHOM, 1.0)
  {
  }

  /** With the corrected `toMeter`, every unit round-trips: exactly for the metric
      units and THOU, and within a relative error of 10^-5 for the others, whose
      `fromMeter` factors are rounded. */
  lemma {:induction false} IntendedRoundTrip(u: LengthUnit, x: real)
    ensures u in {METER, KILOMETER, CENTIMETER, MILLIMETER, THOU} ==>
      IntendedFromMeter(u, IntendedToMeter(u, x)) == x
    ensures AbsReal(IntendedFromMeter(u, IntendedToMeter(u, x)) - x) <= AbsReal(x) / 100000.0
  {
    var k := IntendedFromMeter(u, IntendedToMeter(u, 1.0));
    assert IntendedFromMeter(u, IntendedToMeter(u, x)) == k * x;
    assert AbsReal(k - 1.0) <= 1.0 / 100000.0;
    assert (k - 1.0) * x == k * x - x;
    if x >= 0.0 {
      assert AbsReal((k - 1.0) * x) <= x / 100000.0;
    } else {
      assert AbsReal((k - 1.0) * x) <= (-x) / 100000.0;
    }
  }
}
