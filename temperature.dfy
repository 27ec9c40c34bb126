/** A temperature, stored as an exact decimal number of kelvin, compared, added and
    subtracted on that value and converted through the unit's affine maps. */
module Temperatures {
  import opened Numeric
  import opened TemperatureUnits

  /** An immutable temperature in kelvin. */
  datatype Temperature = Temperature(kelvin: real)

  /** Orders temperatures by their kelvin values. */
  function CompareTo(a: Temperature, b: Temperature): (r: int)
    ensures r in {-1, 0, 1}
    ensures r < 0 <==> a.kelvin < b.kelvin
    ensures r == 0 <==> a == b
    ensures r > 0 <==> a.kelvin > b.kelvin
  {
    CompareReal(a.kelvin, b.kelvin)
  }

  /** The exact sum of the kelvin values. */
  function Plus(a: Temperature, b: Temperature): (r: Temperature)
    ensures r.kelvin - b.kelvin == a.kelvin
  {
    Temperature(a.kelvin + b.kelvin)
  }

  /** The exact difference of the kelvin values. */
  function Minus(a: Temperature, b: Temperature): (r: Temperature)
    ensures r.kelvin + b.kelvin == a.kelvin
  {
    Temperature(a.kelvin - b.kelvin)
  }

  /** The value in `unit`, through the unit's `fromKelvin`. The source returns it as a
      `Double`; here it is exact, and converting it back gives the stored kelvin. */
  function ToFractionalUnits(t: Temperature, unit: TemperatureUnit): (r: real)
    ensures ToKelvin(unit, r) == t.kelvin
  {
    RoundTrip(unit, 0.0, t.kelvin);
    FromKelvin(unit, t.kelvin)
  }

  /** Deprecated `toDouble`: the same expression as `ToFractionalUnits`, written out
      again in the source. */
  function ToDouble(t: Temperature, unit: TemperatureUnit): (r: real)
    ensures r == ToFractionalUnits(t, unit)
  {
    FromKelvin(unit, t.kelvin)
  }

  /** The integer part of the value in `unit`: `longValue` without exactness, rounding
      toward zero. */
  function ToWholeUnits(t: Temperature, unit: TemperatureUnit): (r: int)
    ensures AbsReal(r as real) <= AbsReal(ToFractionalUnits(t, unit)) < AbsReal(r as real) + 1.0
    ensures r == 0 || (r < 0) == (ToFractionalUnits(t, unit) < 0.0)
  {
    Trunc(FromKelvin(unit, t.kelvin))
  }

  /** The nearest whole number of `unit`s, ties toward positive infinity, saturating at
      the ends of the `Long` range. */
  function RoundToWholeUnits(t: Temperature, unit: TemperatureUnit): (r: Long)
    ensures InLongRange(RoundHalfUp(ToFractionalUnits(t, unit))) ==>
      r as real - 0.5 <= ToFractionalUnits(t, unit) < r as real + 0.5
  {
    RoundToLong(ToFractionalUnits(t, unit))
  }

  /** Deprecated `toLong`: rounds the fractional value exactly as `RoundToWholeUnits`
      does. */
  function ToLong(t: Temperature, unit: TemperatureUnit): (r: Long)
    ensures InLongRange(RoundHalfUp(ToFractionalUnits(t, unit))) ==>
      r as real - 0.5 <= ToFractionalUnits(t, unit) < r as real + 0.5
  {
    RoundToLong(ToFractionalUnits(t, unit))
  }

  /** `Number.toTemperature(unit)`: every source type is taken as an exact decimal
      and passed through the unit's `toKelvin`; reading the temperature back in the
      same unit gives the number. */
  function ToTemperature(n: Number, unit: TemperatureUnit): (r: Temperature)
    ensures FromKelvin(unit, r.kelvin) == n.Value()
  {
    RoundTrip(unit, n.Value(), 0.0);
    Temperature(ToKelvin(unit, n.Value()))
  }

  /** `compareTo` is a total order on the kelvin value. */
  lemma CompareToIsTotalOrder(a: Temperature, b: Temperature, c: Temperature)
    ensures CompareTo(a, a) == 0
    ensures CompareTo(a, b) == -CompareTo(b, a)
    ensures CompareTo(a, b) <= 0 && CompareTo(b, c) <= 0 ==> CompareTo(a, c) <= 0
  {
  }

  /** `Plus` and `Minus` add and subtract kelvin exactly: `Minus` undoes `Plus`, and
      zero kelvin is the identity. */
  lemma PlusMinusCancel(a: Temperature, b: Temperature)
    ensures Minus(Plus(a, b), b) == a
    ensures Plus(a, Temperature(0.0)) == a
    ensures Minus(a, a) == Temperature(0.0)
  {
  }

  /** The deprecated conversions agree with their replacements. */
  lemma DeprecatedAliasesAgree(t: Temperature, unit: TemperatureUnit)
    ensures ToDouble(t, unit) == ToFractionalUnits(t, unit)
    ensures ToLong(t, unit) == RoundToWholeUnits(t, unit)
  {
  }

  /** Conversion to any unit keeps the order of temperatures; whole units never cross. */
  lemma ConversionsPreserveOrder(a: Temperature, b: Temperature, unit: TemperatureUnit)
    requires CompareTo(a, b) < 0
    ensures ToFractionalUnits(a, unit) < ToFractionalUnits(b, unit)
    ensures ToWholeUnits(a, unit) <= ToWholeUnits(b, unit)
  {
    ConversionsAreMonotone(unit, a.kelvin, b.kelvin);
  }

  /** A whole number of any unit converted in comes back unchanged from every
      conversion. */
  lemma WholeRoundTrip(n: Long, unit: TemperatureUnit)
    ensures ToFractionalUnits(ToTemperature(Integral(n), unit), unit) == n as real
    ensures ToWholeUnits(ToTemperature(Integral(n), unit), unit) == n
    ensures RoundToWholeUnits(ToTemperature(Integral(n), unit), unit) == n
  {
    TruncUnique(n as real, n);
  }

  /** 273.15 K, 0 °C, 32 °F, 491.67 °R and 0 °Ré are the same temperature, and a
      temperature built from any of them reads as each of the five. The same holds for
      373.15 K, 100 °C, 212 °F, 671.67 °R and 80 °Ré. */
  lemma WaterFixedPoints(from: TemperatureUnit, to: TemperatureUnit)
    ensures ToTemperature(Floating(FreezingPoint(from)), from) == Temperature(273.15)
    ensures ToFractionalUnits(ToTemperature(Floating(FreezingPoint(from)), from), to) == FreezingPoint(to)
    ensures ToTemperature(Floating(BoilingPoint(from)), from) == Temperature(373.15)
    ensures ToFractionalUnits(ToTemperature(Floating(BoilingPoint(from)), from), to) == BoilingPoint(to)
  {
    FixedPointsInKelvin(from);
    FixedPointsInKelvin(to);
  }
}
