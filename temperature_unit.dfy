/** The units a temperature can be expressed in, each an affine map to and from
    kelvin. `TemperatureUnit.kt` is not part of this model: the maps are the standard
    definitions of the five scales, the ones the water fixed points in the temperature
    tests hold for. */
module TemperatureUnits {
  import opened Numeric

  datatype TemperatureUnit = KELVIN | CELSIUS | FAHRENHEIT | RANKINE | REAUMUR

  /** An amount of `u` in kelvin. */
  function ToKelvin(u: TemperatureUnit, x: real): real {
    match u
    case KELVIN => x
    case CELSIUS => x + 273.15
    case FAHRENHEIT => (x + 459.67) * 5.0 / 9.0
    case RANKINE => x * 5.0 / 9.0
    case REAUMUR => x * 5.0 / 4.0 + 273.15
  }

  /** An amount of kelvin in `u`. */
  function FromKelvin(u: TemperatureUnit, k: real): real {
    match u
    case KELVIN => k
    case CELSIUS => k - 273.15
    case FAHRENHEIT => k * 9.0 / 5.0 - 459.67
    case RANKINE => k * 9.0 / 5.0
    case REAUMUR => (k - 273.15) * 4.0 / 5.0
  }

  /** Every unit's pair inverts exactly in both directions. */
  lemma RoundTrip(u: TemperatureUnit, x: real, k: real)
    ensures FromKelvin(u, ToKelvin(u, x)) == x
    ensures ToKelvin(u, FromKelvin(u, k)) == k
  {
  }

  /** Every unit's maps are strictly increasing, so converting keeps the order of
      temperatures. */
  lemma ConversionsAreMonotone(u: TemperatureUnit, a: real, b: real)
    requires a < b
    ensures ToKelvin(u, a) < ToKelvin(u, b)
    ensures FromKelvin(u, a) < FromKelvin(u, b)
  {
  }

  /** Water freezes at 273.15 K, 0 °C, 32 °F, 491.67 °R and 0 °Ré. */
  function FreezingPoint(u: TemperatureUnit): real {
    match u
    case KELVIN => 273.15
    case CELSIUS => 0.0
    case FAHRENHEIT => 32.0
    case RANKINE => 491.67
    case REAUMUR => 0.0
  }

  /** Water boils at 373.15 K, 100 °C, 212 °F, 671.67 °R and 80 °Ré. */
  function BoilingPoint(u: TemperatureUnit): real {
    match u
    case KELVIN => 373.15
    case CELSIUS => 100.0
    case FAHRENHEIT => 212.0
    case RANKINE => 671.67
    case REAUMUR => 80.0
  }

  /** The five readings of each fixed point name the same number of kelvin. */
  lemma FixedPointsInKelvin(u: TemperatureUnit)
    ensures ToKelvin(u, FreezingPoint(u)) == 273.15
    ensures ToKelvin(u, BoilingPoint(u)) == 373.15
    ensures FromKelvin(u, 273.15) == FreezingPoint(u)
    ensures FromKelvin(u, 373.15) == BoilingPoint(u)
  {
  }
}
