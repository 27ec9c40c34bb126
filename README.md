# kotlin-datatypes: unit-of-measure value types in Dafny

This project models the core of the `kotlin-datatypes` library: four immutable
unit-of-measure value types. Each stores one scalar in a base unit. Each compares,
adds and subtracts on that scalar. Each converts the scalar to and from a family of
named units.

- `Bitrate` (module `Bitrates`) stores a signed 64-bit count of bits per second.
  `BitrateUnit` (module `BitrateUnits`) gives each unit its `bitFactor`: 1 for `BITS`,
  1024^1..1024^6 for `KIBIBITS`..`EXBIBITS`, 1000^1..1000^6 for `KILOBITS`..`EXABITS`.
- `Capacity` (module `Capacities`) has the same shape over bytes, plus `inWholeBytes`.
  Its unit table (module `CapacityUnits`) is reconstructed, not taken from source:
  `CapacityUnit.kt` is not part of this model. It uses the same binary and metric
  factors as the bitrate table, under the unit names `Capacity.kt` uses.
- `Length` (module `Lengths`) stores metres as an exact decimal. `LengthUnit` (module
  `LengthUnits`) gives each unit its `toMeter` and `fromMeter` lambdas, written exactly
  as the enum states them.
- `Temperature` (module `Temperatures`) stores kelvin as an exact decimal.
  `TemperatureUnit.kt` is not part of this model. Module `TemperatureUnits` uses the
  standard affine scales instead: K = °C + 273.15, K = (°F + 459.67)·5/9, K = °R·5/9 and
  K = °Ré·5/4 + 273.15. These are the scales the water fixed points in the temperature
  tests hold for.

Module `Numeric` holds the Kotlin arithmetic the four types share:

- `Long` is the integers in the 64-bit range.
- `Wrap64` is the JVM's two's-complement wrap-around, used by `plus`, `minus` and the
  integer constructors.
- `TruncDiv` is `Long /`, which rounds toward zero. Dafny's own `/` is Euclidean.
- `RoundToLong` is `roundToLong` over exact reals: `floor(x + 1/2)`, so ties go toward
  positive infinity, saturated at the ends of the `Long` range.
- `Trunc` is `longValue(exactRequired = false)` over exact decimals: rounding toward
  zero.
- `Number` collapses Kotlin's numeric source types into two cases. `Integral` stands for
  `Byte`, `Short`, `Int` and `Long`, which are multiplied or converted exactly.
  `Floating` stands for `Float`, `Double` and the best-effort `else` branch, taken as
  exact reals.

Overflow is modelled, not excluded. `plus`, `minus` and the integer constructors wrap
modulo 2^64, as the source's "does not handle integer overflow" comments say. Every
operation is total; no operation has a precondition. Each unit accessor (`n.kibibits`,
`n.terabytes`, `n.inches`, `n.celsius`, and so on) is the constructor applied to that
unit, e.g. `ToBitrate(n, KIBIBITS)`.

Where the description of the library and the code differ, the model follows the code:

- `roundToLong` breaks ties toward positive infinity, not away from zero.
- `toWholeUnits` on `Long` values truncates toward zero. Its doc comment says "rounding
  down", which differs for negative values.
- `LengthUnit.toMeter` for THOU and INCH through FATHOM is modelled as written. See
  "## Findings".

## Model

| member | source | states |
|---|---|---|
| Numeric.Wrap64 | bitrate/src/commonMain/kotlin/com/boswelja/bitrate/Bitrate.kt:26-35 | the 64-bit result of a `Long` operation is a `Long`, equal to the exact result whenever that fits |
| Numeric.Wrap64OneStep | bitrate/src/commonMain/kotlin/com/boswelja/bitrate/Bitrate.kt:26-35 | a sum or difference of two `Long`s that overflows is off by exactly one 2^64, down when above the range and up when below |
| Numeric.Wrap64AddAssociative | bitrate/src/commonMain/kotlin/com/boswelja/bitrate/Bitrate.kt:26-28 | wrapping an intermediate sum never changes the wrapped total |
| Numeric.Wrap64AddThenSubtract | bitrate/src/commonMain/kotlin/com/boswelja/bitrate/Bitrate.kt:26-35 | wrapped subtraction undoes wrapped addition for every pair of values |
| Numeric.TruncDiv | bitrate/src/commonMain/kotlin/com/boswelja/bitrate/Bitrate.kt:64-66 | `Long /`: the remainder is smaller in magnitude than the divisor and has the dividend's sign, and the quotient is no larger in magnitude than the dividend |
| Numeric.TruncDivIsTruncOfQuotient | capacity/src/commonMain/kotlin/com/boswelja/capacity/Capacity.kt:71-73 | integer division by a positive factor equals the exact quotient truncated toward zero |
| Numeric.Trunc | length/src/commonMain/kotlin/com/boswelja/length/Length.kt:47-49 | the integer part: no larger in magnitude than the value, less than one below it in magnitude, and of the value's sign |
| Numeric.RoundToLong | bitrate/src/commonMain/kotlin/com/boswelja/bitrate/Bitrate.kt:71-73 | `roundToLong`: within a half of the value when that is in range, `Long.MIN_VALUE` below it, `Long.MAX_VALUE` above it |
| Numeric.NearestIsTruncOrNext | bitrate/src/commonMain/kotlin/com/boswelja/bitrate/Bitrate.kt:64-73 | a nearest integer is the truncation or one step further from zero, never nearer zero |
| Numeric.ScaleThenDivide | bitrate/src/commonMain/kotlin/com/boswelja/bitrate/Bitrate.kt:83-87 | a scaled whole number that fits in a `Long` divides back to itself, by truncating and by exact division |
| Numeric.QuotientsKeepOrder | bitrate/src/commonMain/kotlin/com/boswelja/bitrate/Bitrate.kt:57-59 | dividing by a positive factor keeps strict order |
| Numeric.CompareReal | bitrate/src/commonMain/kotlin/com/boswelja/bitrate/Bitrate.kt:19-21 | `compareTo`'s sign is negative, zero or positive exactly when the first value is less than, equal to or greater than the second |
| BitrateUnits.BitFactor | bitrate/src/commonMain/kotlin/com/boswelja/bitrate/BitrateUnit.kt:7-24 | every factor is positive and fits in a `Long` |
| BitrateUnits.FactorIsPower | bitrate/src/commonMain/kotlin/com/boswelja/bitrate/BitrateUnit.kt:8-24 | the factor of a unit of rank k is 1024^k for a binary unit and 1000^k for a metric one |
| BitrateUnits.BitsHasFactorOne | bitrate/src/commonMain/kotlin/com/boswelja/bitrate/BitrateUnit.kt:8 | `BITS` has factor 1 and rank 0 |
| BitrateUnits.ConsecutiveRatio | bitrate/src/commonMain/kotlin/com/boswelja/bitrate/BitrateUnit.kt:11-24 | within a family each factor is exactly 1024 or 1000 times the previous one, so factors strictly increase |
| BitrateUnits.BinaryAtLeastMetric | bitrate/src/commonMain/kotlin/com/boswelja/bitrate/BitrateUnit.kt:11-24 | a binary unit's factor is at least the metric factor of the same rank |
| Bitrates.CompareTo | bitrate/src/commonMain/kotlin/com/boswelja/bitrate/Bitrate.kt:19-21 | the comparison's sign follows the raw values, and it is zero exactly for equal bitrates |
| Bitrates.Plus | bitrate/src/commonMain/kotlin/com/boswelja/bitrate/Bitrate.kt:23-28 | the raw sum when it fits, otherwise the sum shifted by one 2^64 back into range |
| Bitrates.Minus | bitrate/src/commonMain/kotlin/com/boswelja/bitrate/Bitrate.kt:30-35 | the raw difference when it fits, otherwise the difference shifted by one 2^64 back into range |
| Bitrates.ToFractionalUnits | bitrate/src/commonMain/kotlin/com/boswelja/bitrate/Bitrate.kt:57-59 | the value times the unit's factor is the raw count, and its magnitude never exceeds the raw count's |
| Bitrates.ToDouble | bitrate/src/commonMain/kotlin/com/boswelja/bitrate/Bitrate.kt:41-44 | the deprecated conversion equals `toFractionalUnits` |
| Bitrates.ToWholeUnits | bitrate/src/commonMain/kotlin/com/boswelja/bitrate/Bitrate.kt:64-66 | the remainder after taking that many units is smaller than one unit and has the raw count's sign |
| Bitrates.RoundToWholeUnits | bitrate/src/commonMain/kotlin/com/boswelja/bitrate/Bitrate.kt:71-73 | the result is within half a unit of the exact value |
| Bitrates.ToLong | bitrate/src/commonMain/kotlin/com/boswelja/bitrate/Bitrate.kt:49-52 | the deprecated conversion is within half a unit of the exact value |
| Bitrates.ToBitrate | bitrate/src/commonMain/kotlin/com/boswelja/bitrate/Bitrate.kt:81-94 | an integer source gives `n * factor` modulo 2^64, exactly when that fits; a fractional source gives the nearest `Long` to `x * factor` when that is in range |
| Bitrates.CompareToIsTotalOrder | bitrate/src/commonMain/kotlin/com/boswelja/bitrate/Bitrate.kt:19-21 | `compareTo` is reflexive, antisymmetric and transitive, and zero exactly for equal raw values |
| Bitrates.PlusMinusCancel | bitrate/src/commonMain/kotlin/com/boswelja/bitrate/Bitrate.kt:26-35 | `(a + b) - b == a` for every pair, overflow included |
| Bitrates.PlusIsCommutativeGroup | bitrate/src/commonMain/kotlin/com/boswelja/bitrate/Bitrate.kt:26-35 | `plus` is commutative with zero as identity, and `a - a` is zero |
| Bitrates.PlusIsAssociative | bitrate/src/commonMain/kotlin/com/boswelja/bitrate/Bitrate.kt:26-28 | `plus` is associative, overflow included |
| Bitrates.WholeUnitsTruncateFractional | bitrate/src/commonMain/kotlin/com/boswelja/bitrate/Bitrate.kt:57-66 | `toWholeUnits` is `toFractionalUnits` truncated toward zero |
| Bitrates.RoundedIsWholeOrNext | bitrate/src/commonMain/kotlin/com/boswelja/bitrate/Bitrate.kt:64-73 | `roundToWholeUnits` is `toWholeUnits` or one step further from zero |
| Bitrates.DeprecatedAliasesAgree | bitrate/src/commonMain/kotlin/com/boswelja/bitrate/Bitrate.kt:41-52 | `toDouble` equals `toFractionalUnits` and `toLong` equals `roundToWholeUnits` |
| Bitrates.ConversionsPreserveOrder | bitrate/src/commonMain/kotlin/com/boswelja/bitrate/Bitrate.kt:57-66 | a smaller bitrate has a strictly smaller fractional value and no larger whole value in every unit |
| Bitrates.WholeRoundTrip | bitrate/src/commonMain/kotlin/com/boswelja/bitrate/Bitrate.kt:83-87 | an integer `n` whose scaled value fits reads back as `n` from `toWholeUnits` and `toFractionalUnits` |
| Bitrates.BitsIsIdentity | bitrate/src/commonMain/kotlin/com/boswelja/bitrate/Bitrate.kt:97 | `n.bits` stores `n`, and reading in `BITS` gives the raw value |
| Bitrates.Instantiation | bitrate/src/commonTest/kotlin/com/boswelja/bitrate/BitrateTest.kt:66-88 | zero in any unit and source type is `Bitrate(0)`, and `Long.MAX_VALUE.bits` and `Long.MIN_VALUE.bits` are exact |
| Bitrates.WholeUnitsTruncate | bitrate/src/commonTest/kotlin/com/boswelja/bitrate/BitrateTest.kt:42-64 | 1.01 to 1.9 terabits are 1 whole terabit, and 1.5 terabits is 1 whole tebibit |
| Bitrates.WholeUnitsRound | bitrate/src/commonTest/kotlin/com/boswelja/bitrate/BitrateTest.kt:14-40 | 1.01 and 1.49 terabits round to 1, 1.51 and 1.9 terabits to 2, and 1.5 terabits to 1 tebibit |
| Bitrates.ComparisonsAcrossUnits | bitrate/src/commonTest/kotlin/com/boswelja/bitrate/BitrateTest.kt:90-108 | 1500 gigabits equals 1.5 terabits, and 1 gigabit is less than 1.5 terabits |
| CapacityUnits.ByteFactor | capacity/src/commonMain/kotlin/com/boswelja/capacity/Capacity.kt:9 | every factor is positive and fits in a `Long` |
| CapacityUnits.FactorIsPower | capacity/src/commonMain/kotlin/com/boswelja/capacity/Capacity.kt:103-140 | the factor of a unit of rank k is 1024^k for a binary unit and 1000^k for a metric one |
| CapacityUnits.ByteHasFactorOne | capacity/src/commonMain/kotlin/com/boswelja/capacity/Capacity.kt:103-104 | `BYTE` has factor 1 and rank 0 |
| CapacityUnits.ConsecutiveRatio | capacity/src/commonMain/kotlin/com/boswelja/capacity/Capacity.kt:106-140 | within a family each factor is exactly 1024 or 1000 times the previous one, so factors strictly increase |
| CapacityUnits.BinaryAtLeastMetric | capacity/src/commonMain/kotlin/com/boswelja/capacity/Capacity.kt:106-140 | a binary unit's factor is at least the metric factor of the same rank |
| Capacities.InWholeBytes | capacity/src/commonMain/kotlin/com/boswelja/capacity/Capacity.kt:20-24 | building a capacity from its `inWholeBytes` count in bytes gives the same capacity |
| Capacities.CompareTo | capacity/src/commonMain/kotlin/com/boswelja/capacity/Capacity.kt:26-28 | the comparison's sign follows the raw values, and it is zero exactly for equal capacities |
| Capacities.Plus | capacity/src/commonMain/kotlin/com/boswelja/capacity/Capacity.kt:30-35 | the raw sum when it fits, otherwise the sum shifted by one 2^64 back into range |
| Capacities.Minus | capacity/src/commonMain/kotlin/com/boswelja/capacity/Capacity.kt:37-42 | the raw difference when it fits, otherwise the difference shifted by one 2^64 back into range |
| Capacities.ToFractionalUnits | capacity/src/commonMain/kotlin/com/boswelja/capacity/Capacity.kt:64-66 | the value times the unit's factor is the raw count, and its magnitude never exceeds the raw count's |
| Capacities.ToDouble | capacity/src/commonMain/kotlin/com/boswelja/capacity/Capacity.kt:48-51 | the deprecated conversion equals `toFractionalUnits` |
| Capacities.ToWholeUnits | capacity/src/commonMain/kotlin/com/boswelja/capacity/Capacity.kt:71-73 | the remainder after taking that many units is smaller than one unit and has the raw count's sign |
| Capacities.RoundToWholeUnits | capacity/src/commonMain/kotlin/com/boswelja/capacity/Capacity.kt:78-80 | the result is within half a unit of the exact value |
| Capacities.ToLong | capacity/src/commonMain/kotlin/com/boswelja/capacity/Capacity.kt:56-59 | the deprecated conversion is within half a unit of the exact value |
| Capacities.ToCapacity | capacity/src/commonMain/kotlin/com/boswelja/capacity/Capacity.kt:88-101 | an integer source gives `n * factor` modulo 2^64, exactly when that fits; a fractional source gives the nearest `Long` to `x * factor` when that is in range |
| Capacities.CompareToIsTotalOrder | capacity/src/commonMain/kotlin/com/boswelja/capacity/Capacity.kt:26-28 | `compareTo` is reflexive, antisymmetric and transitive, and zero exactly for equal raw values |
| Capacities.PlusMinusCancel | capacity/src/commonMain/kotlin/com/boswelja/capacity/Capacity.kt:30-42 | `(a + b) - b == a` for every pair, overflow included |
| Capacities.PlusIsCommutativeGroup | capacity/src/commonMain/kotlin/com/boswelja/capacity/Capacity.kt:30-42 | `plus` is commutative with zero as identity, and `a - a` is zero |
| Capacities.PlusIsAssociative | capacity/src/commonMain/kotlin/com/boswelja/capacity/Capacity.kt:33-35 | `plus` is associative, overflow included |
| Capacities.WholeUnitsTruncateFractional | capacity/src/commonMain/kotlin/com/boswelja/capacity/Capacity.kt:64-73 | `toWholeUnits` is `toFractionalUnits` truncated toward zero |
| Capacities.RoundedIsWholeOrNext | capacity/src/commonMain/kotlin/com/boswelja/capacity/Capacity.kt:71-80 | `roundToWholeUnits` is `toWholeUnits` or one step further from zero |
| Capacities.DeprecatedAliasesAgree | capacity/src/commonMain/kotlin/com/boswelja/capacity/Capacity.kt:48-59 | `toDouble` equals `toFractionalUnits` and `toLong` equals `roundToWholeUnits` |
| Capacities.ConversionsPreserveOrder | capacity/src/commonMain/kotlin/com/boswelja/capacity/Capacity.kt:64-73 | a smaller capacity has a strictly smaller fractional value and no larger whole value in every unit |
| Capacities.WholeRoundTrip | capacity/src/commonMain/kotlin/com/boswelja/capacity/Capacity.kt:90-95 | an integer `n` whose scaled value fits reads back as `n` from `toWholeUnits` and `toFractionalUnits` |
| Capacities.BytesIsIdentity | capacity/src/commonMain/kotlin/com/boswelja/capacity/Capacity.kt:23-24 | `n.bytes` stores `n`, `n.bytes.inWholeBytes == n`, and reading in `BYTE` gives the raw value |
| Capacities.Instantiation | capacity/src/commonTest/kotlin/com/boswelja/capacity/CapacityTest.kt:65-87 | zero in any unit and source type is `Capacity(0)`, and `Long.MAX_VALUE.bytes` and `Long.MIN_VALUE.bytes` are exact |
| Capacities.WholeUnitsTruncate | capacity/src/commonTest/kotlin/com/boswelja/capacity/CapacityTest.kt:41-63 | 1.01 to 1.9 terabytes are 1 whole terabyte, and 1.5 terabytes is 1 whole tebibyte |
| Capacities.WholeUnitsRound | capacity/src/commonTest/kotlin/com/boswelja/capacity/CapacityTest.kt:13-39 | 1.01 and 1.49 terabytes round to 1, 1.51 and 1.9 terabytes to 2, and 1.5 terabytes to 1 tebibyte |
| Capacities.ComparisonsAcrossUnits | capacity/src/commonTest/kotlin/com/boswelja/capacity/CapacityTest.kt:89-107 | 1500 gigabytes equals 1.5 terabytes, and 1 gigabyte is less than 1.5 terabytes |
| LengthUnits.ConversionsAreScalings | length/src/commonMain/kotlin/com/boswelja/length/LengthUnit.kt:11-89 | every `toMeter` and `fromMeter` multiplies by a positive constant |
| LengthUnits.ConversionsAreAdditiveAndMonotone | length/src/commonMain/kotlin/com/boswelja/length/LengthUnit.kt:11-89 | every `toMeter` and `fromMeter` is additive and strictly increasing |
| LengthUnits.ExactPairsRoundTrip | length/src/commonMain/kotlin/com/boswelja/length/LengthUnit.kt:11-44 | METER, KILOMETER, CENTIMETER, MILLIMETER and THOU convert to metres and back exactly, in both directions |
| LengthUnits.ImperialPairsDoNotRoundTrip | length/src/commonMain/kotlin/com/boswelja/length/LengthUnit.kt:45-89 | for INCH through FATHOM, converting any non-zero amount to metres and back never gives the amount again |
| LengthUnits.ToMeterInvertsImperialScale | length/src/commonMain/kotlin/com/boswelja/length/LengthUnit.kt:37-57 | as written, one inch is more than 39 metres and reads back as 1550 inches, 12 inches are not a foot, and a thou is 1/25.4 metre |
| LengthUnits.IntendedUnitsAgree | length/src/commonMain/kotlin/com/boswelja/length/LengthUnit.kt:37-89 | with the corrected `toMeter`, an inch is 0.0254 m, 1000 thou make an inch, 12 inches a foot, 3 feet a yard and 2 yards a fathom |
| LengthUnits.IntendedRoundTrip | length/src/commonMain/kotlin/com/boswelja/length/LengthUnit.kt:11-89 | with the corrected `toMeter`, metric units and THOU round-trip exactly and the others within a relative error of 10^-5 |
| Lengths.CompareTo | length/src/commonMain/kotlin/com/boswelja/length/Length.kt:19-21 | the comparison's sign follows the metre values, and it is zero exactly for equal lengths |
| Lengths.Plus | length/src/commonMain/kotlin/com/boswelja/length/Length.kt:23-28 | subtracting the second length's metres from the result gives the first's |
| Lengths.Minus | length/src/commonMain/kotlin/com/boswelja/length/Length.kt:30-35 | adding the second length's metres to the result gives the first's |
| Lengths.ToFractionalUnits | length/src/commonMain/kotlin/com/boswelja/length/Length.kt:40-42 | the value has the length's sign, and for exactly invertible units it converts back to the stored metres |
| Lengths.ToWholeUnits | length/src/commonMain/kotlin/com/boswelja/length/Length.kt:47-49 | the integer part of `fromMeter(meters)`: never larger in magnitude, less than one below it, same sign |
| Lengths.RoundToWholeUnits | length/src/commonMain/kotlin/com/boswelja/length/Length.kt:54-56 | within half a unit of the fractional value whenever no saturation occurs |
| Lengths.ToLength | length/src/commonMain/kotlin/com/boswelja/length/Length.kt:66-79 | the stored metres have the number's sign, and for exactly invertible units they convert back to the number |
| Lengths.CompareToIsTotalOrder | length/src/commonMain/kotlin/com/boswelja/length/Length.kt:19-21 | `compareTo` is reflexive, antisymmetric and transitive |
| Lengths.PlusIsCommutativeGroup | length/src/commonMain/kotlin/com/boswelja/length/Length.kt:26-35 | `plus` is commutative and associative with zero as identity, and `(a + b) - b == a` |
| Lengths.ConversionsPreserveOrder | length/src/commonMain/kotlin/com/boswelja/length/Length.kt:40-49 | a shorter length has a strictly smaller fractional value and no larger whole value in every unit |
| Lengths.RoundedIsWholeOrNext | length/src/commonMain/kotlin/com/boswelja/length/Length.kt:47-56 | unless it saturates, `roundToWholeUnits` is `toWholeUnits` or one step further from zero |
| Lengths.WholeRoundTrip | length/src/commonMain/kotlin/com/boswelja/length/Length.kt:40-79 | for METER, KILOMETER, CENTIMETER, MILLIMETER and THOU, an integer converted in reads back unchanged from all three conversions |
| Lengths.InchDoesNotRoundTrip | length/src/commonMain/kotlin/com/boswelja/length/Length.kt:47-49 | as written, `1.inches.toWholeUnits(INCH)` is 1550 and `1.inches` is more than 39 metres |
| Lengths.IntendedThouAndInch | length/src/commonMain/kotlin/com/boswelja/length/Length.kt:94-97 | with the corrected `toMeter`, whole thou read back unchanged and one inch is 0.0254 metres |
| Lengths.MetricUnitsAgree | length/src/commonMain/kotlin/com/boswelja/length/Length.kt:82-91 | `1000.millimeters`, `100.centimeters` and `1.meters` are the same length, and `1.kilometers` is `1000.meters` |
| TemperatureUnits.RoundTrip | temperature/src/commonMain/kotlin/com/boswelja/temperature/Temperature.kt:58-60 | every unit's `toKelvin` and `fromKelvin` invert each other exactly |
| TemperatureUnits.ConversionsAreMonotone | temperature/src/commonMain/kotlin/com/boswelja/temperature/Temperature.kt:58-67 | every unit's `toKelvin` and `fromKelvin` are strictly increasing |
| TemperatureUnits.FixedPointsInKelvin | temperature/src/commonTest/kotlin/com/boswelja/temperature/TemperatureTest.kt:20-34 | each unit's readings of water's freezing and boiling points are 273.15 K and 373.15 K |
| Temperatures.CompareTo | temperature/src/commonMain/kotlin/com/boswelja/temperature/Temperature.kt:20-22 | the comparison's sign follows the kelvin values, and it is zero exactly for equal temperatures |
| Temperatures.Plus | temperature/src/commonMain/kotlin/com/boswelja/temperature/Temperature.kt:24-29 | subtracting the second temperature's kelvin from the result gives the first's |
| Temperatures.Minus | temperature/src/commonMain/kotlin/com/boswelja/temperature/Temperature.kt:31-36 | adding the second temperature's kelvin to the result gives the first's |
| Temperatures.ToFractionalUnits | temperature/src/commonMain/kotlin/com/boswelja/temperature/Temperature.kt:58-60 | converting the value back to kelvin gives the stored kelvin |
| Temperatures.ToDouble | temperature/src/commonMain/kotlin/com/boswelja/temperature/Temperature.kt:42-45 | the deprecated conversion equals `toFractionalUnits` |
| Temperatures.ToWholeUnits | temperature/src/commonMain/kotlin/com/boswelja/temperature/Temperature.kt:65-67 | the integer part of the value in the unit: never larger in magnitude, less than one below it, same sign |
| Temperatures.RoundToWholeUnits | temperature/src/commonMain/kotlin/com/boswelja/temperature/Temperature.kt:72-74 | within half a unit of the fractional value whenever no saturation occurs |
| Temperatures.ToLong | temperature/src/commonMain/kotlin/com/boswelja/temperature/Temperature.kt:50-53 | the deprecated conversion is within half a unit of the fractional value whenever no saturation occurs |
| Temperatures.ToTemperature | temperature/src/commonMain/kotlin/com/boswelja/temperature/Temperature.kt:82-95 | reading the stored kelvin back in the same unit gives the number |
| Temperatures.CompareToIsTotalOrder | temperature/src/commonMain/kotlin/com/boswelja/temperature/Temperature.kt:20-22 | `compareTo` is reflexive, antisymmetric and transitive |
| Temperatures.PlusMinusCancel | temperature/src/commonMain/kotlin/com/boswelja/temperature/Temperature.kt:27-36 | `(a + b) - b == a`, zero kelvin is the identity, and `a - a` is zero |
| Temperatures.DeprecatedAliasesAgree | temperature/src/commonMain/kotlin/com/boswelja/temperature/Temperature.kt:42-74 | `toDouble` equals `toFractionalUnits` and `toLong` equals `roundToWholeUnits` |
| Temperatures.ConversionsPreserveOrder | temperature/src/commonMain/kotlin/com/boswelja/temperature/Temperature.kt:58-67 | a colder temperature has a strictly smaller fractional value and no larger whole value in every unit |
| Temperatures.WholeRoundTrip | temperature/src/commonMain/kotlin/com/boswelja/temperature/Temperature.kt:58-95 | an integer converted in from any unit reads back unchanged from all three conversions |
| Temperatures.WaterFixedPoints | temperature/src/commonTest/kotlin/com/boswelja/temperature/TemperatureTest.kt:20-147 | water's freezing point, read in any unit, is 273.15 K and converts to each unit's listed value; the same holds for the boiling point |

## Left out

- IEEE-754 `Double` and `Float` are modelled as exact reals. The model does not capture representation error in literals such as `1.51`, rounding in `rawValue.toDouble() / factor`, or `Float` arithmetic in the `Float` branch of the constructors.
- NaN and infinities do not arise over reals, so `roundToLong`'s handling of them is not modelled. Its saturation at the ends of the `Long` range is modelled.
- The arbitrary-precision decimal library is modelled as exact reals. The model does not capture its division precision, or what it does with a quotient that does not terminate, such as `1 / 0.0254`. `doubleValue(exactRequired = false)` is modelled as the exact value.
- Lengths.ToWholeUnits: `longValue(exactRequired = false)` is modelled as truncation toward zero, with the result not reduced to 64 bits, because the library's behaviour for decimals outside the `Long` range is not part of this model.
- Temperatures.ToWholeUnits: the same truncation as `Lengths.ToWholeUnits`, with the result not reduced to 64 bits, for the same reason.
- Lengths.RoundToWholeUnits: the nearest-integer contract is stated only when `roundToLong` does not saturate. The saturated results follow `Numeric.RoundToLong`.
- Temperatures.RoundToWholeUnits: as for `Lengths.RoundToWholeUnits`.
- Temperatures.ToLong: as for `Lengths.RoundToWholeUnits`.
- `CapacityUnit.kt` is not part of this model. Its byte factors are reconstructed from the unit names in `Capacity.kt` and the bitrate table.
- `TemperatureUnit.kt` is not part of this model. Its conversions are reconstructed as the standard affine scales that fit the tests' fixed points.
- Kotlin's `Number` runtime dispatch is collapsed into the two cases of `Numeric.Number`. `Byte`, `Short`, `Int` and `Long` are whole sources. `Float`, `Double` and the best-effort `else` branch are fractional sources.
- The unit accessors (`bits`, `kibibytes`, `meters`, `celsius`, and so on) have no members of their own. Each one is the constructor applied to its unit.
- `@JvmInline` value classes and the `Comparable` interface are platform plumbing and have no behaviour to model.
- The percentage module, the Gradle build and publishing scripts are left out. They contain no runtime logic.

## Findings

| source | as written | input that shows it | evidently intended | confidence | as-written member | corrected member |
|---|---|---|---|---|---|---|
| length/src/commonMain/kotlin/com/boswelja/length/LengthUnit.kt:45-89 | `toMeter` for INCH, FOOT, YARD, MILE, LEAGUE, NAUTICAL_MILE and FATHOM divides by the unit's length in metres | `1.inches` stores 1/0.0254 ≈ 39.37 m, `toWholeUnits(INCH)` then gives 1550, and `12.inches` differs from `1.feet` | multiply by the unit's length in metres, so that 1 inch is 0.0254 m and `fromMeter` inverts `toMeter` up to its rounded factor | high, not executed | LengthUnits.ToMeterInvertsImperialScale, LengthUnits.ImperialPairsDoNotRoundTrip, Lengths.InchDoesNotRoundTrip | LengthUnits.IntendedUnitsAgree, LengthUnits.IntendedRoundTrip, Lengths.IntendedThouAndInch |
| length/src/commonMain/kotlin/com/boswelja/length/LengthUnit.kt:37-44 | THOU's `toMeter` divides by 25.4 and `fromMeter` multiplies by 25.4 | `1.thous` stores 1/25.4 ≈ 0.0394 m, over a thousand times the 0.0000254 m of a thou | a thou is a thousandth of an inch, 0.0000254 m, so `1000.thous` equals `1.inches` | high, not executed | LengthUnits.ToMeterInvertsImperialScale | LengthUnits.IntendedUnitsAgree, Lengths.IntendedThouAndInch |
