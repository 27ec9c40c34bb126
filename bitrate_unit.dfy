/** The units a bitrate can be expressed in, with the number of bits per second each
    stands for (`BitrateUnit.bitFactor`). */
module BitrateUnits {
  import opened Numeric

  datatype BitrateUnit =
    | BITS
      // Binary units
    | KIBIBITS | MEBIBITS | GIBIBITS | TEBIBITS | PEBIBITS | EXBIBITS
      // Metric units
    | KILOBITS | MEGABITS | GIGABITS | TERABITS | PETABITS | EXABITS

  /** The bits per second of one `u`, as the enum's table lists it. */
  function BitFactor(u: BitrateUnit): (f: int)
    ensures 0 < f <= LONG_MAX
  {
    match u
    case BITS => 1
    case KIBIBITS => 1024
    case MEBIBITS => 1048576
    case GIBIBITS => 1073741824
    case TEBIBITS => 1_099_511_627_776
    case PEBIBITS => 1_125_899_906_842_624
    case EXBIBITS => 1_152_921_504_606_846_976
    case KILOBITS => 1_000
    case MEGABITS => 1_000_000
    case GIGABITS => 1_000_000_000
    case TERABITS => 1_000_000_000_000
    case PETABITS => 1_000_000_000_000_000
    case EXABITS => 1_000_000_000_000_000_000
  }

  predicate IsBinary(u: BitrateUnit) {
    u in {KIBIBITS, MEBIBITS, GIBIBITS, TEBIBITS, PEBIBITS, EXBIBITS}
  }

  /** The position of a unit within its family: 0 for `BITS`, 1 for kibi- and kilo-,
      up to 6 for exbi- and exa-. */
  function Rank(u: BitrateUnit): (k: nat)
    ensures k <= 6
    ensures k == 0 <==> u == BITS
  {
    match u
    case BITS => 0
    case KIBIBITS => 1
    case MEBIBITS => 2
    case GIBIBITS => 3
    case TEBIBITS => 4
    case PEBIBITS => 5
    case EXBIBITS => 6
    case KILOBITS => 1
    case MEGABITS => 2
    case GIGABITS => 3
    case TERABITS => 4
    case PETABITS => 5
    case EXABITS => 6
  }

  /** The binary unit of rank `k`. */
  function BinaryUnit(k: nat): (u: BitrateUnit)
    requires 1 <= k <= 6
    ensures IsBinary(u) && Rank(u) == k
  {
    [KIBIBITS, MEBIBITS, GIBIBITS, TEBIBITS, PEBIBITS, EXBIBITS][k - 1]
  }

  /** The metric unit of rank `k`. */
  function MetricUnit(k: nat): (u: BitrateUnit)
    requires 1 <= k <= 6
    ensures !IsBinary(u) && u != BITS && Rank(u) == k
  {
    [KILOBITS, MEGABITS, GIGABITS, TERABITS, PETABITS, EXABITS][k - 1]
  }

  /** Every factor is a power of its family's base: 1024^rank for binary units,
      1000^rank for metric units, and 1 (either base to the 0) for `BITS`. */
  lemma FactorIsPower(u: BitrateUnit)
    ensures BitFactor(u) == Pow(if IsBinary(u) then 1024 else 1000, Rank(u))
  {
    match u
    case BITS =>
    case KIBIBITS => assert Pow(1024, 1) == 1024;
    case MEBIBITS => assert Pow(1024, 2) == 1048576;
    case GIBIBITS => assert Pow(1024, 3) == 1073741824;
    case TEBIBITS => assert Pow(1024, 4) == 1_099_511_627_776;
    case PEBIBITS => assert Pow(1024, 5) == 1_125_899_906_842_624;
    case EXBIBITS => assert Pow(1024, 6) == 1_152_921_504_606_846_976;
    case KILOBITS => assert Pow(1000, 1) == 1_000;
    case MEGABITS => assert Pow(1000, 2) == 1_000_000;
    case GIGABITS => assert Pow(1000, 3) == 1_000_000_000;
    case TERABITS => assert Pow(1000, 4) == 1_000_000_000_000;
    case PETABITS => assert Pow(1000, 5) == 1_000_000_000_000_000;
    case EXABITS => assert Pow(1000, 6) == 1_000_000_000_000_000_000;
  }

  /** `BITS` is the identity unit. */
  lemma BitsHasFactorOne()
    ensures BitFactor(BITS) == 1 && Rank(BITS) == 0
  {
  }

  /** Within a family, each unit is exactly 1024 (binary) or 1000 (metric) times the one
      below it, so factors strictly increase with rank. */
  lemma ConsecutiveRatio(k: nat)
    requires 1 <= k < 6
    ensures BitFactor(BinaryUnit(k + 1)) == 1024 * BitFactor(BinaryUnit(k))
    ensures BitFactor(MetricUnit(k + 1)) == 1000 * BitFactor(MetricUnit(k))
    ensures BitFactor(BinaryUnit(k)) < BitFactor(BinaryUnit(k + 1))
    ensures BitFactor(MetricUnit(k)) < BitFactor(MetricUnit(k + 1))
  {
    FactorIsPower(BinaryUnit(k));
    FactorIsPower(BinaryUnit(k + 1));
    FactorIsPower(MetricUnit(k));
    FactorIsPower(MetricUnit(k + 1));
  }

  /** A binary unit is never smaller than the metric unit of the same rank
      (a tebibit is at least a terabit). */
  lemma BinaryAtLeastMetric(k: nat)
    requires 1 <= k <= 6
    ensures BitFactor(BinaryUnit(k)) >= BitFactor(MetricUnit(k))
  {
    FactorIsPower(BinaryUnit(k));
    FactorIsPower(MetricUnit(k));
    PowBaseMonotone(1000, 1024, k);
  }
}
