/** The units a capacity can be expressed in, with the number of bytes each stands for
    (`CapacityUnit.byteFactor`). `CapacityUnit.kt` is not part of this model: the table
    is reconstructed from the unit names `Capacity` uses, with the same binary (1024^n)
    and metric (1000^n) factors the bitrate units list. Every factor fits in a `Long`,
    which is what lets a capacity span about 8 exbibytes either side of zero. */
module CapacityUnits {
  import opened Numeric

  datatype CapacityUnit =
    | BYTE
    | KIBIBYTE | MEBIBYTE | GIBIBYTE | TEBIBYTE | PEBIBYTE | EXBIBYTE
    | KILOBYTE | MEGABYTE | GIGABYTE | TERABYTE | PETABYTE | EXABYTE

  /** The bytes in one `u`. */
  function ByteFactor(u: CapacityUnit): (f: int)
    ensures 0 < f <= LONG_MAX
  {
    match u
    case BYTE => 1
    case KIBIBYTE => 1024
    case MEBIBYTE => 1048576
    case GIBIBYTE => 1073741824
    case TEBIBYTE => 1_099_511_627_776
    case PEBIBYTE => 1_125_899_906_842_624
    case EXBIBYTE => 1_152_921_504_606_846_976
    case KILOBYTE => 1_000
    case MEGABYTE => 1_000_000
    case GIGABYTE => 1_000_000_000
    case TERABYTE => 1_000_000_000_000
    case PETABYTE => 1_000_000_000_000_000
    case EXABYTE => 1_000_000_000_000_000_000
  }

  predicate IsBinary(u: CapacityUnit) {
    u in {KIBIBYTE, MEBIBYTE, GIBIBYTE, TEBIBYTE, PEBIBYTE, EXBIBYTE}
  }

  /** The position of a unit within its family: 0 for `BYTE`, 1 for kibi- and kilo-,
      up to 6 for exbi- and exa-. */
  function Rank(u: CapacityUnit): (k: nat)
    ensures k <= 6
    ensures k == 0 <==> u == BYTE
  {
    match u
    case BYTE => 0
    case KIBIBYTE => 1
    case MEBIBYTE => 2
    case GIBIBYTE => 3
    case TEBIBYTE => 4
    case PEBIBYTE => 5
    case EXBIBYTE => 6
    case KILOBYTE => 1
    case MEGABYTE => 2
    case GIGABYTE => 3
    case TERABYTE => 4
    case PETABYTE => 5
    case EXABYTE => 6
  }

  /** The binary unit of rank `k`. */
  function BinaryUnit(k: nat): (u: CapacityUnit)
    requires 1 <= k <= 6
    ensures IsBinary(u) && Rank(u) == k
  {
    [KIBIBYTE, MEBIBYTE, GIBIBYTE, TEBIBYTE, PEBIBYTE, EXBIBYTE][k - 1]
  }

  /** The metric unit of rank `k`. */
  function MetricUnit(k: nat): (u: CapacityUnit)
    requires 1 <= k <= 6
    ensures !IsBinary(u) && u != BYTE && Rank(u) == k
  {
    [KILOBYTE, MEGABYTE, GIGABYTE, TERABYTE, PETABYTE, EXABYTE][k - 1]
  }

  /** Every factor is a power of its family's base: 1024^rank for binary units,
      1000^rank for metric units, and 1 (either base to the 0) for `BYTE`. */
  lemma FactorIsPower(u: CapacityUnit)
    ensures ByteFactor(u) == Pow(if IsBinary(u) then 1024 else 1000, Rank(u))
  {
    match u
    case BYTE =>
    case KIBIBYTE => assert Pow(1024, 1) == 1024;
    case MEBIBYTE => assert Pow(1024, 2) == 1048576;
    case GIBIBYTE => assert Pow(1024, 3) == 1073741824;
    case TEBIBYTE => assert Pow(1024, 4) == 1_099_511_627_776;
    case PEBIBYTE => assert Pow(1024, 5) == 1_125_899_906_842_624;
    case EXBIBYTE => assert Pow(1024, 6) == 1_152_921_504_606_846_976;
    case KILOBYTE => assert Pow(1000, 1) == 1_000;
    case MEGABYTE => assert Pow(1000, 2) == 1_000_000;
    case GIGABYTE => assert Pow(1000, 3) == 1_000_000_000;
    case TERABYTE => assert Pow(1000, 4) == 1_000_000_000_000;
    case PETABYTE => assert Pow(1000, 5) == 1_000_000_000_000_000;
    case EXABYTE => assert Pow(1000, 6) == 1_000_000_000_000_000_000;
  }

  /** `BYTE` is the identity unit. */
  lemma ByteHasFactorOne()
    ensures ByteFactor(BYTE) == 1 && Rank(BYTE) == 0
  {
  }

  /** Within a family, each unit is exactly 1024 (binary) or 1000 (metric) times the one
      below it, so factors strictly increase with rank. */
  lemma ConsecutiveRatio(k: nat)
    requires 1 <= k < 6
    ensures ByteFactor(BinaryUnit(k + 1)) == 1024 * ByteFactor(BinaryUnit(k))
    ensures ByteFactor(MetricUnit(k + 1)) == 1000 * ByteFactor(MetricUnit(k))
    ensures ByteFactor(BinaryUnit(k)) < ByteFactor(BinaryUnit(k + 1))
    ensures ByteFactor(MetricUnit(k)) < ByteFactor(MetricUnit(k + 1))
  {
    FactorIsPower(BinaryUnit(k));
    FactorIsPower(BinaryUnit(k + 1));
    FactorIsPower(MetricUnit(k));
    FactorIsPower(MetricUnit(k + 1));
  }

  /** A binary unit is never smaller than the metric unit of the same rank
      (a tebibyte is at least a terabyte). */
  lemma BinaryAtLeastMetric(k: nat)
    requires 1 <= k <= 6
    ensures ByteFactor(BinaryUnit(k)) >= ByteFactor(MetricUnit(k))
  {
    FactorIsPower(BinaryUnit(k));
    FactorIsPower(MetricUnit(k));
    PowBaseMonotone(1000, 1024, k);
  }
}
