/**
 * The byte-count helpers of the system-information page: sizes reported by
 * the frontend in bytes are shown in kibi-, mebi- and gibibytes, all as
 * unsigned 64-bit integers divided with truncation.
 */
module MenuUnits {

  /** The source's `uint64_t`. */
  newtype uint64 = x: int | 0 <= x < 0x1_0000_0000_0000_0000

  const KiB: nat := 1024
  const MiB: nat := 1024 * 1024
  const GiB: nat := 1024 * 1024 * 1024

  /** `bytes_to_kb`: the number of whole kibibytes in `bytes`. */
  function BytesToKb(bytes: uint64): (r: uint64)
    ensures r as int * KiB <= bytes as int < (r as int + 1) * KiB
  {
    bytes / 1024
  }

  /** `bytes_to_mb`: divides by 1024 twice, giving the number of whole mebibytes. */
  function BytesToMb(bytes: uint64): (r: uint64)
    ensures r as int * MiB <= bytes as int < (r as int + 1) * MiB
  {
    bytes / 1024 / 1024
  }

  /**
   * `bytes_to_gb`: the kibibyte count divided by 1024 twice, giving the
   * number of whole gibibytes.
   */
  function BytesToGb(bytes: uint64): (r: uint64)
    ensures r as int * GiB <= bytes as int < (r as int + 1) * GiB
  {
    BytesToKb(bytes) / 1024 / 1024
  }

  /** The bounds above pin the quotient down: there is one whole number of units in a size. */
  lemma {:induction false} FloorUnique(x: int, d: int, q: int, q': int)
    requires d > 0
    requires q * d <= x < (q + 1) * d
    requires q' * d <= x < (q' + 1) * d
    ensures q == q'
  {
    if q < q' {
      assert (q + 1) * d <= q' * d by { MulMonotone(q + 1, q', d); }
    } else if q' < q {
      assert (q' + 1) * d <= q * d by { MulMonotone(q' + 1, q, d); }
    }
  }

  lemma {:induction false} MulMonotone(a: int, b: int, d: int)
    requires a <= b && d > 0
    ensures a * d <= b * d
  {
    assert b * d - a * d == (b - a) * d;
  }

  /** Each conversion is exactly floor division by its unit. */
  lemma UnitsAreFloorDivision(bytes: uint64)
    ensures BytesToKb(bytes) as int == bytes as int / KiB
    ensures BytesToMb(bytes) as int == bytes as int / MiB
    ensures BytesToGb(bytes) as int == bytes as int / GiB
  {
    FloorUnique(bytes as int, KiB, BytesToKb(bytes) as int, bytes as int / KiB);
    FloorUnique(bytes as int, MiB, BytesToMb(bytes) as int, bytes as int / MiB);
    FloorUnique(bytes as int, GiB, BytesToGb(bytes) as int, bytes as int / GiB);
  }

  /** Each unit is the previous one divided by 1024, rounded down. */
  lemma UnitsChain(bytes: uint64)
    ensures BytesToMb(bytes) == BytesToKb(bytes) / 1024
    ensures BytesToGb(bytes) == BytesToMb(bytes) / 1024
  {
    var kb, mb, gb := BytesToKb(bytes) as int, BytesToMb(bytes) as int, BytesToGb(bytes) as int;
    FloorUnique(kb, KiB, mb, kb / KiB);
    FloorUnique(mb, KiB, gb, mb / KiB);
  }

  /** A larger size never shows as fewer units. */
  lemma UnitsMonotone(a: uint64, b: uint64)
    requires a <= b
    ensures BytesToKb(a) <= BytesToKb(b)
    ensures BytesToMb(a) <= BytesToMb(b)
    ensures BytesToGb(a) <= BytesToGb(b)
  {
    UnitMonotone(a as int, b as int, KiB, BytesToKb(a) as int, BytesToKb(b) as int);
    UnitMonotone(a as int, b as int, MiB, BytesToMb(a) as int, BytesToMb(b) as int);
    UnitMonotone(a as int, b as int, GiB, BytesToGb(a) as int, BytesToGb(b) as int);
  }

  lemma {:induction false} UnitMonotone(x: int, y: int, d: int, q: int, q': int)
    requires x <= y && d > 0
    requires q * d <= x < (q + 1) * d
    requires q' * d <= y < (q' + 1) * d
    ensures q <= q'
  {
    if q' < q {
      MulMonotone(q' + 1, q, d);
    }
  }
}
