/** Saturating 64-bit arithmetic and the monotonic clock built on it. */
module Clock {
  import opened Basics

  const NANOS_PER_SECOND: int := 1_000_000_000

  /** The sum when it fits and the largest word otherwise. */
  function SatAdd(left: u64, right: u64): (r: u64)
    ensures r == Min(left + right, U64_MAX)
  {
    if left <= U64_MAX - right then left + right else U64_MAX
  }

  /** The product when it fits and the largest word otherwise. */
  function SatMul(left: u64, right: u64): (r: u64)
    requires right != 0
    ensures r == Min(left * right, U64_MAX)
  {
    DivisionGuard(left, right);
    if left <= U64_MAX / right then left * right else U64_MAX
  }

  /** The division in the guard of `SatMul` decides exactly whether the product fits. */
  lemma DivisionGuard(left: u64, right: u64)
    requires right != 0
    ensures left <= U64_MAX / right <==> left * right <= U64_MAX
  {
    var q, r := U64_MAX / right, U64_MAX % right;
    assert U64_MAX == q * right + r && 0 <= r < right;
    if left <= q {
      ProductGrows(left, q, right);
    } else {
      ProductGrows(q + 1, left, right);
    }
  }

  lemma ProductGrows(a: nat, b: nat, c: nat)
    requires a <= b
    ensures a * c <= b * c
  {
  }

  /** What a reading of `sec` seconds and `nsec` nanoseconds stands for. */
  function Reading(sec: u64, nsec: u64): u64 {
    Min(sec * NANOS_PER_SECOND + nsec, U64_MAX)
  }

  /** The clock reading, computed in place from the two halves the system call delivers. */
  method MonotonicNow(sec: u64, nsec: u64) returns (now: u64)
    ensures now == Reading(sec, nsec)
  {
    now := sec;
    now := SatMul(now, 1_000_000_000);
    now := SatAdd(now, nsec);
  }

  /** Readings that the system orders lexicographically never go back, saturated or not. */
  lemma ReadingIsMonotone(sec0: u64, nsec0: u64, sec1: u64, nsec1: u64)
    requires nsec0 < NANOS_PER_SECOND && nsec1 < NANOS_PER_SECOND
    requires sec0 < sec1 || (sec0 == sec1 && nsec0 <= nsec1)
    ensures Reading(sec0, nsec0) <= Reading(sec1, nsec1)
    ensures Reading(sec0, nsec0) == Reading(sec1, nsec1) ==>
              (sec0 == sec1 && nsec0 == nsec1) || Reading(sec0, nsec0) == U64_MAX
  {
  }
}
