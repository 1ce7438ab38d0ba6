/** The cycle-boundary listener of the intersection view
    (app/components/Intersection.tsx:100-102): it asks to be woken at the
    first cycle boundary after a given timestamp. */
module Intersection {
  /** `Math.floor(timestamp / cycleLength)` on integers. Dafny's `/` rounds
      down for a positive divisor, so a negative one is flipped first. */
  function FloorDiv(t: int, d: int): int
    requires d != 0
  {
    if d > 0 then t / d else (-t) / (-d)
  }

  /** `nextStateTimestamp`: `(Math.floor(timestamp / cycleLength) + 1) *
      cycleLength`. For a positive cycle length this is the first multiple of
      the cycle length strictly after the timestamp; for a negative one it
      is the multiple just below it. */
  function NextCycleBoundary(timestamp: int, cycleLength: int): (r: int)
    requires cycleLength != 0
    ensures r % cycleLength == 0
    ensures cycleLength > 0 ==> timestamp < r <= timestamp + cycleLength
    ensures cycleLength < 0 ==> timestamp + cycleLength <= r < timestamp
  {
    var q := FloorDiv(timestamp, cycleLength);
    BoundaryBounds(timestamp, cycleLength);
    (q + 1) * cycleLength
  }

  lemma BoundaryBounds(t: int, d: int)
    requires d != 0
    ensures (FloorDiv(t, d) + 1) * d % d == 0
    ensures d > 0 ==> t < (FloorDiv(t, d) + 1) * d <= t + d
    ensures d < 0 ==> t + d <= (FloorDiv(t, d) + 1) * d < t
  {
    var q := FloorDiv(t, d);
    var r := (q + 1) * d;
    if d > 0 {
      assert t == q * d + t % d;
      assert r == q * d + d;
    } else {
      assert -t == q * (-d) + (-t) % (-d);
      assert r == q * d + d;
    }
    MultipleMod(q + 1, d);
  }

  lemma MultipleMod(k: int, d: int)
    requires d != 0
    ensures k * d % d == 0
  {
    DivModUnique(k * d, d, k, 0);
  }

  /** Euclidean division is unique: a remainder in range is the remainder. */
  lemma DivModUnique(m: int, d: int, q: int, r: int)
    requires d != 0
    requires m == q * d + r
    requires 0 <= r < (if d > 0 then d else -d)
    ensures m % d == r
  {
    var z := q - m / d;
    assert m == (m / d) * d + m % d;
    assert z * d == m % d - r;
    if z != 0 {
      MultipleAtLeast(z, d);
    }
  }

  /** A non-zero multiple of `d` is at least `d` away from zero. */
  lemma MultipleAtLeast(z: int, d: int)
    requires z != 0 && d != 0
    ensures z * d >= (if d > 0 then d else -d) || z * d <= -(if d > 0 then d else -d)
  {
  }
}
