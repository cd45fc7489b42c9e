/** Hourly and daily buckets of time. */
module Buckets {

  datatype Granularity = Hourly | Daily

  function Step(g: Granularity): (s: int) {
    if g.Daily? then 86_400_000_000 else 3_600_000_000
  }

  /** The start of the bucket that holds an instant. */
  function FloorBucket(value: int, g: Granularity): int {
    if g.Daily? then value - value % 86_400_000_000 else value - value % 3_600_000_000
  }

  predicate Aligned(value: int, g: Granularity) {
    if g.Daily? then value % 86_400_000_000 == 0 else value % 3_600_000_000 == 0
  }

  lemma FloorBounds(value: int, g: Granularity)
    ensures Aligned(FloorBucket(value, g), g)
    ensures FloorBucket(value, g) <= value < FloorBucket(value, g) + Step(g)
  {
  }

  /** Two different bucket boundaries are at least one bucket apart. */
  lemma AlignedApart(a: int, b: int, g: Granularity)
    requires Aligned(a, g) && Aligned(b, g) && a < b
    ensures a + Step(g) <= b
  {
  }

  /** `FloorBucket` is the greatest bucket boundary that is not after the instant. */
  lemma FloorIsGreatestBoundary(value: int, g: Granularity)
    ensures Aligned(FloorBucket(value, g), g)
    ensures FloorBucket(value, g) <= value < FloorBucket(value, g) + Step(g)
    ensures forall b :: Aligned(b, g) && b <= value ==> b <= FloorBucket(value, g)
  {
    FloorBounds(value, g);
    hide Aligned, FloorBucket;
    forall b | Aligned(b, g) && b <= value ensures b <= FloorBucket(value, g) {
      if FloorBucket(value, g) < b {
        AlignedApart(FloorBucket(value, g), b, g);
      }
    }
  }

  lemma AlignedNext(a: int, g: Granularity)
    requires Aligned(a, g)
    ensures Aligned(a + Step(g), g) && Aligned(a - Step(g), g)
  {
    if g.Daily? {
      assert (a + 86_400_000_000) % 86_400_000_000 == 0;
      assert (a - 86_400_000_000) % 86_400_000_000 == 0;
    } else {
      assert (a + 3_600_000_000) % 3_600_000_000 == 0;
      assert (a - 3_600_000_000) % 3_600_000_000 == 0;
    }
  }

  lemma DayIsHourAligned(a: int)
    requires Aligned(a, Daily)
    ensures Aligned(a, Hourly)
  {
    var q := a / 86_400_000_000;
    assert a == 3_600_000_000 * (24 * q);
  }

  lemma FloorOfAligned(a: int, g: Granularity)
    requires Aligned(a, g)
    ensures FloorBucket(a, g) == a
  {
  }

  lemma FloorMonotone(x: int, y: int, g: Granularity)
    requires x <= y
    ensures FloorBucket(x, g) <= FloorBucket(y, g)
  {
    FloorIsGreatestBoundary(x, g);
    FloorIsGreatestBoundary(y, g);
  }

  /** The bucket of an instant is the one boundary `b` with `b <= value < b + Step(g)`. */
  lemma FloorUnique(value: int, b: int, g: Granularity)
    requires Aligned(b, g)
    ensures FloorBucket(value, g) == b <==> b <= value < b + Step(g)
  {
    FloorIsGreatestBoundary(value, g);
    if b <= value < b + Step(g) && b < FloorBucket(value, g) {
      AlignedApart(b, FloorBucket(value, g), g);
    }
  }
}
