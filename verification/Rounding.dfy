/** What rounding to a digit does, and the two-decimal clamp both power calculators round with. */
module Rounding {
  import opened Prelude

  /** n hundredths. */
  function Cents(n: int): (r: real) {
    n as real / 100.0
  }

  /** value.toFixed(2) in hundredths. */
  function Hundredths(value: real): (r: int) {
    Nearest(value * 100.0)
  }

  /** Math.max(min, Math.min(max, Number(value.toFixed(2)))). */
  function Clamp(value: real, min: real, max: real): (r: real) {
    var rounded := Cents(Hundredths(value));
    var capped := if rounded < max then rounded else max;
    if capped > min then capped else min
  }

  /** A whole number of hundredths. */
  ghost predicate IsCents(x: real) {
    exists n: int :: x == Cents(n)
  }

  /** Rounding leaves hundredths alone. */
  lemma NearestOfCents(n: int)
    ensures Hundredths(Cents(n)) == n
  {
  }

  lemma NearestMonotone(x: real, y: real)
    requires x <= y
    ensures Nearest(x) <= Nearest(y)
  {
    if y < 0.0 {
      assert (0.5 - y).Floor <= (0.5 - x).Floor;
    } else if x >= 0.0 {
      assert (x + 0.5).Floor <= (y + 0.5).Floor;
    }
  }

  lemma CentsAdd(x: real, y: real)
    requires IsCents(x) && IsCents(y)
    ensures IsCents(x + y) && IsCents(x - y)
  {
    var m: int :| x == Cents(m);
    var n: int :| y == Cents(n);
    assert x + y == Cents(m + n);
    assert x - y == Cents(m - n);
  }

  /** A clamp between hundredths yields hundredths. */
  lemma ClampYieldsCents(value: real, min: real, max: real)
    requires IsCents(min) && IsCents(max) && min <= max
    ensures IsCents(Clamp(value, min, max)) && min <= Clamp(value, min, max) <= max
  {
  }

  /** On hundredths a clamp only cuts. */
  lemma ClampCuts(value: real, min: real, max: real)
    requires IsCents(value) && min <= max
    ensures Clamp(value, min, max) == if value < min then min else if value > max then max else value
  {
    var n: int :| value == Cents(n);
    NearestOfCents(n);
  }

  lemma ClampMonotone(x: real, y: real, min: real, max: real)
    requires x <= y
    ensures Clamp(x, min, max) <= Clamp(y, min, max)
  {
    NearestMonotone(x * 100.0, y * 100.0);
  }

  /** Rounding goes to a nearest integer, from a tie away from zero. */
  lemma NearestIsClosest(x: real)
    ensures -0.5 <= Nearest(x) as real - x <= 0.5
    ensures Nearest(x) as real - x == 0.5 ==> x > 0.0
    ensures Nearest(x) as real - x == -0.5 ==> x < 0.0
  {
  }

  /** So four digits are kept to within half of the last one, and a distance is kept as it is. */
  lemma FixedIsClosest(x: real)
    ensures -0.00005 <= ToFixed4(x) - x <= 0.00005
    ensures (ToFixed4(x) * 10000.0).Floor as real == ToFixed4(x) * 10000.0
  {
    NearestIsClosest(x * 10000.0);
  }

  lemma AbsIsDistance(x: real, y: real)
    ensures Abs(x - y) == Abs(y - x) >= 0.0
    ensures x >= y ==> Abs(x - y) == x - y
  {
  }

  /** Within its bounds a clamp is off by half a hundredth at most. */
  lemma ClampIsClose(value: real, min: real, max: real)
    requires IsCents(min) && IsCents(max) && min <= value <= max
    ensures -0.005 <= Clamp(value, min, max) - value <= 0.005
  {
    NearestIsClosest(value * 100.0);
  }

  lemma ClampAtBounds(value: real, min: real, max: real)
    requires IsCents(min) && IsCents(max) && min <= max
    ensures value <= min ==> Clamp(value, min, max) == min
    ensures value >= max ==> Clamp(value, min, max) == max
  {
    var low: int :| min == Cents(low);
    var high: int :| max == Cents(high);
    NearestOfCents(low);
    NearestOfCents(high);
    if value <= min {
      NearestMonotone(value * 100.0, min * 100.0);
    }
    if value >= max {
      NearestMonotone(max * 100.0, value * 100.0);
    }
  }
}
