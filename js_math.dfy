/** The arithmetic the page borrows from JavaScript and from three.js:
    `Math.min(Math.max(v, 0), 1)`, `THREE.MathUtils.lerp`, `Math.PI`, and
    the one non-finite number that survives into an observable result, NaN. */
module JsMath {

  /** A JavaScript number as far as the page can observe it: a finite value,
      or NaN (which compares false with everything). Infinities only occur
      transiently, inside a clamp that maps them back to 0 or 1. */
  datatype Num = Finite(value: real) | NaN

  /** `Math.PI` as JavaScript prints it. */
  const Pi: real := 3.141592653589793

  function Min(a: real, b: real): (r: real)
    ensures r <= a && r <= b && (r == a || r == b)
  {
    if a <= b then a else b
  }

  function Max(a: real, b: real): (r: real)
    ensures r >= a && r >= b && (r == a || r == b)
  {
    if a >= b then a else b
  }

  /** `Math.min(Math.max(v, 0), 1)`: the value saturated into [0, 1]. */
  function Clamp01(v: real): (r: real)
    ensures 0.0 <= r <= 1.0
    ensures 0.0 <= v <= 1.0 ==> r == v
    ensures v <= 0.0 ==> r == 0.0
    ensures v >= 1.0 ==> r == 1.0
  {
    Min(Max(v, 0.0), 1.0)
  }

  /** Clamping keeps the order of its inputs. */
  lemma Clamp01Monotone(u: real, v: real)
    requires u <= v
    ensures Clamp01(u) <= Clamp01(v)
  {
  }

  /** `THREE.MathUtils.lerp(x, y, t)`, which three.js computes as `(1 - t) * x + t * y`. */
  function Lerp(x: real, y: real, t: real): (r: real)
    ensures t == 0.0 ==> r == x
    ensures t == 1.0 ==> r == y
    ensures r - x == t * (y - x)
  {
    (1.0 - t) * x + t * y
  }

  /** For a weight in [0, 1] the interpolated value lies between the two ends. */
  lemma LerpBetween(x: real, y: real, t: real)
    requires 0.0 <= t <= 1.0
    ensures Min(x, y) <= Lerp(x, y, t) <= Max(x, y)
  {
    var r := Lerp(x, y, t);
    if x <= y {
      ScaleByFraction(t, y - x);
      assert x <= r <= y;
    } else {
      ScaleByFraction(t, x - y);
      assert t * (y - x) == -(t * (x - y));
      assert y <= r <= x;
    }
  }

  /** A fraction of a non-negative amount is at most that amount. */
  lemma ScaleByFraction(t: real, d: real)
    requires 0.0 <= t <= 1.0 && 0.0 <= d
    ensures 0.0 <= t * d <= d
  {
    assert (1.0 - t) * d >= 0.0;
  }
}
