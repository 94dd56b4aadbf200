/**
 * The values every other module shares: a point in the plane, and the
 * integer helpers (absolute value, maximum, rounding) that the rasterisers
 * use on their coordinates.
 *
 * Coordinates are doubles in the application; here they are exact reals.
 */
module Geometry {

  /** A point of the canvas; equality is structural. */
  datatype Point = Point(x: real, y: real)

  /** The point whose coordinates are the two integers `x` and `y`. */
  function Pixel(x: int, y: int): Point
  {
    Point(x as real, y as real)
  }

  /** True when both coordinates of `p` are whole numbers. */
  predicate IsIntegral(p: Point)
  {
    p.x.Floor as real == p.x && p.y.Floor as real == p.y
  }

  function Abs(n: int): nat
  {
    if n < 0 then -n else n
  }

  function AbsReal(r: real): real
  {
    if r < 0.0 then -r else r
  }

  function Max(a: int, b: int): int
  {
    if a < b then b else a
  }

  function MaxReal(a: real, b: real): real
  {
    if a < b then b else a
  }

  /** The least integer not below `r`. */
  function Ceil(r: real): (n: int)
    ensures r <= n as real < r + 1.0
  {
    -((-r).Floor)
  }

  /**
   * Rounding to the nearest integer with ties going to the even neighbour
   * (the default mode of the platform's rounding function).
   */
  function Round(r: real): (n: int)
    ensures -0.5 <= r - n as real <= 0.5
    ensures (r - n as real == 0.5 || r - n as real == -0.5) ==> n % 2 == 0
  {
    var f := r.Floor;
    var frac := r - f as real;
    if frac < 0.5 then f
    else if frac > 0.5 then f + 1
    else if f % 2 == 0 then f
    else f + 1
  }

  /** Rounding leaves a whole number unchanged. */
  lemma RoundWhole(n: int)
    ensures Round(n as real) == n
  {
  }

  /** The square of the distance between two points. */
  function SquaredDistance(a: Point, b: Point): (d: real)
    ensures d >= 0.0
  {
    (b.x - a.x) * (b.x - a.x) + (b.y - a.y) * (b.y - a.y)
  }

  /** The largest n at least `n` whose square does not exceed `d`. */
  function RootFrom(d: real, n: nat): (r: nat)
    requires (n * n) as real <= d
    ensures (r * r) as real <= d < ((r + 1) * (r + 1)) as real
    decreases d.Floor - n * n
  {
    if ((n + 1) * (n + 1)) as real <= d then RootFrom(d, n + 1) else n
  }

  /**
   * The square root of `d` truncated towards zero, as the platform's
   * conversion of a square root to an integer gives it: the whole number
   * whose square is at most `d` and whose successor's square exceeds it.
   */
  function TruncSqrt(d: real): (r: nat)
    requires d >= 0.0
    ensures (r * r) as real <= d < ((r + 1) * (r + 1)) as real
  {
    RootFrom(d, 0)
  }
}
