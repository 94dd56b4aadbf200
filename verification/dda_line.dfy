/**
 * The digital differential analyser line rasteriser.  The larger of the two
 * coordinate differences gives the number of steps; both coordinates advance
 * by a fixed increment per step, and every sample after the start is
 * rounded (ties to even) to the nearest whole coordinates.  The start
 * itself is emitted unrounded.  The loop runs while the step counter is
 * below the (possibly fractional) step count, so it runs the step count
 * rounded up times.
 */
module DDALine {
  import opened Geometry

  /** The number of steps: the larger of the two coordinate differences in magnitude. */
  function Steps(start: Point, end: Point): real
  {
    MaxReal(AbsReal(end.x - start.x), AbsReal(end.y - start.y))
  }

  /**
   * The increment of one coordinate per step.  With no steps the loop never
   * reads it (the application divides 0 by 0 there); 0 stands in for it.
   */
  function Increment(d: real, steps: real): real
  {
    if steps == 0.0 then 0.0 else d / steps
  }

  function XIncrement(start: Point, end: Point): real
  {
    Increment(end.x - start.x, Steps(start, end))
  }

  function YIncrement(start: Point, end: Point): real
  {
    Increment(end.y - start.y, Steps(start, end))
  }

  /** How many times the loop runs: the step count rounded up. */
  function Iterations(start: Point, end: Point): nat
  {
    var n := Ceil(Steps(start, end));
    if n < 0 then 0 else n
  }

  /** Where the unrounded sample is after k increments. */
  function Position(start: Point, end: Point, k: nat): Point
  {
    Point(start.x + k as real * XIncrement(start, end), start.y + k as real * YIncrement(start, end))
  }

  /** The k-th sample after the start, rounded to whole coordinates. */
  function Sample(start: Point, end: Point, k: nat): Point
  {
    Point(Round(Position(start, end, k).x) as real, Round(Position(start, end, k).y) as real)
  }

  /** The rasteriser's output: the start, then one rounded sample per iteration. */
  function Line(start: Point, end: Point): seq<Point>
  {
    [start] + seq(Iterations(start, end), k requires 0 <= k => Sample(start, end, k + 1))
  }

  /** The step count is not negative, bounds both differences and equals one of them. */
  lemma StepsBound(start: Point, end: Point)
    ensures 0.0 <= Steps(start, end)
    ensures AbsReal(end.x - start.x) <= Steps(start, end) && AbsReal(end.y - start.y) <= Steps(start, end)
    ensures Steps(start, end) == AbsReal(end.x - start.x) || Steps(start, end) == AbsReal(end.y - start.y)
  {
  }

  /** Between distinct points the step count is positive. */
  lemma PositiveSteps(start: Point, end: Point)
    requires start != end
    ensures 0.0 < Steps(start, end)
  {
    StepsBound(start, end);
    assert start == Point(start.x, start.y) && end == Point(end.x, end.y);
  }

  /** The loop runs exactly as many times as there are whole numbers in [0, steps). */
  lemma IterationsCount(start: Point, end: Point)
    ensures (Iterations(start, end) as real) >= Steps(start, end)
    ensures Iterations(start, end) == 0 || ((Iterations(start, end) - 1) as real) < Steps(start, end)
  {
    StepsBound(start, end);
  }

  /** One more increment is one more multiple of it. */
  lemma Accumulate(a: real, inc: real, i: nat)
    ensures a + i as real * inc + inc == a + (i + 1) as real * inc
  {
    calc {
      a + (i + 1) as real * inc;
      a + (i as real + 1.0) * inc;
      a + i as real * inc + inc;
    }
  }

  /** The unrounded position advances by the two increments per step. */
  lemma PositionStep(start: Point, end: Point, i: nat)
    ensures Position(start, end, i + 1) ==
      Point(Position(start, end, i).x + XIncrement(start, end), Position(start, end, i).y + YIncrement(start, end))
  {
    Accumulate(start.x, XIncrement(start, end), i);
    Accumulate(start.y, YIncrement(start, end), i);
  }

  /** The output up to sample i + 1 extends the output up to sample i by that sample. */
  lemma LineStep(start: Point, end: Point, i: nat)
    requires i < Iterations(start, end)
    ensures Line(start, end)[..i + 2] == Line(start, end)[..i + 1] + [Sample(start, end, i + 1)]
  {
  }

  /** The rasteriser for two end points. */
  method CalculatePoints(start: Point, end: Point) returns (points: seq<Point>)
    ensures points == Line(start, end)
  {
    var dx := end.x - start.x;
    var dy := end.y - start.y;
    var steps := MaxReal(AbsReal(dx), AbsReal(dy));
    var xIncrement := Increment(dx, steps);
    var yIncrement := Increment(dy, steps);
    var x := start.x;
    var y := start.y;
    points := [Point(start.x, start.y)];

    StepsBound(start, end);
    IterationsCount(start, end);
    assert steps == Steps(start, end);
    assert xIncrement == XIncrement(start, end) && yIncrement == YIncrement(start, end);
    assert Point(x, y) == Position(start, end, 0);
    var i := 0;
    while (i as real) < steps
      invariant 0 <= i <= Iterations(start, end)
      invariant Point(x, y) == Position(start, end, i)
      invariant points == Line(start, end)[..i + 1]
      decreases Iterations(start, end) - i
    {
      LineStep(start, end, i);
      PositionStep(start, end, i);
      x := x + xIncrement;
      y := y + yIncrement;
      points := points + [Point(Round(x) as real, Round(y) as real)];
      i := i + 1;
    }
    assert Line(start, end)[..i + 1] == Line(start, end);
  }

  /** The generic entry point. */
  method Execute(start: Point, end: Point) returns (points: seq<Point>)
    ensures points == Line(start, end)
  {
    points := CalculatePoints(start, end);
  }

  lemma NegativeTimesPositive(a: real, s: real, m: real)
    requires 0.0 < s && m == a * s
    ensures a < 0.0 ==> m < 0.0
  {
    if a < 0.0 {
      calc {
        m;
        a * s;
      <
        0.0;
      }
    }
  }

  /** A quotient of a difference by a step count at least as large lies in [-1, 1], at an end exactly when they are equal in magnitude. */
  lemma QuotientBound(d: real, s: real)
    requires 0.0 < s && -s <= d <= s
    ensures -1.0 <= d / s <= 1.0
    ensures d == s ==> d / s == 1.0
    ensures d == -s ==> d / s == -1.0
  {
    var q := d / s;
    assert q * s == d;
    NegativeTimesPositive(1.0 - q, s, s - d);
    NegativeTimesPositive(q + 1.0, s, d + s);
  }

  /** A difference no larger than the step count gives an increment of magnitude at most one, exactly one when they are equal. */
  lemma IncrementOfDifference(d: real, steps: real)
    requires 0.0 < steps && AbsReal(d) <= steps
    ensures AbsReal(Increment(d, steps)) <= 1.0
    ensures AbsReal(d) == steps ==> AbsReal(Increment(d, steps)) == 1.0
  {
    QuotientBound(d, steps);
  }

  /**
   * Between two distinct points the step count is positive, both increments
   * have magnitude at most one, and the increment along the dominant axis has
   * magnitude exactly one: that axis advances one unit per point.
   */
  lemma IncrementBounds(start: Point, end: Point)
    requires start != end
    ensures 0.0 < Steps(start, end)
    ensures AbsReal(XIncrement(start, end)) <= 1.0 && AbsReal(YIncrement(start, end)) <= 1.0
    ensures AbsReal(XIncrement(start, end)) == 1.0 || AbsReal(YIncrement(start, end)) == 1.0
  {
    StepsBound(start, end);
    PositiveSteps(start, end);
    var steps := Steps(start, end);
    IncrementOfDifference(end.x - start.x, steps);
    IncrementOfDifference(end.y - start.y, steps);
  }

  /** A single point (start equal to end) gives just that point: the loop does not run. */
  lemma SamePoint(p: Point)
    ensures Line(p, p) == [p]
  {
    assert Steps(p, p) == 0.0;
    assert Iterations(p, p) == 0;
  }

  /** Between whole end points the step count is whole, so the loop runs exactly that many times. */
  lemma WholeSteps(start: Point, end: Point)
    requires IsIntegral(start) && IsIntegral(end)
    ensures Iterations(start, end) as real == Steps(start, end)
  {
    var dx, dy := end.x - start.x, end.y - start.y;
    assert dx == (end.x.Floor - start.x.Floor) as real;
    assert dy == (end.y.Floor - start.y.Floor) as real;
    var steps := Steps(start, end);
    assert steps.Floor as real == steps;
    assert (-steps).Floor == -steps.Floor;
  }

  /** Taking `s` increments of d / s covers d. */
  lemma ScaleBack(n: nat, d: real, s: real, inc: real)
    requires 0.0 < s && n as real == s && inc == d / s
    ensures n as real * inc == d
  {
    calc {
      n as real * inc;
      s * (d / s);
      d;
    }
  }

  /** k increments that cover both differences land on the end point. */
  lemma PositionLands(start: Point, end: Point, k: nat)
    requires k as real * XIncrement(start, end) == end.x - start.x
    requires k as real * YIncrement(start, end) == end.y - start.y
    ensures Position(start, end, k) == end
  {
  }

  /** After the last increment between whole end points the position is the end point. */
  lemma LastPosition(start: Point, end: Point)
    requires IsIntegral(start) && IsIntegral(end) && start != end
    ensures Position(start, end, Iterations(start, end)) == end
  {
    WholeSteps(start, end);
    PositiveSteps(start, end);
    var n, steps := Iterations(start, end), Steps(start, end);
    ScaleBack(n, end.x - start.x, steps, XIncrement(start, end));
    ScaleBack(n, end.y - start.y, steps, YIncrement(start, end));
    PositionLands(start, end, n);
  }

  /**
   * Between whole end points every point is whole, and the last point is
   * exactly the end point: the samples land on it after the last increment.
   */
  lemma IntegralEnds(start: Point, end: Point)
    requires IsIntegral(start) && IsIntegral(end)
    ensures |Line(start, end)| == Iterations(start, end) + 1
    ensures Line(start, end)[|Line(start, end)| - 1] == end
    ensures forall k :: 0 <= k < |Line(start, end)| ==> IsIntegral(Line(start, end)[k])
  {
    var n := Iterations(start, end);
    if start == end {
      SamePoint(start);
    } else {
      LastPosition(start, end);
      RoundWhole(end.x.Floor);
      RoundWhole(end.y.Floor);
      assert Line(start, end)[n] == Sample(start, end, n);
    }
    forall k | 0 <= k < |Line(start, end)|
      ensures IsIntegral(Line(start, end)[k])
    {
      if k > 0 {
        assert Line(start, end)[k] == Sample(start, end, k);
      }
    }
  }

  /**
   * Between end points that are not whole the loop can run past the end:
   * from (0, 0) to (2.5, 0) it runs three times, one unit each, and the last
   * point, (3, 0), lies beyond the end point.
   */
  lemma Overshoot(start: Point, end: Point)
    requires start == Point(0.0, 0.0) && end == Point(2.5, 0.0)
    ensures Line(start, end) == [Point(0.0, 0.0), Point(1.0, 0.0), Point(2.0, 0.0), Point(3.0, 0.0)]
    ensures Line(start, end)[3].x > end.x
  {
    assert Steps(start, end) == 2.5;
    assert Iterations(start, end) == 3;
    assert XIncrement(start, end) == 1.0 && YIncrement(start, end) == 0.0;
    RoundWhole(0);
    RoundWhole(1);
    RoundWhole(2);
    RoundWhole(3);
    assert Sample(start, end, 1) == Point(1.0, 0.0);
    assert Sample(start, end, 2) == Point(2.0, 0.0);
    assert Sample(start, end, 3) == Point(3.0, 0.0);
  }
}
