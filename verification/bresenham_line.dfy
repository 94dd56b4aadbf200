/**
 * Bresenham's integer line: the endpoints are rounded to whole pixels, then
 * an error accumulator decides at every step whether x, y or both move one
 * pixel towards the end.  The walk stops as soon as the end pixel has been
 * emitted.
 */
module BresenhamLine {
  import opened Geometry

  /** The rounded endpoints of one line. */
  datatype Ends = Ends(x1: int, y1: int, x2: int, y2: int) {
    function Dx(): int { Abs(x2 - x1) }
    function Dy(): int { Abs(y2 - y1) }
    function Sx(): int { if x1 < x2 then 1 else -1 }
    function Sy(): int { if y1 < y2 then 1 else -1 }
  }

  /** The loop's variables: the current pixel and the error term. */
  datatype Cursor = Cursor(x: int, y: int, err: int)

  /** `v` lies on the closed segment between `a` and `b`. */
  predicate Between(a: int, v: int, b: int)
  {
    if a <= b then a <= v <= b else b <= v <= a
  }

  /** The cursor the loop starts from. */
  function Start(e: Ends): Cursor
  {
    Cursor(e.x1, e.y1, e.Dx() - e.Dy())
  }

  function AtEnd(e: Ends, c: Cursor): bool
  {
    c.x == e.x2 && c.y == e.y2
  }

  /** One pass of the loop body after the end test. */
  function Advance(e: Ends, c: Cursor): Cursor
  {
    var e2 := 2 * c.err;
    var x, err := if e2 > -e.Dy() then c.x + e.Sx() else c.x, if e2 > -e.Dy() then c.err - e.Dy() else c.err;
    var y, err' := if e2 < e.Dx() then c.y + e.Sy() else c.y, if e2 < e.Dx() then err + e.Dx() else err;
    Cursor(x, y, err')
  }

  /** The distances already travelled from the first endpoint along each axis. */
  function TravelX(e: Ends, c: Cursor): nat { Abs(c.x - e.x1) }
  function TravelY(e: Ends, c: Cursor): nat { Abs(c.y - e.y1) }

  /**
   * The error term after travelling a pixels along x and b along y, with a
   * and b within the deltas: it equals dx - dy + b*dx - a*dy, and on the
   * dominant axis it stays on the side that forces a move there.
   */
  ghost predicate ErrorInv(dx: int, dy: int, a: int, b: int, err: int)
  {
    && 0 <= a <= dx && 0 <= b <= dy
    && err == dx - dy + b * dx - a * dy
    && (dx >= dy ==> 2 * err >= dx - 2 * dy && (dx == dy ==> a == b))
    && (dx < dy ==> 2 * err <= 2 * dx - dy)
  }

  /** The states the loop can reach: the pixel lies between the endpoints and the error term fits its travel. */
  ghost predicate Reachable(e: Ends, c: Cursor)
  {
    && Between(e.x1, c.x, e.x2)
    && Between(e.y1, c.y, e.y2)
    && ErrorInv(e.Dx(), e.Dy(), TravelX(e, c), TravelY(e, c), c.err)
  }

  /** Distance still to travel, in pixels along each axis. */
  function Remaining(e: Ends, c: Cursor): nat
  {
    Abs(e.x2 - c.x) + Abs(e.y2 - c.y)
  }

  /** How far along the dominant axis the cursor still has to go. */
  function MajorRemaining(e: Ends, c: Cursor): nat
  {
    if e.Dx() >= e.Dy() then Abs(e.x2 - c.x) else Abs(e.y2 - c.y)
  }

  lemma MulBelow(b: int, n: int, k: nat)
    requires b <= n
    ensures b * k <= n * k
  {
  }

  /**
   * One update of the error term, short of the end.  It allows no x move
   * once x has reached x2 and no y move once y has reached y2, it allows at
   * least one move, always one on the dominant axis, and the updated error
   * fits the updated travel.
   */
  lemma {:induction false} ErrorStep(dx: int, dy: int, a: int, b: int, err: int)
    requires ErrorInv(dx, dy, a, b, err) && !(a == dx && b == dy)
    ensures a == dx ==> 2 * err <= -dy
    ensures b == dy ==> 2 * err >= dx
    ensures dx >= dy ==> 2 * err > -dy
    ensures dx < dy ==> 2 * err < dx
    ensures var mx, my := 2 * err > -dy, 2 * err < dx;
      ErrorInv(dx, dy, a + (if mx then 1 else 0), b + (if my then 1 else 0),
               err - (if mx then dy else 0) + (if my then dx else 0))
  {
    if a == dx {
      XAtEnd(dx, dy, b, err);
    }
    if b == dy {
      YAtEnd(dx, dy, a, err);
    }
    if dx == dy {
      assert b * dx - a * dy == 0;
    }
    var mx, my := 2 * err > -dy, 2 * err < dx;
    MovedError(dx, dy, a, b, err, mx, my);
  }

  /** Once x has reached x2 (and y has not reached y2) the error term forbids an x move. */
  lemma XAtEnd(dx: int, dy: int, b: int, err: int)
    requires 0 <= dx && 0 <= b < dy && err == dx - dy + b * dx - dx * dy
    ensures 2 * err <= -dy
  {
    MulBelow(b, dy - 1, dx);
    assert (dy - 1) * dx == dx * dy - dx;
  }

  /** Once y has reached y2 (and x has not reached x2) the error term forbids a y move. */
  lemma YAtEnd(dx: int, dy: int, a: int, err: int)
    requires 0 <= dy && 0 <= a < dx && err == dx - dy + dy * dx - a * dy
    ensures 2 * err >= dx
  {
    MulBelow(a, dx - 1, dy);
    assert (dx - 1) * dy == dx * dy - dy;
  }

  /** The updated error term is the error formula at the updated travel. */
  lemma MovedError(dx: int, dy: int, a: int, b: int, err: int, mx: bool, my: bool)
    requires err == dx - dy + b * dx - a * dy
    ensures var a', b' := a + (if mx then 1 else 0), b + (if my then 1 else 0);
      err - (if mx then dy else 0) + (if my then dx else 0) == dx - dy + b' * dx - a' * dy
  {
    var a', b' := a + (if mx then 1 else 0), b + (if my then 1 else 0);
    assert b' * dx == b * dx + (if my then dx else 0);
    assert a' * dy == a * dy + (if mx then dy else 0);
  }

  /** Moving one unit towards the end from strictly inside the segment increases the travel by one. */
  lemma StepAlong(a: int, v: int, b: int, s: int)
    requires Between(a, v, b) && v != b
    requires s == if a < b then 1 else -1
    ensures Between(a, v + s, b)
    ensures Abs(v + s - a) == Abs(v - a) + 1
    ensures Abs(b - (v + s)) == Abs(b - v) - 1
  {
  }

  /**
   * A step from a reachable cursor that is not yet at the end moves each
   * coordinate by 0 or one unit in its direction, moves at least one of
   * them, always moves the dominant one, and never leaves the segment.
   */
  lemma {:induction false} AdvanceMoves(e: Ends, c: Cursor)
    requires Reachable(e, c) && !AtEnd(e, c)
    ensures var n, mx, my := Advance(e, c), 2 * c.err > -e.Dy(), 2 * c.err < e.Dx();
      && (mx || my)
      && (e.Dx() >= e.Dy() ==> mx)
      && (e.Dx() < e.Dy() ==> my)
      && n.x == c.x + (if mx then e.Sx() else 0)
      && n.y == c.y + (if my then e.Sy() else 0)
      && Between(e.x1, n.x, e.x2) && Between(e.y1, n.y, e.y2)
      && TravelX(e, n) == TravelX(e, c) + (if mx then 1 else 0)
      && TravelY(e, n) == TravelY(e, c) + (if my then 1 else 0)
      && Abs(e.x2 - n.x) == Abs(e.x2 - c.x) - (if mx then 1 else 0)
      && Abs(e.y2 - n.y) == Abs(e.y2 - c.y) - (if my then 1 else 0)
      && n.err == c.err - (if mx then e.Dy() else 0) + (if my then e.Dx() else 0)
  {
    var dx, dy := e.Dx(), e.Dy();
    var mx, my := 2 * c.err > -dy, 2 * c.err < dx;
    assert TravelX(e, c) == dx <==> c.x == e.x2;
    assert TravelY(e, c) == dy <==> c.y == e.y2;
    ErrorStep(dx, dy, TravelX(e, c), TravelY(e, c), c.err);
    if mx {
      StepAlong(e.x1, c.x, e.x2, e.Sx());
    }
    if my {
      StepAlong(e.y1, c.y, e.y2, e.Sy());
    }
  }

  /**
   * A step from a reachable cursor that is not yet at the end stays
   * reachable, moves each coordinate by 0 or one unit in its direction,
   * moves at least one of them, and always moves the dominant one.
   */
  lemma {:induction false} AdvanceStep(e: Ends, c: Cursor)
    requires Reachable(e, c) && !AtEnd(e, c)
    ensures Reachable(e, Advance(e, c))
    ensures Advance(e, c).x == c.x || Advance(e, c).x == c.x + e.Sx()
    ensures Advance(e, c).y == c.y || Advance(e, c).y == c.y + e.Sy()
    ensures Advance(e, c).x != c.x || Advance(e, c).y != c.y
    ensures e.Dx() >= e.Dy() ==> Advance(e, c).x == c.x + e.Sx()
    ensures e.Dx() < e.Dy() ==> Advance(e, c).y == c.y + e.Sy()
    ensures Remaining(e, Advance(e, c)) < Remaining(e, c)
    ensures MajorRemaining(e, Advance(e, c)) == MajorRemaining(e, c) - 1
  {
    AdvanceMoves(e, c);
    ErrorStep(e.Dx(), e.Dy(), TravelX(e, c), TravelY(e, c), c.err);
  }

  /**
   * The pixels the loop emits from cursor `c` on: the current pixel, then,
   * unless it is the end, the pixels from the next cursor.  From a
   * reachable cursor every step brings the end closer (AdvanceStep), so the
   * last branch is never taken on a line the rasteriser draws.
   */
  function Walk(e: Ends, c: Cursor): (points: seq<Point>)
    decreases Remaining(e, c)
  {
    if AtEnd(e, c) then [Pixel(c.x, c.y)]
    else if Remaining(e, Advance(e, c)) < Remaining(e, c) then [Pixel(c.x, c.y)] + Walk(e, Advance(e, c))
    else [Pixel(c.x, c.y)]
  }

  /** A step, spelled out by the two tests on the doubled error. */
  lemma AdvanceParts(e: Ends, c: Cursor)
    ensures Advance(e, c) == Cursor(
      if 2 * c.err > -e.Dy() then c.x + e.Sx() else c.x,
      if 2 * c.err < e.Dx() then c.y + e.Sy() else c.y,
      (if 2 * c.err > -e.Dy() then c.err - e.Dy() else c.err) + (if 2 * c.err < e.Dx() then e.Dx() else 0))
  {
  }

  /** The loop invariant: `points` were emitted on the way from the start to reachable cursor `c`. */
  ghost predicate Tracing(e: Ends, c: Cursor, points: seq<Point>)
  {
    Reachable(e, c) && points + Walk(e, c) == Line(e)
  }

  /** One pass of the loop body keeps the invariant and brings the end closer. */
  lemma TracingStep(e: Ends, c: Cursor, points: seq<Point>)
    requires Tracing(e, c, points) && !AtEnd(e, c)
    ensures Tracing(e, Advance(e, c), points + [Pixel(c.x, c.y)])
    ensures Remaining(e, Advance(e, c)) < Remaining(e, c)
  {
    AdvanceStep(e, c);
  }

  lemma StartReachable(e: Ends)
    ensures Reachable(e, Start(e))
  {
  }

  /** The whole line between two whole-pixel endpoints. */
  function Line(e: Ends): seq<Point>
  {
    Walk(e, Start(e))
  }

  /** Consecutive pixels differ by 0 or one step `sx` in x and 0 or one step `sy` in y, and are never equal. */
  predicate IsStep(e: Ends, p: Point, q: Point)
  {
    && (q.x == p.x || q.x == p.x + e.Sx() as real)
    && (q.y == p.y || q.y == p.y + e.Sy() as real)
    && q != p
  }

  /** Every pixel of the walk lies in the box spanned by the two endpoints and has whole coordinates. */
  lemma {:induction false} WalkInBox(e: Ends, c: Cursor)
    requires Reachable(e, c)
    ensures forall i :: 0 <= i < |Walk(e, c)| ==>
      IsIntegral(Walk(e, c)[i]) &&
      exists px: int, py: int :: Walk(e, c)[i] == Pixel(px, py) && Between(e.x1, px, e.x2) && Between(e.y1, py, e.y2)
    decreases Remaining(e, c)
  {
    if !AtEnd(e, c) {
      AdvanceStep(e, c);
      WalkInBox(e, Advance(e, c));
      var w := Walk(e, c);
      forall i | 0 <= i < |w|
        ensures IsIntegral(w[i]) &&
          exists px: int, py: int :: w[i] == Pixel(px, py) && Between(e.x1, px, e.x2) && Between(e.y1, py, e.y2)
      {
        if i == 0 {
          assert w[0] == Pixel(c.x, c.y);
        } else {
          assert w[i] == Walk(e, Advance(e, c))[i - 1];
        }
      }
    } else {
      assert Walk(e, c)[0] == Pixel(c.x, c.y);
    }
  }

  /** The walk starts at the cursor's pixel and ends at the end pixel, which it reaches only at its last element. */
  lemma {:induction false} WalkEnds(e: Ends, c: Cursor)
    requires Reachable(e, c)
    ensures |Walk(e, c)| >= 1
    ensures Walk(e, c)[0] == Pixel(c.x, c.y)
    ensures Walk(e, c)[|Walk(e, c)| - 1] == Pixel(e.x2, e.y2)
    ensures forall i :: 0 <= i < |Walk(e, c)| - 1 ==> Walk(e, c)[i] != Pixel(e.x2, e.y2)
    decreases Remaining(e, c)
  {
    if !AtEnd(e, c) {
      AdvanceStep(e, c);
      WalkEnds(e, Advance(e, c));
      var w, w' := Walk(e, c), Walk(e, Advance(e, c));
      assert w == [Pixel(c.x, c.y)] + w';
      forall i | 0 <= i < |w| - 1
        ensures w[i] != Pixel(e.x2, e.y2)
      {
        if i > 0 {
          assert w[i] == w'[i - 1];
        }
      }
    }
  }

  /** The walk has one pixel more than the distance still to go on the dominant axis. */
  lemma {:induction false} WalkLength(e: Ends, c: Cursor)
    requires Reachable(e, c)
    ensures |Walk(e, c)| == MajorRemaining(e, c) + 1
    decreases Remaining(e, c)
  {
    if !AtEnd(e, c) {
      AdvanceStep(e, c);
      WalkLength(e, Advance(e, c));
    } else {
      assert MajorRemaining(e, c) == 0;
    }
  }

  /** Consecutive pixels of the walk are one Bresenham step apart. */
  lemma {:induction false} WalkSteps(e: Ends, c: Cursor)
    requires Reachable(e, c)
    ensures forall i :: 0 <= i < |Walk(e, c)| - 1 ==> IsStep(e, Walk(e, c)[i], Walk(e, c)[i + 1])
    decreases Remaining(e, c)
  {
    if !AtEnd(e, c) {
      AdvanceStep(e, c);
      var n := Advance(e, c);
      WalkSteps(e, n);
      WalkEnds(e, n);
      var w, w' := Walk(e, c), Walk(e, n);
      assert w == [Pixel(c.x, c.y)] + w';
      forall i | 0 <= i < |w| - 1
        ensures IsStep(e, w[i], w[i + 1])
      {
        if i == 0 {
          assert w[1] == w'[0] == Pixel(n.x, n.y);
          assert n.x != c.x || n.y != c.y;
        } else {
          assert w[i] == w'[i - 1] && w[i + 1] == w'[i];
        }
      }
    }
  }

  /**
   * What the loop promises for the whole line: it starts at the first
   * endpoint, ends at the second and meets it nowhere before, takes
   * max(dx, dy) + 1 pixels, and moves by single Bresenham steps.
   */
  lemma LineShape(e: Ends, points: seq<Point>)
    requires points == Line(e)
    ensures |points| == Max(e.Dx(), e.Dy()) + 1
    ensures points[0] == Pixel(e.x1, e.y1)
    ensures points[|points| - 1] == Pixel(e.x2, e.y2)
    ensures forall i :: 0 <= i < |points| - 1 ==> points[i] != points[|points| - 1]
    ensures forall i :: 0 <= i < |points| - 1 ==> IsStep(e, points[i], points[i + 1])
    ensures forall i :: 0 <= i < |points| ==> IsIntegral(points[i])
  {
    StartReachable(e);
    WalkEnds(e, Start(e));
    WalkLength(e, Start(e));
    WalkSteps(e, Start(e));
    WalkInBox(e, Start(e));
  }

  /** A line whose endpoints coincide is that single pixel. */
  lemma SinglePixel(x: int, y: int)
    ensures Line(Ends(x, y, x, y)) == [Pixel(x, y)]
  {
    StartReachable(Ends(x, y, x, y));
  }

  /** The cursors the loop passes through on the line from (0,0) to (5,2). */
  lemma Cursors0502(e: Ends)
    requires e == Ends(0, 0, 5, 2)
    ensures Start(e) == Cursor(0, 0, 3)
    ensures Advance(e, Cursor(0, 0, 3)) == Cursor(1, 0, 1)
    ensures Advance(e, Cursor(1, 0, 1)) == Cursor(2, 1, 4)
    ensures Advance(e, Cursor(2, 1, 4)) == Cursor(3, 1, 2)
    ensures Advance(e, Cursor(3, 1, 2)) == Cursor(4, 2, 5)
    ensures Advance(e, Cursor(4, 2, 5)) == Cursor(5, 2, 3)
  {
    assert e.Dx() == 5 && e.Dy() == 2 && e.Sx() == 1 && e.Sy() == 1;
  }

  /** The walk from a cursor short of the end whose next step brings the end closer. */
  lemma WalkCons(e: Ends, c: Cursor, n: Cursor)
    requires !AtEnd(e, c) && n == Advance(e, c) && Remaining(e, n) < Remaining(e, c)
    ensures Walk(e, c) == [Pixel(c.x, c.y)] + Walk(e, n)
  {
  }

  /** The line from (0,0) to (5,2): x moves every step, y on every other one. */
  lemma {:induction false} Trace0502(e: Ends)
    requires e == Ends(0, 0, 5, 2)
    ensures Line(e) == [Pixel(0, 0), Pixel(1, 0), Pixel(2, 1), Pixel(3, 1), Pixel(4, 2), Pixel(5, 2)]
  {
    Cursors0502(e);
    var c0, c1, c2, c3, c4, c5 := Cursor(0, 0, 3), Cursor(1, 0, 1), Cursor(2, 1, 4), Cursor(3, 1, 2), Cursor(4, 2, 5), Cursor(5, 2, 3);
    WalkCons(e, c0, c1);
    WalkCons(e, c1, c2);
    WalkCons(e, c2, c3);
    WalkCons(e, c3, c4);
    WalkCons(e, c4, c5);
    assert Walk(e, c5) == [Pixel(5, 2)];
  }

  /** The endpoints rounded to whole pixels, ties to even. */
  function Rounded(start: Point, end: Point): Ends
  {
    Ends(Round(start.x), Round(start.y), Round(end.x), Round(end.y))
  }

  /**
   * The rasteriser.  It rounds both endpoints to whole pixels and draws the
   * line between them.
   */
  method CalculatePoints(start: Point, end: Point) returns (points: seq<Point>)
    ensures points == Line(Rounded(start, end))
  {
    points := Rasterise(Rounded(start, end));
  }

  /**
   * The loop of the rasteriser on whole-pixel endpoints: it emits the
   * current pixel, stops once that is the end pixel, and otherwise moves x
   * when 2*err > -dy and y when 2*err < dx (both tests on the error before
   * either update).
   */
  method Rasterise(e: Ends) returns (points: seq<Point>)
    ensures points == Line(e)
  {
    var x1, y1, x2, y2 := e.x1, e.y1, e.x2, e.y2;
    var dx: int := Abs(x2 - x1);
    var dy: int := Abs(y2 - y1);
    var sx := if x1 < x2 then 1 else -1;
    var sy := if y1 < y2 then 1 else -1;
    var err := dx - dy;

    points := [];
    StartReachable(e);
    assert dx == e.Dx() && dy == e.Dy() && sx == e.Sx() && sy == e.Sy();
    ghost var c := Start(e);
    while true
      invariant c == Cursor(x1, y1, err)
      invariant Tracing(e, c, points)
      decreases Remaining(e, c)
    {
      ghost var done := points;
      points := points + [Pixel(x1, y1)];
      if x1 == x2 && y1 == y2 {
        break;
      }
      TracingStep(e, c, done);
      ghost var n := Advance(e, c);
      AdvanceParts(e, c);
      var e2 := 2 * err;
      if e2 > -dy {
        err := err - dy;
        x1 := x1 + sx;
      }
      if e2 < dx {
        err := err + dx;
        y1 := y1 + sy;
      }
      c := n;
    }
  }

  /**
   * The generic entry point: the line from `start` to `end`.  It starts at
   * the rounded start, ends at the rounded end and reaches it nowhere
   * before, has max(dx, dy) + 1 whole-number pixels, and moves by single
   * Bresenham steps.
   */
  method Execute(start: Point, end: Point) returns (points: seq<Point>)
    ensures points == Line(Rounded(start, end))
    ensures |points| == Max(Rounded(start, end).Dx(), Rounded(start, end).Dy()) + 1
    ensures points[0] == Pixel(Round(start.x), Round(start.y))
    ensures points[|points| - 1] == Pixel(Round(end.x), Round(end.y))
    ensures forall i :: 0 <= i < |points| - 1 ==> points[i] != points[|points| - 1]
    ensures forall i :: 0 <= i < |points| - 1 ==> IsStep(Rounded(start, end), points[i], points[i + 1])
    ensures forall i :: 0 <= i < |points| ==> IsIntegral(points[i])
  {
    points := CalculatePoints(start, end);
    LineShape(Rounded(start, end), points);
  }
}
