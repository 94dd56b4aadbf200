/**
 * The circle and ellipse rasterisers compute one octant (or one quadrant)
 * of offsets from the centre and emit every offset together with its
 * mirror images.  This module holds those emitters and the concatenation
 * of their output over a list of offsets.
 */
module Symmetry {
  import opened Geometry

  /** A displacement from the centre of a circle or ellipse. */
  datatype Offset = Offset(x: real, y: real)

  /** The point mirrored across the vertical line through `c`. */
  function FlipX(c: Point, q: Point): Point
  {
    Point(2.0 * c.x - q.x, q.y)
  }

  /** The point mirrored across the horizontal line through `c`. */
  function FlipY(c: Point, q: Point): Point
  {
    Point(q.x, 2.0 * c.y - q.y)
  }

  /** The point mirrored across the diagonal through `c` (its two offsets swapped). */
  function Transpose(c: Point, q: Point): Point
  {
    Point(c.x + (q.y - c.y), c.y + (q.x - c.x))
  }

  /**
   * The eight points the circle rasterisers add for offset `o`, in the
   * order they add them: (x, y), (-x, y), (x, -y), (-x, -y), then the same
   * with x and y swapped.
   */
  function EightWay(c: Point, o: Offset): (r: seq<Point>)
    ensures |r| == 8
    ensures r[0] == Point(c.x + o.x, c.y + o.y)
    ensures r[1] == FlipX(c, r[0]) && r[2] == FlipY(c, r[0]) && r[3] == FlipY(c, r[1])
    ensures r[4] == Transpose(c, r[0]) && r[5] == Transpose(c, r[2])
    ensures r[6] == Transpose(c, r[1]) && r[7] == Transpose(c, r[3])
  {
    [Point(c.x + o.x, c.y + o.y),
     Point(c.x - o.x, c.y + o.y),
     Point(c.x + o.x, c.y - o.y),
     Point(c.x - o.x, c.y - o.y),
     Point(c.x + o.y, c.y + o.x),
     Point(c.x - o.y, c.y + o.x),
     Point(c.x + o.y, c.y - o.x),
     Point(c.x - o.y, c.y - o.x)]
  }

  /** The eight images of an offset are closed under the three mirrors. */
  lemma EightWayClosed(c: Point, o: Offset)
    ensures forall q :: q in EightWay(c, o) ==> FlipX(c, q) in EightWay(c, o) && FlipY(c, q) in EightWay(c, o) && Transpose(c, q) in EightWay(c, o)
  {
    var r := EightWay(c, o);
    forall i | 0 <= i < 8
      ensures FlipX(c, r[i]) in r && FlipY(c, r[i]) in r && Transpose(c, r[i]) in r
    {
      MirrorsOfImage(c, o, i);
    }
  }

  /** Where each mirror sends image i of the eight. */
  lemma MirrorsOfImage(c: Point, o: Offset, i: int)
    requires 0 <= i < 8
    ensures var r := EightWay(c, o);
      FlipX(c, r[i]) in r && FlipY(c, r[i]) in r && Transpose(c, r[i]) in r
  {
    var r := EightWay(c, o);
    if i == 0 { assert FlipX(c, r[0]) == r[1] && FlipY(c, r[0]) == r[2] && Transpose(c, r[0]) == r[4]; }
    else if i == 1 { assert FlipX(c, r[1]) == r[0] && FlipY(c, r[1]) == r[3] && Transpose(c, r[1]) == r[6]; }
    else if i == 2 { assert FlipX(c, r[2]) == r[3] && FlipY(c, r[2]) == r[0] && Transpose(c, r[2]) == r[5]; }
    else if i == 3 { assert FlipX(c, r[3]) == r[2] && FlipY(c, r[3]) == r[1] && Transpose(c, r[3]) == r[7]; }
    else if i == 4 { assert FlipX(c, r[4]) == r[5] && FlipY(c, r[4]) == r[6] && Transpose(c, r[4]) == r[0]; }
    else if i == 5 { assert FlipX(c, r[5]) == r[4] && FlipY(c, r[5]) == r[7] && Transpose(c, r[5]) == r[2]; }
    else if i == 6 { assert FlipX(c, r[6]) == r[7] && FlipY(c, r[6]) == r[4] && Transpose(c, r[6]) == r[1]; }
    else { assert FlipX(c, r[7]) == r[6] && FlipY(c, r[7]) == r[5] && Transpose(c, r[7]) == r[3]; }
  }

  /**
   * The four points the ellipse rasteriser adds for offset `o`, in the
   * order it adds them: (x, y), (-x, y), (x, -y), (-x, -y).
   */
  function FourWay(c: Point, o: Offset): (r: seq<Point>)
    ensures |r| == 4
    ensures r[0] == Point(c.x + o.x, c.y + o.y)
    ensures r[1] == FlipX(c, r[0]) && r[2] == FlipY(c, r[0]) && r[3] == FlipY(c, r[1])
  {
    [Point(c.x + o.x, c.y + o.y),
     Point(c.x - o.x, c.y + o.y),
     Point(c.x + o.x, c.y - o.y),
     Point(c.x - o.x, c.y - o.y)]
  }

  /** The points emitted for a list of offsets, eight per offset, in order. */
  function PlotEight(c: Point, offsets: seq<Offset>): seq<Point>
  {
    if offsets == [] then []
    else PlotEight(c, offsets[..|offsets| - 1]) + EightWay(c, offsets[|offsets| - 1])
  }

  /** The points emitted for a list of offsets, four per offset, in order. */
  function PlotFour(c: Point, offsets: seq<Offset>): seq<Point>
  {
    if offsets == [] then []
    else PlotFour(c, offsets[..|offsets| - 1]) + FourWay(c, offsets[|offsets| - 1])
  }

  /** Emitting one more offset appends its eight images. */
  lemma PlotEightSnoc(c: Point, offsets: seq<Offset>, o: Offset)
    ensures PlotEight(c, offsets + [o]) == PlotEight(c, offsets) + EightWay(c, o)
  {
    assert (offsets + [o])[..|offsets|] == offsets;
  }

  /** Emitting one more offset appends its four images. */
  lemma PlotFourSnoc(c: Point, offsets: seq<Offset>, o: Offset)
    ensures PlotFour(c, offsets + [o]) == PlotFour(c, offsets) + FourWay(c, o)
  {
    assert (offsets + [o])[..|offsets|] == offsets;
  }

  /** Eight points per offset. */
  lemma {:induction false} PlotEightLength(c: Point, offsets: seq<Offset>)
    ensures |PlotEight(c, offsets)| == 8 * |offsets|
    decreases |offsets|
  {
    if offsets != [] {
      PlotEightLength(c, offsets[..|offsets| - 1]);
    }
  }

  /** Four points per offset. */
  lemma {:induction false} PlotFourLength(c: Point, offsets: seq<Offset>)
    ensures |PlotFour(c, offsets)| == 4 * |offsets|
    decreases |offsets|
  {
    if offsets != [] {
      PlotFourLength(c, offsets[..|offsets| - 1]);
    }
  }

  /** Block k of the eight-way output is the eight images of offset k. */
  lemma {:induction false} PlotEightBlock(c: Point, offsets: seq<Offset>, k: nat)
    requires k < |offsets|
    ensures |PlotEight(c, offsets)| == 8 * |offsets|
    ensures PlotEight(c, offsets)[8 * k .. 8 * k + 8] == EightWay(c, offsets[k])
    decreases |offsets|
  {
    PlotEightLength(c, offsets);
    var init := offsets[..|offsets| - 1];
    PlotEightLength(c, init);
    var a, b := PlotEight(c, init), EightWay(c, offsets[|offsets| - 1]);
    assert PlotEight(c, offsets) == a + b;
    if k < |init| {
      PlotEightBlock(c, init, k);
      assert (a + b)[8 * k .. 8 * k + 8] == a[8 * k .. 8 * k + 8];
    } else {
      assert (a + b)[8 * k .. 8 * k + 8] == b;
    }
  }

  /** Block k of the four-way output is the four images of offset k. */
  lemma {:induction false} PlotFourBlock(c: Point, offsets: seq<Offset>, k: nat)
    requires k < |offsets|
    ensures |PlotFour(c, offsets)| == 4 * |offsets|
    ensures PlotFour(c, offsets)[4 * k .. 4 * k + 4] == FourWay(c, offsets[k])
    decreases |offsets|
  {
    PlotFourLength(c, offsets);
    var init := offsets[..|offsets| - 1];
    PlotFourLength(c, init);
    var a, b := PlotFour(c, init), FourWay(c, offsets[|offsets| - 1]);
    assert PlotFour(c, offsets) == a + b;
    if k < |init| {
      PlotFourBlock(c, init, k);
      assert (a + b)[4 * k .. 4 * k + 4] == a[4 * k .. 4 * k + 4];
    } else {
      assert (a + b)[4 * k .. 4 * k + 4] == b;
    }
  }

  /** Every point of the eight-way output comes with its three mirror images. */
  lemma {:induction false} PlotEightClosed(c: Point, offsets: seq<Offset>)
    ensures forall q :: q in PlotEight(c, offsets) ==>
      FlipX(c, q) in PlotEight(c, offsets) && FlipY(c, q) in PlotEight(c, offsets) && Transpose(c, q) in PlotEight(c, offsets)
    decreases |offsets|
  {
    if offsets != [] {
      var init, last := offsets[..|offsets| - 1], offsets[|offsets| - 1];
      PlotEightClosed(c, init);
      var a, b := PlotEight(c, init), EightWay(c, last);
      forall q | q in a + b
        ensures FlipX(c, q) in a + b && FlipY(c, q) in a + b && Transpose(c, q) in a + b
      {
        EightWayClosed(c, last);
      }
    }
  }

  /** Every point of the four-way output comes with its two axis mirror images. */
  lemma {:induction false} PlotFourClosed(c: Point, offsets: seq<Offset>)
    ensures forall q :: q in PlotFour(c, offsets) ==>
      FlipX(c, q) in PlotFour(c, offsets) && FlipY(c, q) in PlotFour(c, offsets)
    decreases |offsets|
  {
    if offsets != [] {
      var init, last := offsets[..|offsets| - 1], offsets[|offsets| - 1];
      PlotFourClosed(c, init);
      var a, b := PlotFour(c, init), FourWay(c, last);
      forall q | q in a + b
        ensures FlipX(c, q) in a + b && FlipY(c, q) in a + b
      {
        if q in b {
          var i :| 0 <= i < 4 && b[i] == q;
          assert FlipX(c, q) in b && FlipY(c, q) in b;
        }
      }
    }
  }
}
