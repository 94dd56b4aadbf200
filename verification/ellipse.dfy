/**
 * The two-region midpoint ellipse rasteriser on real-valued coordinates.
 * Region 1 starts at offset (0, ry) and moves one unit right per step,
 * stepping down when its decision value says so, while the slope term
 * px = 2*ry^2*x stays below py = 2*rx^2*y.  Region 2 then moves one unit
 * down per step, stepping right when its decision value says so, until y
 * reaches 0.  Every offset is emitted with its three mirror images.
 */
module Ellipse {
  import opened Geometry
  import opened Symmetry

  /** The two radii and the squares the loops use. */
  datatype Radii = Radii(rx: real, ry: real) {
    function Rx2(): real { rx * rx }
    function Ry2(): real { ry * ry }
    function TwoRx2(): real { 2.0 * Rx2() }
    function TwoRy2(): real { 2.0 * Ry2() }
  }

  /** The loops' variables. */
  datatype State = State(x: real, y: real, p: real, px: real, py: real)

  function Start(e: Radii): State
  {
    State(0.0, e.ry, e.Ry2() - e.Rx2() * e.ry + 0.25 * e.Rx2(), 0.0, e.TwoRx2() * e.ry)
  }

  /** One pass of the region 1 loop body. */
  function Next1(e: Radii, s: State): State
  {
    var x, px := s.x + 1.0, s.px + e.TwoRy2();
    if s.p < 0.0 then State(x, s.y, s.p + e.Ry2() + px, px, s.py)
    else
      var py := s.py - e.TwoRx2();
      State(x, s.y - 1.0, s.p + e.Ry2() + px - py, px, py)
  }

  /** The decision value region 2 starts from, at the point where region 1 stopped. */
  function Reset(e: Radii, s: State): State
  {
    s.(p := e.Ry2() * (s.x + 0.5) * (s.x + 0.5) + e.Rx2() * (s.y - 1.0) * (s.y - 1.0) - e.Rx2() * e.Ry2())
  }

  /** One pass of the region 2 loop body. */
  function Next2(e: Radii, s: State): State
  {
    var y, py := s.y - 1.0, s.py - e.TwoRx2();
    if s.p > 0.0 then State(s.x, y, s.p + e.Rx2() - py, s.px, py)
    else
      var px := s.px + e.TwoRy2();
      State(s.x + 1.0, y, s.p + e.Rx2() - py + px, px, py)
  }

  /** How many more region 1 steps can fit before px catches up with py. */
  function Budget1(e: Radii, s: State): int
  {
    if 0.0 < e.TwoRy2() then ((s.py - s.px) / e.TwoRy2()).Floor else 0
  }

  lemma FloorDivDrop(a: real, b: real, t: real)
    requires 0.0 < t && b <= a - t
    ensures (b / t).Floor < (a / t).Floor
  {
    var d := a / t - b / t;
    assert d * t == a - b;
    assert (d - 1.0) * t >= 0.0;
  }

  /** A region 1 step with px < py uses up one unit of the budget, and the budget was not negative. */
  lemma Budget1Drop(e: Radii, s: State)
    requires s.px < s.py && 0.0 < e.TwoRy2()
    ensures 0 <= Budget1(e, s)
    ensures Budget1(e, Next1(e, s)) < Budget1(e, s)
  {
    var t, a := e.TwoRy2(), s.py - s.px;
    var n := Next1(e, s);
    SquareNonneg(e.rx, e.Rx2());
    FloorDivDrop(a, n.py - n.px, t);
    assert (a / t) * t == a;
  }

  /**
   * The states of region 1 from `s` on: `s`, then one per iteration while
   * px < py.  The second test, that 2*ry^2 is positive, never fails on a
   * state the loop reaches with px < py (Region1Guard).
   */
  function Region1(e: Radii, s: State): seq<State>
    decreases Budget1(e, s) + 1
  {
    if s.px < s.py && 0.0 < e.TwoRy2() then
      Budget1Drop(e, s);
      [s] + Region1(e, Next1(e, s))
    else [s]
  }

  /** The states region 2 emits from `s` on: one per iteration while y > 0. */
  function Region2(e: Radii, s: State): seq<State>
    decreases s.y.Floor + 1
  {
    if s.y > 0.0 then [Next2(e, s)] + Region2(e, Next2(e, s)) else []
  }

  function OffsetOf(s: State): Offset
  {
    Offset(s.x, s.y)
  }

  function Offsets(states: seq<State>): (r: seq<Offset>)
    ensures |r| == |states|
  {
    seq(|states|, i requires 0 <= i < |states| => OffsetOf(states[i]))
  }

  /** The state region 1 stops in. */
  function Boundary(e: Radii): State
  {
    var r1 := Region1(e, Start(e));
    r1[|r1| - 1]
  }

  /** The quadrant of offsets for the radii: region 1's, then region 2's. */
  function Quadrant(e: Radii): seq<Offset>
  {
    Offsets(Region1(e, Start(e))) + Offsets(Region2(e, Reset(e, Boundary(e))))
  }

  /** The whole output for centre `c`: four points per quadrant offset. */
  function Ellipse(c: Point, rx: real, ry: real): seq<Point>
  {
    PlotFour(c, Quadrant(Radii(rx, ry)))
  }

  /**
   * The slope terms: px is 2*ry^2*x and py is 2*rx^2*y; x is not negative
   * and y has not risen above ry.
   */
  ghost predicate Inv(e: Radii, s: State)
  {
    && 0.0 <= s.x && s.y <= e.ry
    && s.px == e.TwoRy2() * s.x && s.py == e.TwoRx2() * s.y
  }

  lemma StartInv(e: Radii)
    ensures Inv(e, Start(e))
  {
  }

  /** On a state of the loop, px < py can only hold when 2*ry^2 is positive. */
  lemma Region1Guard(e: Radii, s: State)
    requires Inv(e, s) && s.px < s.py
    ensures 0.0 < e.TwoRy2()
  {
    SlopeSigns(e, s);
    SquarePos(e.ry, e.Ry2());
  }

  /** The slope terms have the signs of x and y. */
  lemma SlopeSigns(e: Radii, s: State)
    requires Inv(e, s)
    ensures 0.0 <= e.Rx2() && 0.0 <= e.Ry2() && 0.0 <= s.px
    ensures s.y <= 0.0 ==> s.py <= 0.0
    ensures 0.0 <= s.y ==> 0.0 <= s.py
  {
    SquareNonneg(e.rx, e.Rx2());
    SquareNonneg(e.ry, e.Ry2());
    ProductSign(e.TwoRy2(), s.x, s.px);
    ProductSign(e.TwoRx2(), s.y, s.py);
  }

  lemma SquareNonneg(r: real, s: real)
    requires s == r * r
    ensures 0.0 <= s
  {
    calc {
      s;
      r * r;
    >=
      0.0;
    }
  }

  lemma SquarePos(r: real, s: real)
    requires s == r * r
    ensures r != 0.0 ==> 0.0 < s
  {
    if r != 0.0 {
      calc {
        s;
        r * r;
      >
        0.0;
      }
    }
  }

  /** The sign of a product with a non-negative factor follows the other factor. */
  lemma ProductSign(a: real, b: real, m: real)
    requires 0.0 <= a && m == a * b
    ensures 0.0 <= b ==> 0.0 <= m
    ensures b <= 0.0 ==> m <= 0.0
  {
    if 0.0 <= b {
      calc {
        m;
        a * b;
      >=
        0.0;
      }
    }
    if b <= 0.0 {
      calc {
        m;
        a * b;
      <=
        0.0;
      }
    }
  }

  /** A region 1 step moves x right by one and y down by 0 or 1, and keeps the slope terms. */
  lemma Next1Inv(e: Radii, s: State)
    requires Inv(e, s)
    ensures Next1(e, s).x == s.x + 1.0
    ensures Next1(e, s).y == s.y || Next1(e, s).y == s.y - 1.0
    ensures Inv(e, Next1(e, s))
  {
    assert e.TwoRy2() * (s.x + 1.0) == e.TwoRy2() * s.x + e.TwoRy2();
    assert e.TwoRx2() * (s.y - 1.0) == e.TwoRx2() * s.y - e.TwoRx2();
  }

  /** A region 2 step moves y down by one and x right by 0 or 1, and keeps the slope terms. */
  lemma Next2Inv(e: Radii, s: State)
    requires Inv(e, s)
    ensures Next2(e, s).y == s.y - 1.0
    ensures Next2(e, s).x == s.x || Next2(e, s).x == s.x + 1.0
    ensures Inv(e, Next2(e, s))
  {
    assert e.TwoRy2() * (s.x + 1.0) == e.TwoRy2() * s.x + e.TwoRy2();
    assert e.TwoRx2() * (s.y - 1.0) == e.TwoRx2() * s.y - e.TwoRx2();
  }

  /**
   * Along region 1 from a state of the loop: every state keeps the slope
   * terms; x grows by one per step and y drops by 0 or 1; every state but
   * the last has px < py, i.e. ry^2*x < rx^2*y, and the last has
   * ry^2*x >= rx^2*y.
   */
  lemma {:induction false} Region1Shape(e: Radii, s: State)
    requires Inv(e, s)
    ensures Region1(e, s)[0] == s
    ensures forall k :: 0 <= k < |Region1(e, s)| ==> Inv(e, Region1(e, s)[k])
    ensures forall k :: 0 <= k < |Region1(e, s)| - 1 ==>
      Region1(e, s)[k + 1].x == Region1(e, s)[k].x + 1.0 &&
      (Region1(e, s)[k + 1].y == Region1(e, s)[k].y || Region1(e, s)[k + 1].y == Region1(e, s)[k].y - 1.0)
    ensures forall k :: 0 <= k < |Region1(e, s)| - 1 ==> Region1(e, s)[k].px < Region1(e, s)[k].py
    ensures Region1(e, s)[|Region1(e, s)| - 1].px >= Region1(e, s)[|Region1(e, s)| - 1].py
    decreases Budget1(e, s) + 1
  {
    if s.px < s.py {
      Region1Guard(e, s);
      Budget1Drop(e, s);
      var n := Next1(e, s);
      Next1Inv(e, s);
      Region1Shape(e, n);
      var w, w' := Region1(e, s), Region1(e, n);
      assert w == [s] + w';
      forall k | 0 <= k < |w|
        ensures Inv(e, w[k])
      {
        if k > 0 { assert w[k] == w'[k - 1]; }
      }
      forall k | 0 <= k < |w| - 1
        ensures w[k + 1].x == w[k].x + 1.0 && (w[k + 1].y == w[k].y || w[k + 1].y == w[k].y - 1.0) && w[k].px < w[k].py
      {
        if k > 0 { assert w[k] == w'[k - 1] && w[k + 1] == w'[k]; }
      }
    }
  }

  /**
   * Along region 2 from a state of the loop: every state keeps the slope
   * terms; the k-th has y one below the (k-1)-th (the first one below `s`)
   * and x the same or one more; and when y was positive the last one has
   * -1 < y <= 0.
   */
  lemma {:induction false} Region2Shape(e: Radii, s: State)
    requires Inv(e, s)
    ensures forall k :: 0 <= k < |Region2(e, s)| ==> Inv(e, Region2(e, s)[k])
    ensures forall k :: 0 <= k < |Region2(e, s)| ==> Region2(e, s)[k].y == s.y - (k + 1) as real
    ensures forall k :: 0 < k < |Region2(e, s)| ==>
      Region2(e, s)[k].x == Region2(e, s)[k - 1].x || Region2(e, s)[k].x == Region2(e, s)[k - 1].x + 1.0
    ensures Region2(e, s) != [] ==> (Region2(e, s)[0].x == s.x || Region2(e, s)[0].x == s.x + 1.0)
    ensures s.y > 0.0 <==> Region2(e, s) != []
    ensures Region2(e, s) != [] ==> -1.0 < Region2(e, s)[|Region2(e, s)| - 1].y <= 0.0
    decreases s.y.Floor + 1
  {
    if s.y > 0.0 {
      var n := Next2(e, s);
      Next2Inv(e, s);
      Region2Shape(e, n);
      var w, w' := Region2(e, s), Region2(e, n);
      assert w == [n] + w';
      forall k | 0 <= k < |w|
        ensures Inv(e, w[k]) && w[k].y == s.y - (k + 1) as real
      {
        if k > 0 { assert w[k] == w'[k - 1]; }
      }
      forall k | 0 < k < |w|
        ensures w[k].x == w[k - 1].x || w[k].x == w[k - 1].x + 1.0
      {
        if k > 1 { assert w[k] == w'[k - 1] && w[k - 1] == w'[k - 2]; }
      }
    }
  }

  /**
   * The quadrant starts at (0, ry), and region 1 stops where the slope
   * reaches -1: at the boundary ry^2*x >= rx^2*y, while every earlier
   * region 1 state has ry^2*x < rx^2*y.
   */
  lemma QuadrantStart(e: Radii)
    ensures Quadrant(e)[0] == Offset(0.0, e.ry)
    ensures Inv(e, Boundary(e)) && Boundary(e).px >= Boundary(e).py
  {
    StartInv(e);
    Region1Shape(e, Start(e));
  }

  /** A whole number. */
  predicate Whole(r: real)
  {
    r.Floor as real == r
  }

  /**
   * A region 1 step from a state with px < py and a whole, non-negative y
   * keeps y whole and non-negative: py > px >= 0 forces y >= 1.
   */
  lemma WholeStep(e: Radii, s: State)
    requires Inv(e, s) && Whole(s.y) && s.y >= 0.0 && s.px < s.py
    ensures Whole(Next1(e, s).y) && Next1(e, s).y >= 0.0
  {
    SlopeSigns(e, s);
    assert (s.y - 1.0).Floor == s.y.Floor - 1;
  }

  /** With a whole, non-negative y to start from, region 1 never takes y below zero. */
  lemma {:induction false} Region1Whole(e: Radii, s: State)
    requires Inv(e, s) && Whole(s.y) && s.y >= 0.0
    ensures forall k :: 0 <= k < |Region1(e, s)| ==> Whole(Region1(e, s)[k].y) && Region1(e, s)[k].y >= 0.0
    decreases Budget1(e, s) + 1
  {
    if s.px < s.py {
      Region1Guard(e, s);
      Budget1Drop(e, s);
      var n := Next1(e, s);
      Next1Inv(e, s);
      WholeStep(e, s);
      Region1Whole(e, n);
      var w, w' := Region1(e, s), Region1(e, n);
      assert w == [s] + w';
      forall k | 0 <= k < |w|
        ensures Whole(w[k].y) && w[k].y >= 0.0
      {
        if k > 0 { assert w[k] == w'[k - 1]; }
      }
    }
  }

  /** From a whole, non-negative y, region 2 ends on the x axis (or never starts, being on it already). */
  lemma Region2OnAxis(e: Radii, b: State)
    requires Inv(e, b) && Whole(b.y) && b.y >= 0.0
    ensures Region2(e, b) == [] ==> b.y == 0.0
    ensures Region2(e, b) != [] ==> Region2(e, b)[|Region2(e, b)| - 1].y == 0.0
  {
    Region2Shape(e, b);
    var r2 := Region2(e, b);
    if r2 != [] {
      var k := |r2| - 1;
      assert r2[k].y == b.y - (k + 1) as real;
      assert (b.y - (k + 1) as real).Floor == b.y.Floor - (k + 1);
    }
  }

  /** The boundary state of region 1 keeps the slope terms and, from a whole ry >= 0, a whole y >= 0. */
  lemma BoundaryWhole(e: Radii)
    requires Whole(e.ry) && e.ry >= 0.0
    ensures Inv(e, Boundary(e)) && Whole(Boundary(e).y) && Boundary(e).y >= 0.0
  {
    StartInv(e);
    Region1Shape(e, Start(e));
    Region1Whole(e, Start(e));
  }

  /** With a whole, non-negative ry the last offset emitted lies on the x axis. */
  lemma LastOnAxis(e: Radii)
    requires Whole(e.ry) && e.ry >= 0.0
    ensures Quadrant(e)[|Quadrant(e)| - 1].y == 0.0
  {
    var b := Boundary(e);
    BoundaryWhole(e);
    var b' := Reset(e, b);
    Region2OnAxis(e, b');
    var r1, r2 := Region1(e, Start(e)), Region2(e, b');
    var q, o1, o2 := Quadrant(e), Offsets(r1), Offsets(r2);
    if r2 == [] {
      assert q == o1;
      LastOffset(r1);
    } else {
      assert q[|q| - 1] == o2[|o2| - 1];
      LastOffset(r2);
    }
  }

  /** The last offset of a non-empty run of states is the last state's. */
  lemma LastOffset(states: seq<State>)
    requires states != []
    ensures Offsets(states)[|states| - 1] == OffsetOf(states[|states| - 1])
  {
  }

  /** With ry = 0 both loops are skipped: four copies of the centre. */
  lemma ZeroRy(c: Point, rx: real)
    ensures Ellipse(c, rx, 0.0) == [c, c, c, c]
  {
    var e := Radii(rx, 0.0);
    var s := Start(e);
    assert Region1(e, s) == [s];
    assert Region2(e, Reset(e, s)) == [];
    assert Quadrant(e) == [Offset(0.0, 0.0)];
    PlotFourSnoc(c, [], Offset(0.0, 0.0));
  }

  /** With rx = 0 the decision value stays positive in region 2, so x never moves. */
  lemma {:induction false} Region2Upright(e: Radii, s: State)
    requires e.rx == 0.0 && s.x == 0.0 && s.py == 0.0 && s.p == e.Ry2() * 0.25
    requires s.p > 0.0 || s.y <= 0.0
    ensures forall k :: 0 <= k < |Region2(e, s)| ==> Region2(e, s)[k].x == 0.0
    decreases s.y.Floor + 1
  {
    if s.y > 0.0 {
      var n := Next2(e, s);
      assert n.x == 0.0 && n.py == 0.0 && n.p == s.p;
      Region2Upright(e, n);
      var w, w' := Region2(e, s), Region2(e, n);
      assert w == [n] + w';
      forall k | 0 <= k < |w|
        ensures w[k].x == 0.0
      {
        if k > 0 { assert w[k] == w'[k - 1]; }
      }
    }
  }

  /** With rx = 0 region 1 stops where it starts: on the y axis, with no slope term. */
  lemma UprightBoundary(ry: real)
    ensures var b := Boundary(Radii(0.0, ry)); b.x == 0.0 && b.y == ry && b.py == 0.0
  {
    var e := Radii(0.0, ry);
    assert e.Rx2() == 0.0;
    assert e.TwoRx2() == 0.0;
    var s := Start(e);
    assert s.px == 0.0 && s.py == 0.0;
    assert Region1(e, s) == [s];
  }

  /** With rx = 0 the reset decision value on the y axis is ry^2/4. */
  lemma UprightReset(e: Radii, s: State)
    requires e.rx == 0.0 && s.x == 0.0
    ensures Reset(e, s).p == e.Ry2() * 0.25
  {
    assert e.Rx2() == 0.0;
    assert e.Ry2() * (s.x + 0.5) * (s.x + 0.5) == e.Ry2() * 0.25;
  }

  /** With rx = 0 region 2 starts at x = 0 with no slope term and a decision value of ry^2/4. */
  lemma UprightStart(ry: real)
    ensures var e := Radii(0.0, ry); var b := Reset(e, Boundary(e));
      b.x == 0.0 && b.py == 0.0 && b.p == e.Ry2() * 0.25 && (b.p > 0.0 || b.y <= 0.0)
  {
    var e := Radii(0.0, ry);
    UprightBoundary(ry);
    UprightReset(e, Boundary(e));
    if ry != 0.0 {
      SquarePos(ry, e.Ry2());
    }
  }

  /** With rx = 0 every offset has x = 0: the output is a vertical segment through the centre. */
  lemma ZeroRx(ry: real)
    ensures forall k :: 0 <= k < |Quadrant(Radii(0.0, ry))| ==> Quadrant(Radii(0.0, ry))[k].x == 0.0
  {
    var e := Radii(0.0, ry);
    var s := Start(e);
    assert Region1(e, s) == [s];
    UprightStart(ry);
    Region2Upright(e, Reset(e, Boundary(e)));
  }

  /**
   * The loop invariant of region 1: `done` are the states before `s` on
   * region 1, and `points` holds the four images of each of them and of `s`.
   */
  ghost predicate Emitted1(c: Point, e: Radii, done: seq<State>, s: State, points: seq<Point>)
  {
    && Inv(e, s)
    && done + Region1(e, s) == Region1(e, Start(e))
    && points == PlotFour(c, Offsets(done + [s]))
  }

  /** The offsets of one more state are the offsets so far and its own. */
  lemma OffsetsSnoc(states: seq<State>, t: State)
    ensures Offsets(states + [t]) == Offsets(states) + [OffsetOf(t)]
  {
    var a, b := Offsets(states + [t]), Offsets(states) + [OffsetOf(t)];
    forall i | 0 <= i < |a|
      ensures a[i] == b[i]
    {
    }
  }

  /** A state that passes the region 1 test moves from the states still to come to the states done. */
  lemma Region1On(e: Radii, done: seq<State>, s: State)
    requires s.px < s.py && 0.0 < e.TwoRy2()
    ensures done + Region1(e, s) == (done + [s]) + Region1(e, Next1(e, s))
  {
    var n := Next1(e, s);
    Region1Unfold(e, s);
    assert done + ([s] + Region1(e, n)) == (done + [s]) + Region1(e, n);
  }

  /** Region 1 from a state that passes its test is that state, then region 1 from the next. */
  lemma Region1Unfold(e: Radii, s: State)
    requires s.px < s.py && 0.0 < e.TwoRy2()
    ensures Region1(e, s) == [s] + Region1(e, Next1(e, s))
  {
  }

  /** A state that passes the region 2 test moves the next state from the states still to come to the states done. */
  lemma Region2On(e: Radii, done: seq<State>, s: State)
    requires s.y > 0.0
    ensures done + Region2(e, s) == (done + [Next2(e, s)]) + Region2(e, Next2(e, s))
  {
    assert Region2(e, s) == [Next2(e, s)] + Region2(e, Next2(e, s));
  }

  /** One region 1 iteration keeps the loop invariant. */
  lemma Emit1Step(c: Point, e: Radii, done: seq<State>, s: State, points: seq<Point>)
    requires Emitted1(c, e, done, s, points) && s.px < s.py
    ensures Emitted1(c, e, done + [s], Next1(e, s), points + FourWay(c, OffsetOf(Next1(e, s))))
    ensures 0 <= Budget1(e, s) && Budget1(e, Next1(e, s)) < Budget1(e, s)
  {
    Region1Guard(e, s);
    Budget1Drop(e, s);
    Next1Inv(e, s);
    var n := Next1(e, s);
    Region1On(e, done, s);
    OffsetsSnoc(done + [s], n);
    PlotFourSnoc(c, Offsets(done + [s]), OffsetOf(n));
  }

  /**
   * The loop invariant of region 2: `done` are the states region 2 has
   * emitted before reaching `s`, and `points` holds the four images of every
   * region 1 state and of each of them.
   */
  ghost predicate Emitted2(c: Point, e: Radii, done: seq<State>, s: State, points: seq<Point>)
  {
    && done + Region2(e, s) == Region2(e, Reset(e, Boundary(e)))
    && points == PlotFour(c, Offsets(Region1(e, Start(e))) + Offsets(done))
  }

  /** Region 1 done: the points so far are those of region 1, and region 2 has emitted nothing yet. */
  lemma Emit2Start(c: Point, e: Radii, done: seq<State>, s: State, points: seq<Point>)
    requires Emitted1(c, e, done, s, points) && !(s.px < s.py)
    ensures Emitted2(c, e, [], Reset(e, s), points)
  {
    assert Region1(e, s) == [s];
    assert Offsets(Region1(e, Start(e))) + Offsets([]) == Offsets(done + [s]);
  }

  /** One region 2 iteration keeps the loop invariant. */
  lemma Emit2Step(c: Point, e: Radii, done: seq<State>, s: State, points: seq<Point>)
    requires Emitted2(c, e, done, s, points) && s.y > 0.0
    ensures Emitted2(c, e, done + [Next2(e, s)], Next2(e, s), points + FourWay(c, OffsetOf(Next2(e, s))))
  {
    var n := Next2(e, s);
    var r1 := Offsets(Region1(e, Start(e)));
    Region2On(e, done, s);
    OffsetsSnoc(done, n);
    PlotFourSnoc(c, r1 + Offsets(done), OffsetOf(n));
    assert r1 + Offsets(done) + [OffsetOf(n)] == r1 + Offsets(done + [n]);
  }

  /** The loop's constants, as the rasteriser computes them once from the radii. */
  predicate Constants(e: Radii, rx2: real, ry2: real, twoRx2: real, twoRy2: real)
  {
    rx2 == e.Rx2() && ry2 == e.Ry2() && twoRx2 == e.TwoRx2() && twoRy2 == e.TwoRy2()
  }

  /** The region 1 update spelled out on the rasteriser's constants. */
  lemma Next1Parts(e: Radii, s: State, rx2: real, ry2: real, twoRx2: real, twoRy2: real)
    requires Constants(e, rx2, ry2, twoRx2, twoRy2)
    ensures Next1(e, s) ==
      if s.p < 0.0 then State(s.x + 1.0, s.y, s.p + ry2 + (s.px + twoRy2), s.px + twoRy2, s.py)
      else State(s.x + 1.0, s.y - 1.0, s.p + ry2 + (s.px + twoRy2) - (s.py - twoRx2), s.px + twoRy2, s.py - twoRx2)
  {
  }

  /** The region 2 update spelled out on the rasteriser's constants. */
  lemma Next2Parts(e: Radii, s: State, rx2: real, ry2: real, twoRx2: real, twoRy2: real)
    requires Constants(e, rx2, ry2, twoRx2, twoRy2)
    ensures Next2(e, s) ==
      if s.p > 0.0 then State(s.x, s.y - 1.0, s.p + rx2 - (s.py - twoRx2), s.px, s.py - twoRx2)
      else State(s.x + 1.0, s.y - 1.0, s.p + rx2 - (s.py - twoRx2) + (s.px + twoRy2), s.px + twoRy2, s.py - twoRx2)
  {
  }

  /** The region 2 starting value spelled out on the rasteriser's constants. */
  lemma ResetParts(e: Radii, s: State, x: real, y: real, p: real, rx2: real, ry2: real, twoRx2: real, twoRy2: real)
    requires Constants(e, rx2, ry2, twoRx2, twoRy2)
    requires s.x == x && s.y == y && p == ry2 * (x + 0.5) * (x + 0.5) + rx2 * (y - 1.0) * (y - 1.0) - rx2 * ry2
    ensures Reset(e, s) == s.(p := p)
  {
  }

  /** Once region 2's test fails the points are the whole ellipse. */
  lemma Emit2Done(c: Point, e: Radii, done: seq<State>, s: State, points: seq<Point>)
    requires Emitted2(c, e, done, s, points) && !(s.y > 0.0)
    ensures points == Ellipse(c, e.rx, e.ry)
  {
    assert Region2(e, s) == [];
    assert Radii(e.rx, e.ry) == e;
    assert Quadrant(e) == Offsets(Region1(e, Start(e))) + Offsets(done);
  }

  /** The rasteriser for a centre and two radii. */
  method CalculatePoints(center: Point, radiusX: real, radiusY: real) returns (points: seq<Point>)
    ensures points == Ellipse(center, radiusX, radiusY)
  {
    var rx2 := radiusX * radiusX;
    var ry2 := radiusY * radiusY;
    var twoRx2 := 2.0 * rx2;
    var twoRy2 := 2.0 * ry2;
    var x := 0.0;
    var y := radiusY;
    var px := 0.0;
    var py := twoRx2 * y;
    var p := ry2 - (rx2 * radiusY) + (0.25 * rx2);
    points := FourWay(center, Offset(x, y));

    ghost var e := Radii(radiusX, radiusY);
    assert Constants(e, rx2, ry2, twoRx2, twoRy2);
    ghost var s := Start(e);
    ghost var done: seq<State> := [];
    StartInv(e);
    while px < py
      invariant s == State(x, y, p, px, py)
      invariant Emitted1(center, e, done, s, points)
      decreases Budget1(e, s)
    {
      Emit1Step(center, e, done, s, points);
      Next1Parts(e, s, rx2, ry2, twoRx2, twoRy2);
      x := x + 1.0;
      px := px + twoRy2;
      if p < 0.0 {
        p := p + ry2 + px;
      } else {
        y := y - 1.0;
        py := py - twoRx2;
        p := p + ry2 + px - py;
      }
      points := points + FourWay(center, Offset(x, y));
      done, s := done + [s], Next1(e, s);
    }

    Emit2Start(center, e, done, s, points);
    p := ry2 * (x + 0.5) * (x + 0.5) + rx2 * (y - 1.0) * (y - 1.0) - rx2 * ry2;
    ResetParts(e, s, x, y, p, rx2, ry2, twoRx2, twoRy2);
    s, done := Reset(e, s), [];
    while y > 0.0
      invariant s == State(x, y, p, px, py)
      invariant Emitted2(center, e, done, s, points)
      decreases y.Floor + 1
    {
      Emit2Step(center, e, done, s, points);
      Next2Parts(e, s, rx2, ry2, twoRx2, twoRy2);
      y := y - 1.0;
      py := py - twoRx2;
      if p > 0.0 {
        p := p + rx2 - py;
      } else {
        x := x + 1.0;
        px := px + twoRy2;
        p := p + rx2 - py + px;
      }
      points := points + FourWay(center, Offset(x, y));
      done, s := done + [Next2(e, s)], Next2(e, s);
    }
    Emit2Done(center, e, done, s, points);
  }

  /** The generic entry point: the radii are the horizontal and vertical distances from `start` to `end`. */
  method Execute(start: Point, end: Point) returns (points: seq<Point>)
    ensures points == Ellipse(start, AbsReal(end.x - start.x), AbsReal(end.y - start.y))
  {
    points := CalculatePoints(start, AbsReal(end.x - start.x), AbsReal(end.y - start.y));
  }

  /**
   * What the rasteriser promises outright: four points per quadrant offset,
   * the first four being the images of offset (0, ry), and every point comes
   * with its mirror images across the vertical and the horizontal through
   * the centre.
   */
  lemma EllipseShape(c: Point, rx: real, ry: real)
    ensures |Ellipse(c, rx, ry)| == 4 * |Quadrant(Radii(rx, ry))| && |Quadrant(Radii(rx, ry))| >= 1
    ensures Ellipse(c, rx, ry)[..4] == FourWay(c, Offset(0.0, ry))
    ensures forall q :: q in Ellipse(c, rx, ry) ==> FlipX(c, q) in Ellipse(c, rx, ry) && FlipY(c, q) in Ellipse(c, rx, ry)
  {
    var o := Quadrant(Radii(rx, ry));
    QuadrantStart(Radii(rx, ry));
    PlotFourBlock(c, o, 0);
    PlotFourClosed(c, o);
  }
}
