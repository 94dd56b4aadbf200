/**
 * Bresenham's circle rasteriser on real-valued coordinates.  Starting at
 * offset (0, radius) with decision value 3 - 2*radius, every iteration moves
 * one unit right and, when the decision value is positive, one unit down;
 * it goes on while y >= x, so the last offset it emits has already crossed
 * the diagonal.  Each offset is emitted with its seven mirror images.
 */
module BresenhamCircle {
  import opened Geometry
  import opened Symmetry

  /** The loop's variables. */
  datatype State = State(x: real, y: real, d: real)

  function Start(radius: real): State
  {
    State(0.0, radius, 3.0 - 2.0 * radius)
  }

  /** One pass of the loop body: x moves first, then the decision value picks y and is updated with the new x and y. */
  function Next(s: State): State
  {
    var x := s.x + 1.0;
    if s.d > 0.0 then State(x, s.y - 1.0, s.d + 4.0 * (x - (s.y - 1.0)) + 10.0)
    else State(x, s.y, s.d + 4.0 * x + 6.0)
  }

  /** How many more times the loop test y >= x can succeed, at most. */
  function Budget(s: State): int
  {
    (s.y - s.x).Floor
  }

  /** The states whose offsets are emitted from `s` on: `s`, then one per iteration while y >= x. */
  function Walk(s: State): seq<State>
    decreases Budget(s) + 1
  {
    if s.y >= s.x then [s] + Walk(Next(s)) else [s]
  }

  function OffsetOf(s: State): Offset
  {
    Offset(s.x, s.y)
  }

  function Offsets(states: seq<State>): (r: seq<Offset>)
    ensures |r| == |states|
  {
    seq(|states|, i requires 0 <= i < |states| => OffsetOf(states[i]))
  }

  /** The offsets the loop visits for `radius`, from (0, radius) on. */
  function Octant(radius: real): seq<Offset>
  {
    Offsets(Walk(Start(radius)))
  }

  /** The whole output for centre `c` and `radius`: eight points per visited offset. */
  function Circle(c: Point, radius: real): seq<Point>
  {
    PlotEight(c, Octant(radius))
  }

  /**
   * One pass of the loop body moves x by one and y by 0 or -1, so the gap
   * y - x shrinks by at least one and, while the test still passes, so does
   * the budget.
   */
  lemma NextMoves(s: State)
    requires s.y >= s.x
    ensures Next(s).x == s.x + 1.0
    ensures Next(s).y == s.y || Next(s).y == s.y - 1.0
    ensures 0 <= Budget(s)
    ensures Next(s).y >= Next(s).x ==> Budget(Next(s)) < Budget(s)
  {
    var n := Next(s);
    assert n.y - n.x <= (s.y - s.x) - 1.0;
  }

  /**
   * Along the walk from `s`: x grows by exactly one per step and y drops by
   * 0 or 1; every state but the last has y >= x and the last has y < x; and
   * when y >= x there are at most floor(y - x) + 2 states.
   */
  lemma {:induction false} WalkShape(s: State)
    ensures Walk(s)[0] == s
    ensures forall k :: 0 <= k < |Walk(s)| - 1 ==>
      Walk(s)[k + 1].x == Walk(s)[k].x + 1.0 &&
      (Walk(s)[k + 1].y == Walk(s)[k].y || Walk(s)[k + 1].y == Walk(s)[k].y - 1.0)
    ensures forall k :: 0 <= k < |Walk(s)| - 1 ==> Walk(s)[k].y >= Walk(s)[k].x
    ensures Walk(s)[|Walk(s)| - 1].y < Walk(s)[|Walk(s)| - 1].x
    ensures s.y >= s.x ==> |Walk(s)| <= Budget(s) + 2
    ensures forall k :: 0 <= k < |Walk(s)| ==> Walk(s)[k].x == s.x + k as real
    decreases Budget(s) + 1
  {
    if s.y >= s.x {
      var n := Next(s);
      WalkShape(n);
      NextMoves(s);
      var w, w' := Walk(s), Walk(n);
      assert w == [s] + w';
      forall k | 0 <= k < |w| - 1
        ensures w[k + 1].x == w[k].x + 1.0 && (w[k + 1].y == w[k].y || w[k + 1].y == w[k].y - 1.0) && w[k].y >= w[k].x
      {
        if k > 0 { assert w[k] == w'[k - 1] && w[k + 1] == w'[k]; }
      }
      forall k | 0 <= k < |w|
        ensures w[k].x == s.x + k as real
      {
        if k > 0 { assert w[k] == w'[k - 1]; }
      }
    }
  }

  /**
   * The offsets for a radius start at (0, radius); the k-th has x == k;
   * every one but the last has y >= x and the last has y < x; and there are
   * at most floor(radius) + 2 of them (none but the first when radius < 0).
   */
  lemma OctantShape(radius: real)
    ensures Octant(radius)[0] == Offset(0.0, radius)
    ensures forall k :: 0 <= k < |Octant(radius)| ==> Octant(radius)[k].x == k as real
    ensures forall k :: 0 <= k < |Octant(radius)| - 1 ==> Octant(radius)[k].y >= Octant(radius)[k].x
    ensures Octant(radius)[|Octant(radius)| - 1].y < Octant(radius)[|Octant(radius)| - 1].x
    ensures radius >= 0.0 ==> 2 <= |Octant(radius)| <= radius.Floor + 2
    ensures radius < 0.0 ==> |Octant(radius)| == 1
  {
    var s := Start(radius);
    WalkShape(s);
    var w := Walk(s);
    forall k | 0 <= k < |w|
      ensures Octant(radius)[k].x == k as real
    {
      assert Octant(radius)[k] == OffsetOf(w[k]);
    }
    forall k | 0 <= k < |w| - 1
      ensures Octant(radius)[k].y >= Octant(radius)[k].x
    {
      assert Octant(radius)[k] == OffsetOf(w[k]);
    }
    if radius >= 0.0 {
      assert w == [s] + Walk(Next(s));
    }
  }

  /**
   * A radius of 0 does not give a single point: the loop runs once, from
   * (0, 0) to (1, -1), so sixteen points come out, the last eight at the
   * four diagonal neighbours of the centre.
   */
  lemma ZeroRadius(c: Point)
    ensures Octant(0.0) == [Offset(0.0, 0.0), Offset(1.0, -1.0)]
    ensures |Circle(c, 0.0)| == 16
    ensures Circle(c, 0.0)[..8] == [c, c, c, c, c, c, c, c]
    ensures forall i :: 8 <= i < 16 ==>
      (Circle(c, 0.0)[i].x == c.x + 1.0 || Circle(c, 0.0)[i].x == c.x - 1.0) &&
      (Circle(c, 0.0)[i].y == c.y + 1.0 || Circle(c, 0.0)[i].y == c.y - 1.0)
  {
    var s0 := Start(0.0);
    var s1 := Next(s0);
    assert s1 == State(1.0, -1.0, 21.0);
    assert Walk(s1) == [s1];
    assert Walk(s0) == [s0, s1];
    var o := [Offset(0.0, 0.0), Offset(1.0, -1.0)];
    assert Octant(0.0) == o;
    assert o == [Offset(0.0, 0.0)] + [Offset(1.0, -1.0)];
    PlotEightSnoc(c, [Offset(0.0, 0.0)], Offset(1.0, -1.0));
    PlotEightSnoc(c, [], Offset(0.0, 0.0));
    assert PlotEight(c, [Offset(0.0, 0.0)]) == EightWay(c, Offset(0.0, 0.0));
    assert Circle(c, 0.0) == EightWay(c, Offset(0.0, 0.0)) + EightWay(c, Offset(1.0, -1.0));
  }

  /**
   * The loop invariant: `done` are the states before `s` on the walk for
   * `radius`, and `points` holds the eight images of each of them and of `s`.
   */
  ghost predicate Emitted(c: Point, radius: real, done: seq<State>, s: State, points: seq<Point>)
  {
    done + Walk(s) == Walk(Start(radius)) && points == PlotEight(c, Offsets(done + [s]))
  }

  /** The offsets of one more state are the offsets so far and its own. */
  lemma OffsetsSnoc(states: seq<State>, t: State)
    ensures Offsets(states + [t]) == Offsets(states) + [OffsetOf(t)]
  {
    var a, b := Offsets(states + [t]), Offsets(states) + [OffsetOf(t)];
    forall i | 0 <= i < |a|
      ensures a[i] == b[i]
    {
    }
  }

  /** A state that passes the loop test moves from the walk still to come to the states done. */
  lemma WalkOn(done: seq<State>, s: State)
    requires s.y >= s.x
    ensures done + Walk(s) == (done + [s]) + Walk(Next(s))
  {
    assert Walk(s) == [s] + Walk(Next(s));
  }

  /** One iteration keeps the loop invariant. */
  lemma EmitStep(c: Point, radius: real, done: seq<State>, s: State, points: seq<Point>)
    requires Emitted(c, radius, done, s, points) && s.y >= s.x
    ensures Emitted(c, radius, done + [s], Next(s), points + EightWay(c, OffsetOf(Next(s))))
  {
    var n := Next(s);
    WalkOn(done, s);
    OffsetsSnoc(done + [s], n);
    PlotEightSnoc(c, Offsets(done + [s]), OffsetOf(n));
  }

  /** The rasteriser for a centre and a radius. */
  method CalculatePoints(center: Point, radius: real) returns (points: seq<Point>)
    ensures points == Circle(center, radius)
  {
    var x := 0.0;
    var y := radius;
    var d := 3.0 - 2.0 * radius;
    points := EightWay(center, Offset(x, y));

    ghost var s := Start(radius);
    ghost var done: seq<State> := [];
    while y >= x
      invariant s == State(x, y, d)
      invariant Emitted(center, radius, done, s, points)
      decreases Budget(s) + 1
    {
      EmitStep(center, radius, done, s, points);
      x := x + 1.0;
      if d > 0.0 {
        y := y - 1.0;
        d := d + 4.0 * (x - y) + 10.0;
      } else {
        d := d + 4.0 * x + 6.0;
      }
      points := points + EightWay(center, Offset(x, y));
      done, s := done + [s], Next(s);
    }
  }

  /**
   * The generic entry point: the radius is the distance from `start` to
   * `end`, not truncated.  The square root is not computed here: the caller
   * passes `radius` with its defining property.
   */
  method Execute(start: Point, end: Point, radius: real) returns (points: seq<Point>)
    requires radius >= 0.0 && radius * radius == SquaredDistance(start, end)
    ensures points == Circle(start, radius)
  {
    points := CalculatePoints(start, radius);
  }

  /**
   * What the rasteriser promises outright: eight points per visited offset,
   * the first eight being the images of offset (0, radius), and every point
   * comes with its mirror images across the vertical, the horizontal and
   * the diagonal through the centre.
   */
  lemma CircleShape(c: Point, radius: real)
    ensures |Circle(c, radius)| == 8 * |Octant(radius)| && |Octant(radius)| >= 1
    ensures Circle(c, radius)[..8] == EightWay(c, Offset(0.0, radius))
    ensures forall q :: q in Circle(c, radius) ==>
      FlipX(c, q) in Circle(c, radius) && FlipY(c, q) in Circle(c, radius) && Transpose(c, q) in Circle(c, radius)
  {
    var o := Octant(radius);
    OctantShape(radius);
    PlotEightBlock(c, o, 0);
    PlotEightClosed(c, o);
  }
}
