/**
 * The midpoint circle rasteriser.  The radius is the distance from the
 * centre to the edge point truncated to a whole number.  Starting at offset
 * (0, r) with decision value 1 - r, every iteration moves one pixel right
 * and, when the decision value says the midpoint below is outside the
 * circle, one pixel down; it stops once x has caught up with y.  Each
 * offset of that octant is emitted with its seven mirror images.
 */
module MidpointCircle {
  import opened Geometry
  import opened Symmetry

  /** The loop's variables. */
  datatype State = State(x: int, y: int, p: int)

  function Start(r: nat): State
  {
    State(0, r, 1 - r)
  }

  /** One pass of the loop body: x moves first, then the decision value picks y. */
  function Next(s: State): State
  {
    var x := s.x + 1;
    if s.p < 0 then State(x, s.y, s.p + 2 * x + 1)
    else State(x, s.y - 1, s.p + 2 * (x - (s.y - 1)) + 1)
  }

  /** The states whose offsets are emitted from `s` on: `s`, then one per iteration while x < y. */
  function Walk(s: State): seq<State>
    decreases s.y - s.x
  {
    if s.x < s.y then [s] + Walk(Next(s)) else [s]
  }

  function OffsetOf(s: State): Offset
  {
    Offset(s.x as real, s.y as real)
  }

  function Offsets(states: seq<State>): (r: seq<Offset>)
    ensures |r| == |states|
  {
    seq(|states|, i requires 0 <= i < |states| => OffsetOf(states[i]))
  }

  /** The octant of offsets for radius `r`, from (0, r) on. */
  function Octant(r: nat): seq<Offset>
  {
    Offsets(Walk(Start(r)))
  }

  /** The whole output for centre `c` and radius `r`: eight points per octant offset. */
  function Circle(c: Point, r: nat): seq<Point>
  {
    PlotEight(c, Octant(r))
  }

  /**
   * The midpoint between the two candidate pixels of the next column,
   * (x + 1, y - 1/2), lies strictly outside the circle of radius r.
   */
  predicate MidpointOutside(r: nat, x: int, y: int)
  {
    ((x + 1) * (x + 1)) as real + (y as real - 0.5) * (y as real - 0.5) > (r * r) as real
  }

  /**
   * The states of the loop for radius r: x and y are not negative, y is at
   * most r and at least x - 1, and the decision value is
   * (x+1)^2 + y^2 - y - r^2, that is the circle's equation at the midpoint
   * (x + 1, y - 1/2) less one quarter.
   */
  ghost predicate Inv(r: nat, s: State)
  {
    && 0 <= s.x && 0 <= s.y <= r && s.x - 1 <= s.y
    && s.p == (s.x + 1) * (s.x + 1) + s.y * s.y - s.y - r * r
  }

  lemma StartInv(r: nat)
    ensures Inv(r, Start(r))
  {
  }

  /** The decision value is negative exactly when the midpoint is not outside the circle. */
  lemma DecisionSign(r: nat, x: int, y: int, p: int)
    requires p == (x + 1) * (x + 1) + y * y - y - r * r
    ensures p >= 0 <==> MidpointOutside(r, x, y)
  {
    var m := ((x + 1) * (x + 1)) as real + (y as real - 0.5) * (y as real - 0.5) - (r * r) as real;
    assert (y as real - 0.5) * (y as real - 0.5) == (y * y - y) as real + 0.25;
    assert m == p as real + 0.25;
  }

  /** The decision update of one iteration keeps the decision value equal to the midpoint's equation. */
  lemma DecisionStep(r: nat, x: int, y: int, p: int)
    requires p == (x + 1) * (x + 1) + y * y - y - r * r
    ensures p + 2 * (x + 1) + 1 == (x + 2) * (x + 2) + y * y - y - r * r
    ensures p + 2 * ((x + 1) - (y - 1)) + 1 == (x + 2) * (x + 2) + (y - 1) * (y - 1) - (y - 1) - r * r
  {
    assert (x + 2) * (x + 2) == (x + 1) * (x + 1) + 2 * (x + 1) + 1;
    assert (y - 1) * (y - 1) == y * y - 2 * y + 1;
  }

  /**
   * From a state of the loop with x < y, one iteration moves x right by one,
   * moves y down exactly when the midpoint is outside the circle, and keeps
   * the invariant.
   */
  lemma {:induction false} NextInv(r: nat, s: State)
    requires Inv(r, s) && s.x < s.y
    ensures Next(s).x == s.x + 1
    ensures Next(s).y == (if MidpointOutside(r, s.x, s.y) then s.y - 1 else s.y)
    ensures Inv(r, Next(s))
  {
    DecisionSign(r, s.x, s.y, s.p);
    DecisionStep(r, s.x, s.y, s.p);
  }

  /** The reference walk: the textbook midpoint rule applied to (x, y) directly, with no decision variable. */
  function MidpointWalk(r: nat, x: int, y: int): seq<Offset>
    decreases y - x
  {
    if x < y then [Offset(x as real, y as real)] + MidpointWalk(r, x + 1, if MidpointOutside(r, x, y) then y - 1 else y)
    else [Offset(x as real, y as real)]
  }

  /** The loop's offsets are those of the midpoint rule. */
  lemma {:induction false} WalkIsMidpointRule(r: nat, s: State)
    requires Inv(r, s)
    ensures Offsets(Walk(s)) == MidpointWalk(r, s.x, s.y)
    decreases s.y - s.x
  {
    if s.x < s.y {
      NextInv(r, s);
      WalkIsMidpointRule(r, Next(s));
      assert Walk(s) == [s] + Walk(Next(s));
      assert Offsets(Walk(s)) == [OffsetOf(s)] + Offsets(Walk(Next(s)));
    }
  }

  /**
   * Along the walk x grows by exactly one per step and y drops by 0 or 1;
   * every state keeps the invariant; the last state has x >= y and
   * x - y <= 1, and every other state has x < y; and there are at most
   * y - x + 1 states.
   */
  lemma {:induction false} WalkShape(r: nat, s: State)
    requires Inv(r, s)
    ensures forall k :: 0 <= k < |Walk(s)| ==> Inv(r, Walk(s)[k])
    ensures forall k :: 0 <= k < |Walk(s)| - 1 ==>
      Walk(s)[k + 1].x == Walk(s)[k].x + 1 && Walk(s)[k].y - 1 <= Walk(s)[k + 1].y <= Walk(s)[k].y
    ensures forall k :: 0 <= k < |Walk(s)| - 1 ==> Walk(s)[k].x < Walk(s)[k].y
    ensures Walk(s)[0] == s
    ensures var last := Walk(s)[|Walk(s)| - 1]; last.y <= last.x <= last.y + 1
    ensures |Walk(s)| <= Max(s.y - s.x, 0) + 1
    decreases s.y - s.x
  {
    if s.x < s.y {
      NextInv(r, s);
      WalkShape(r, Next(s));
      var w, w' := Walk(s), Walk(Next(s));
      assert w == [s] + w';
      forall k | 0 <= k < |w|
        ensures Inv(r, w[k])
      {
        if k > 0 { assert w[k] == w'[k - 1]; }
      }
      forall k | 0 <= k < |w| - 1
        ensures w[k + 1].x == w[k].x + 1 && w[k].y - 1 <= w[k + 1].y <= w[k].y && w[k].x < w[k].y
      {
        if k > 0 { assert w[k] == w'[k - 1] && w[k + 1] == w'[k]; }
      }
    }
  }

  /**
   * The octant for radius r starts at (0, r), has at most r + 1 offsets
   * (so the loop runs at most r times), ends on the diagonal (x >= y and
   * x - y <= 1), and never has a negative y.
   */
  lemma OctantShape(r: nat)
    ensures 1 <= |Octant(r)| <= r + 1
    ensures Octant(r)[0] == Offset(0.0, r as real)
    ensures var last := Octant(r)[|Octant(r)| - 1]; last.y <= last.x <= last.y + 1.0
    ensures forall k :: 0 <= k < |Octant(r)| ==> 0.0 <= Octant(r)[k].y <= r as real
  {
    StartInv(r);
    WalkShape(r, Start(r));
    var w := Walk(Start(r));
    forall k | 0 <= k < |Octant(r)|
      ensures 0.0 <= Octant(r)[k].y <= r as real
    {
      assert Inv(r, w[k]);
    }
  }

  /** With radius 0 the loop never runs: eight copies of the centre. */
  lemma ZeroRadius(c: Point)
    ensures Circle(c, 0) == [c, c, c, c, c, c, c, c]
  {
    assert Octant(0) == [Offset(0.0, 0.0)];
    assert Circle(c, 0) == PlotEight(c, []) + EightWay(c, Offset(0.0, 0.0));
  }

  /**
   * The loop invariant: `done` are the states before `s` on the walk for
   * radius r, and `points` holds the eight images of each of them and of `s`.
   */
  ghost predicate Emitted(c: Point, r: nat, done: seq<State>, s: State, points: seq<Point>)
  {
    done + Walk(s) == Walk(Start(r)) && points == PlotEight(c, Offsets(done + [s]))
  }

  /** The offsets of one more state are the offsets so far and its own. */
  lemma OffsetsSnoc(states: seq<State>, t: State)
    ensures Offsets(states + [t]) == Offsets(states) + [OffsetOf(t)]
  {
    var a, b := Offsets(states + [t]), Offsets(states) + [OffsetOf(t)];
    forall i | 0 <= i < |a|
      ensures a[i] == b[i]
    {
    }
  }

  /** A state that passes the loop test moves from the walk still to come to the states done. */
  lemma WalkOn(done: seq<State>, s: State)
    requires s.x < s.y
    ensures done + Walk(s) == (done + [s]) + Walk(Next(s))
  {
    assert Walk(s) == [s] + Walk(Next(s));
  }

  /** One iteration keeps the loop invariant. */
  lemma EmitStep(c: Point, r: nat, done: seq<State>, s: State, points: seq<Point>)
    requires Emitted(c, r, done, s, points) && s.x < s.y
    ensures Emitted(c, r, done + [s], Next(s), points + EightWay(c, OffsetOf(Next(s))))
  {
    var n := Next(s);
    WalkOn(done, s);
    OffsetsSnoc(done + [s], n);
    PlotEightSnoc(c, Offsets(done + [s]), OffsetOf(n));
  }

  /**
   * The rasteriser: the radius is the distance from `center` to `edge`
   * truncated to a whole number, and the points are the eight images of
   * every offset the midpoint loop visits.
   */
  method Execute(center: Point, edge: Point) returns (points: seq<Point>)
    ensures points == Circle(center, TruncSqrt(SquaredDistance(center, edge)))
  {
    var radius := TruncSqrt(SquaredDistance(center, edge));
    var x: int := 0;
    var y: int := radius;
    var p: int := 1 - radius as int;
    points := EightWay(center, Offset(x as real, y as real));

    ghost var s := Start(radius);
    ghost var done: seq<State> := [];
    while x < y
      invariant s == State(x, y, p)
      invariant Emitted(center, radius, done, s, points)
      decreases y - x
    {
      EmitStep(center, radius, done, s, points);
      x := x + 1;
      if p < 0 {
        p := p + 2 * x + 1;
      } else {
        y := y - 1;
        p := p + 2 * (x - y) + 1;
      }
      points := points + EightWay(center, Offset(x as real, y as real));
      done, s := done + [s], Next(s);
    }
    assert Walk(s) == [s];
  }

  /**
   * What the rasteriser promises outright: eight points per octant offset,
   * at least one offset, the first eight being the images of offset (0, r), and every
   * point comes with its mirror images across the vertical, the horizontal
   * and the diagonal through the centre.
   */
  lemma CircleShape(c: Point, r: nat)
    ensures |Circle(c, r)| == 8 * |Octant(r)| && |Octant(r)| >= 1
    ensures Circle(c, r)[..8] == EightWay(c, Offset(0.0, r as real))
    ensures forall q :: q in Circle(c, r) ==>
      FlipX(c, q) in Circle(c, r) && FlipY(c, q) in Circle(c, r) && Transpose(c, q) in Circle(c, r)
  {
    var o := Octant(r);
    OctantShape(r);
    PlotEightBlock(c, o, 0);
    PlotEightClosed(c, o);

  }
}
