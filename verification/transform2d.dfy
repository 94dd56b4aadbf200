/**
 * The two-dimensional transformations applied to single points: translation,
 * scaling and rotation about a reference point (the origin when none is
 * given), reflections across horizontal and vertical lines, the diagonal
 * y = x and a centre point, and shears along either axis.
 *
 * The cosine and sine of the rotation angle are not computed here: the
 * rotation takes the two functions as parameters.
 */
module Transform2D {
  import opened Geometry

  datatype Option<T> = None | Some(value: T)

  /** The reference point a transformation uses: the one given, or the origin. */
  function RefOrOrigin(refPoint: Option<Point>): Point
  {
    if refPoint.Some? then refPoint.value else Point(0.0, 0.0)
  }

  function Translate(p: Point, tx: real, ty: real): Point
  {
    Point(p.x + tx, p.y + ty)
  }

  function Scale(p: Point, sx: real, sy: real, refPoint: Option<Point> := None): Point
  {
    var r := RefOrOrigin(refPoint);
    Point(r.x + (p.x - r.x) * sx, r.y + (p.y - r.y) * sy)
  }

  /** The value of pi the platform provides, as a double. */
  const PI: real := 3.141592653589793

  /** Degrees to radians. */
  function Radians(angle: real): real
  {
    angle * PI / 180.0
  }

  /** Rotation about the reference point by the angle whose cosine and sine are given. */
  function RotateBy(p: Point, cosTheta: real, sinTheta: real, refPoint: Option<Point>): Point
  {
    var r := RefOrOrigin(refPoint);
    var x := p.x - r.x;
    var y := p.y - r.y;
    Point(x * cosTheta - y * sinTheta + r.x, x * sinTheta + y * cosTheta + r.y)
  }

  /** Rotation by `angle` degrees, counter-clockwise in a y-up frame, about the reference point. */
  function Rotate(p: Point, angle: real, cos: real -> real, sin: real -> real, refPoint: Option<Point> := None): Point
  {
    RotateBy(p, cos(Radians(angle)), sin(Radians(angle)), refPoint)
  }

  /** Reflection across the horizontal line y = canvasCenterY. */
  function ReflectX(p: Point, canvasCenterY: real := 0.0): Point
  {
    Point(p.x, 2.0 * canvasCenterY - p.y)
  }

  /** Reflection across the vertical line x = canvasCenterX. */
  function ReflectY(p: Point, canvasCenterX: real := 0.0): Point
  {
    Point(2.0 * canvasCenterX - p.x, p.y)
  }

  /** Reflection across the diagonal y = x: the coordinates swap. */
  function ReflectAboutYEqualsX(p: Point): Point
  {
    Point(p.y, p.x)
  }

  /** Reflection through the point (canvasCenterX, canvasCenterY). */
  function ReflectAboutOrigin(p: Point, canvasCenterX: real := 0.0, canvasCenterY: real := 0.0): Point
  {
    Point(2.0 * canvasCenterX - p.x, 2.0 * canvasCenterY - p.y)
  }

  function ShearX(p: Point, shx: real): Point
  {
    Point(p.x + shx * p.y, p.y)
  }

  function ShearY(p: Point, shy: real): Point
  {
    Point(p.x, p.y + shy * p.x)
  }

  // Translation

  /** Translating twice is translating by the sum, and translating by the opposite undoes a translation. */
  lemma TranslateGroup(p: Point, tx: real, ty: real, ux: real, uy: real)
    ensures Translate(Translate(p, tx, ty), ux, uy) == Translate(p, tx + ux, ty + uy)
    ensures Translate(Translate(p, tx, ty), -tx, -ty) == p
    ensures Translate(p, 0.0, 0.0) == p
  {
  }

  /** Translation keeps the distance between two points. */
  lemma TranslateIsometry(p: Point, q: Point, tx: real, ty: real)
    ensures SquaredDistance(Translate(p, tx, ty), Translate(q, tx, ty)) == SquaredDistance(p, q)
  {
  }

  // Scaling

  /**
   * Scaling leaves its reference point where it is, scales every offset from
   * it coordinate by coordinate, and scaling by factors of one changes nothing.
   */
  lemma ScaleAboutReference(p: Point, sx: real, sy: real, refPoint: Option<Point>)
    ensures Scale(RefOrOrigin(refPoint), sx, sy, refPoint) == RefOrOrigin(refPoint)
    ensures var q, r := Scale(p, sx, sy, refPoint), RefOrOrigin(refPoint);
      q.x - r.x == (p.x - r.x) * sx && q.y - r.y == (p.y - r.y) * sy
    ensures Scale(p, 1.0, 1.0, refPoint) == p
  {
  }

  /** Scaling twice about the same reference point is scaling by the products. */
  lemma ScaleCompose(p: Point, sx: real, sy: real, tx: real, ty: real, refPoint: Option<Point>)
    ensures Scale(Scale(p, sx, sy, refPoint), tx, ty, refPoint) == Scale(p, sx * tx, sy * ty, refPoint)
  {
    var r := RefOrOrigin(refPoint);
    Associate(p.x - r.x, sx, tx);
    Associate(p.y - r.y, sy, ty);
  }

  lemma Associate(a: real, b: real, c: real)
    ensures (a * b) * c == a * (b * c)
  {
  }

  /** Scaling by non-zero factors is undone by scaling by their reciprocals about the same point. */
  lemma ScaleInverse(p: Point, sx: real, sy: real, refPoint: Option<Point>)
    requires sx != 0.0 && sy != 0.0
    ensures Scale(Scale(p, sx, sy, refPoint), 1.0 / sx, 1.0 / sy, refPoint) == p
  {
    ScaleCompose(p, sx, sy, 1.0 / sx, 1.0 / sy, refPoint);
    assert sx * (1.0 / sx) == 1.0 && sy * (1.0 / sy) == 1.0;
    ScaleAboutReference(p, 1.0, 1.0, refPoint);
  }

  // Rotation

  /** Degrees convert to radians in proportion; 180 degrees is pi. */
  lemma RadiansOfHalfTurn()
    ensures Radians(180.0) == PI && Radians(0.0) == 0.0
  {
  }

  /** Rotation leaves its reference point where it is, and the zero rotation (cosine 1, sine 0) changes nothing. */
  lemma RotateFixes(p: Point, refPoint: Option<Point>, cosTheta: real, sinTheta: real)
    ensures RotateBy(RefOrOrigin(refPoint), cosTheta, sinTheta, refPoint) == RefOrOrigin(refPoint)
    ensures RotateBy(p, 1.0, 0.0, refPoint) == p
  {
  }

  /**
   * For a genuine angle (cosine squared plus sine squared is one) rotation
   * keeps the distance from the reference point.
   */
  lemma RotateKeepsDistance(p: Point, cosTheta: real, sinTheta: real, refPoint: Option<Point>)
    requires cosTheta * cosTheta + sinTheta * sinTheta == 1.0
    ensures SquaredDistance(RefOrOrigin(refPoint), RotateBy(p, cosTheta, sinTheta, refPoint)) ==
      SquaredDistance(RefOrOrigin(refPoint), p)
  {
    var r := RefOrOrigin(refPoint);
    var x, y := p.x - r.x, p.y - r.y;
    var c, s := cosTheta, sinTheta;
    var q := RotateBy(p, c, s, refPoint);
    assert q.x - r.x == x * c - y * s && q.y - r.y == x * s + y * c;
    RotationNorm(x, y, c, s);
  }

  /** The algebra of rotation: (xc - ys)^2 + (xs + yc)^2 = (x^2 + y^2)(c^2 + s^2). */
  lemma RotationNorm(x: real, y: real, c: real, s: real)
    requires c * c + s * s == 1.0
    ensures (x * c - y * s) * (x * c - y * s) + (x * s + y * c) * (x * s + y * c) == x * x + y * y
  {
    calc {
      (x * c - y * s) * (x * c - y * s) + (x * s + y * c) * (x * s + y * c);
      x * x * (c * c + s * s) + y * y * (c * c + s * s);
      { assert c * c + s * s == 1.0; }
      x * x * 1.0 + y * y * 1.0;
    }
  }

  /**
   * Rotating by one angle and then another about the same point is rotating
   * by their sum: the cosine and sine compose by the angle-addition rules.
   */
  lemma RotateCompose(p: Point, c1: real, s1: real, c2: real, s2: real, refPoint: Option<Point>)
    ensures RotateBy(RotateBy(p, c1, s1, refPoint), c2, s2, refPoint) ==
      RotateBy(p, c1 * c2 - s1 * s2, s1 * c2 + c1 * s2, refPoint)
  {
    var r := RefOrOrigin(refPoint);
    var x, y := p.x - r.x, p.y - r.y;
    var q := RotateBy(p, c1, s1, refPoint);
    assert q.x - r.x == x * c1 - y * s1 && q.y - r.y == x * s1 + y * c1;
    AngleAddition(x, y, c1, s1, c2, s2);
  }

  lemma AngleAddition(x: real, y: real, c1: real, s1: real, c2: real, s2: real)
    ensures (x * c1 - y * s1) * c2 - (x * s1 + y * c1) * s2 == x * (c1 * c2 - s1 * s2) - y * (s1 * c2 + c1 * s2)
    ensures (x * c1 - y * s1) * s2 + (x * s1 + y * c1) * c2 == x * (s1 * c2 + c1 * s2) + y * (c1 * c2 - s1 * s2)
  {
  }

  // Reflections

  /**
   * Reflecting across a horizontal line twice gives the point back, and a
   * point is left where it is exactly when it lies on the line.
   */
  lemma ReflectXInvolution(p: Point, canvasCenterY: real)
    ensures ReflectX(ReflectX(p, canvasCenterY), canvasCenterY) == p
    ensures ReflectX(p, canvasCenterY) == p <==> p.y == canvasCenterY
  {
  }

  /**
   * Reflecting across a vertical line twice gives the point back, and a
   * point is left where it is exactly when it lies on the line.
   */
  lemma ReflectYInvolution(p: Point, canvasCenterX: real)
    ensures ReflectY(ReflectY(p, canvasCenterX), canvasCenterX) == p
    ensures ReflectY(p, canvasCenterX) == p <==> p.x == canvasCenterX
  {
  }

  /** Swapping the coordinates twice gives the point back; exactly the points on the diagonal stay. */
  lemma ReflectDiagonalInvolution(p: Point)
    ensures ReflectAboutYEqualsX(ReflectAboutYEqualsX(p)) == p
    ensures ReflectAboutYEqualsX(p) == p <==> p.x == p.y
  {
  }

  /**
   * Reflection through a point is the reflection across the horizontal line
   * through it followed by the one across the vertical line (in either
   * order); it gives the point back when applied twice, and only the centre
   * stays where it is.
   */
  lemma ReflectAboutOriginComposes(p: Point, canvasCenterX: real, canvasCenterY: real)
    ensures ReflectAboutOrigin(p, canvasCenterX, canvasCenterY) == ReflectY(ReflectX(p, canvasCenterY), canvasCenterX)
    ensures ReflectAboutOrigin(p, canvasCenterX, canvasCenterY) == ReflectX(ReflectY(p, canvasCenterX), canvasCenterY)
    ensures ReflectAboutOrigin(ReflectAboutOrigin(p, canvasCenterX, canvasCenterY), canvasCenterX, canvasCenterY) == p
    ensures ReflectAboutOrigin(p, canvasCenterX, canvasCenterY) == p <==> p == Point(canvasCenterX, canvasCenterY)
  {
  }

  /** The defaults reflect across the axes and through the origin. */
  lemma ReflectDefaults(p: Point)
    ensures ReflectX(p) == Point(p.x, -p.y) && ReflectY(p) == Point(-p.x, p.y)
    ensures ReflectAboutOrigin(p) == Point(-p.x, -p.y)
  {
  }

  // Shears

  /**
   * A horizontal shear keeps y, moves x in proportion to y, composes by
   * adding the factors, and is undone by the opposite factor.
   */
  lemma ShearXGroup(p: Point, a: real, b: real)
    ensures ShearX(p, a).y == p.y && ShearX(p, a).x - p.x == a * p.y
    ensures ShearX(ShearX(p, a), b) == ShearX(p, a + b)
    ensures ShearX(ShearX(p, a), -a) == p
    ensures ShearX(p, 0.0) == p
  {
    assert a * p.y + b * p.y == (a + b) * p.y;
  }

  /**
   * A vertical shear keeps x, moves y in proportion to x, composes by
   * adding the factors, and is undone by the opposite factor.
   */
  lemma ShearYGroup(p: Point, a: real, b: real)
    ensures ShearY(p, a).x == p.x && ShearY(p, a).y - p.y == a * p.x
    ensures ShearY(ShearY(p, a), b) == ShearY(p, a + b)
    ensures ShearY(ShearY(p, a), -a) == p
    ensures ShearY(p, 0.0) == p
  {
    assert a * p.x + b * p.x == (a + b) * p.x;
  }
}
