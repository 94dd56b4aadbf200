/**
 * The view model behind the transformation panel: it keeps the points the
 * user drew and the points obtained from them by the last transformation.
 * Every Apply operation clears the transformed list and refills it from the
 * original points, one transformed point per original point, so successive
 * transformations do not accumulate.
 */
module ViewModels {
  import opened Geometry
  import opened Transform2D

  /** The points `f` sends `points` to, in order. */
  function MapPoints(points: seq<Point>, f: Point -> Point): (r: seq<Point>)
    ensures |r| == |points|
    ensures forall i :: 0 <= i < |points| ==> r[i] == f(points[i])
  {
    if points == [] then [] else MapPoints(points[..|points| - 1], f) + [f(points[|points| - 1])]
  }

  class TransformationViewModel {
    var OriginalPoints: seq<Point>
    var TransformedPoints: seq<Point>

    /** Both lists start empty. */
    constructor()
      ensures OriginalPoints == [] && TransformedPoints == []
    {
      OriginalPoints := [];
      TransformedPoints := [];
    }

    /**
     * Clears the transformed list and adds the image under `f` of every
     * original point, in order; the original points are left as they are.
     */
    method Refill(f: Point -> Point)
      modifies this
      ensures OriginalPoints == old(OriginalPoints)
      ensures TransformedPoints == MapPoints(OriginalPoints, f)
    {
      TransformedPoints := [];
      var i := 0;
      while i < |OriginalPoints|
        invariant 0 <= i <= |OriginalPoints|
        invariant OriginalPoints == old(OriginalPoints)
        invariant TransformedPoints == MapPoints(OriginalPoints[..i], f)
      {
        assert OriginalPoints[..i + 1][..i] == OriginalPoints[..i];
        TransformedPoints := TransformedPoints + [f(OriginalPoints[i])];
        i := i + 1;
      }
      assert OriginalPoints[..i] == OriginalPoints;
    }

    method ApplyTranslation(tx: int, ty: int)
      modifies this
      ensures OriginalPoints == old(OriginalPoints)
      ensures |TransformedPoints| == |OriginalPoints|
      ensures forall i :: 0 <= i < |OriginalPoints| ==>
        TransformedPoints[i] == Translate(OriginalPoints[i], tx as real, ty as real)
    {
      Refill(p => Translate(p, tx as real, ty as real));
    }

    method ApplyScaling(sx: real, sy: real, referencePoint: Option<Point> := None)
      modifies this
      ensures OriginalPoints == old(OriginalPoints)
      ensures |TransformedPoints| == |OriginalPoints|
      ensures forall i :: 0 <= i < |OriginalPoints| ==>
        TransformedPoints[i] == Scale(OriginalPoints[i], sx, sy, referencePoint)
    {
      Refill(p => Scale(p, sx, sy, referencePoint));
    }

    method ApplyRotation(angle: real, cos: real -> real, sin: real -> real, center: Option<Point> := None)
      modifies this
      ensures OriginalPoints == old(OriginalPoints)
      ensures |TransformedPoints| == |OriginalPoints|
      ensures forall i :: 0 <= i < |OriginalPoints| ==>
        TransformedPoints[i] == Rotate(OriginalPoints[i], angle, cos, sin, center)
    {
      Refill(p => Rotate(p, angle, cos, sin, center));
    }

    method ApplyReflectionX(yAxis: int := 0)
      modifies this
      ensures OriginalPoints == old(OriginalPoints)
      ensures |TransformedPoints| == |OriginalPoints|
      ensures forall i :: 0 <= i < |OriginalPoints| ==>
        TransformedPoints[i] == ReflectX(OriginalPoints[i], yAxis as real)
    {
      Refill(p => ReflectX(p, yAxis as real));
    }

    method ApplyReflectionY(xAxis: int := 0)
      modifies this
      ensures OriginalPoints == old(OriginalPoints)
      ensures |TransformedPoints| == |OriginalPoints|
      ensures forall i :: 0 <= i < |OriginalPoints| ==>
        TransformedPoints[i] == ReflectY(OriginalPoints[i], xAxis as real)
    {
      Refill(p => ReflectY(p, xAxis as real));
    }

    method ApplyShearingX(shx: real)
      modifies this
      ensures OriginalPoints == old(OriginalPoints)
      ensures |TransformedPoints| == |OriginalPoints|
      ensures forall i :: 0 <= i < |OriginalPoints| ==>
        TransformedPoints[i] == ShearX(OriginalPoints[i], shx)
    {
      Refill(p => ShearX(p, shx));
    }

    method ApplyShearingY(shy: real)
      modifies this
      ensures OriginalPoints == old(OriginalPoints)
      ensures |TransformedPoints| == |OriginalPoints|
      ensures forall i :: 0 <= i < |OriginalPoints| ==>
        TransformedPoints[i] == ShearY(OriginalPoints[i], shy)
    {
      Refill(p => ShearY(p, shy));
    }
  }

  /**
   * Applying a reflection twice does not give the original points back: the
   * second application starts again from the original points, so the
   * transformed list is the single reflection.
   */
  method ReflectTwice(vm: TransformationViewModel, yAxis: int)
    modifies vm
    ensures vm.OriginalPoints == old(vm.OriginalPoints)
    ensures vm.TransformedPoints == MapPoints(vm.OriginalPoints, p => ReflectX(p, yAxis as real))
  {
    vm.ApplyReflectionX(yAxis);
    vm.ApplyReflectionX(yAxis);
  }
}
