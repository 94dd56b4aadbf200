/**
 * Conversion between screen coordinates (y grows downwards) and unit-circle
 * coordinates (y grows upwards), given the screen position of the circle's
 * centre and the number of screen units per unit of the circle.
 */
module UnitCircleCoordinates {
  import opened Geometry

  /**
   * Screen to unit circle: the offset from the centre divided by the scale,
   * with the vertical axis turned upwards.  Scaling the result back gives
   * the offset again.
   */
  function ScreenToUnitCircle(screenX: real, screenY: real, centerX: real, centerY: real, scale: real): (r: (real, real))
    requires scale != 0.0
    ensures r.0 * scale == screenX - centerX
    ensures r.1 * scale == centerY - screenY
  {
    ((screenX - centerX) / scale, -(screenY - centerY) / scale)
  }

  /** Unit circle to screen: the centre plus the scaled offset, with the vertical axis turned downwards. */
  function UnitCircleToScreen(unitX: real, unitY: real, centerX: real, centerY: real, scale: real): (r: (real, real))
    ensures r.0 - centerX == unitX * scale
    ensures centerY - r.1 == unitY * scale
  {
    (centerX + unitX * scale, centerY - unitY * scale)
  }

  /** Going to the unit circle and back gives the same screen position. */
  lemma ScreenRoundTrip(screenX: real, screenY: real, centerX: real, centerY: real, scale: real)
    requires scale != 0.0
    ensures var u := ScreenToUnitCircle(screenX, screenY, centerX, centerY, scale);
      UnitCircleToScreen(u.0, u.1, centerX, centerY, scale) == (screenX, screenY)
  {
  }

  /** Going to the screen and back gives the same unit-circle position. */
  lemma UnitRoundTrip(unitX: real, unitY: real, centerX: real, centerY: real, scale: real)
    requires scale != 0.0
    ensures var s := UnitCircleToScreen(unitX, unitY, centerX, centerY, scale);
      ScreenToUnitCircle(s.0, s.1, centerX, centerY, scale) == (unitX, unitY)
  {
    var s := UnitCircleToScreen(unitX, unitY, centerX, centerY, scale);
    var u := ScreenToUnitCircle(s.0, s.1, centerX, centerY, scale);
    Cancel(u.0, unitX, scale);
    Cancel(u.1, unitY, scale);
    assert u == (u.0, u.1);
  }

  /** Two numbers with the same non-zero multiple are equal. */
  lemma Cancel(a: real, b: real, s: real)
    requires s != 0.0 && a * s == b * s
    ensures a == b
  {
    calc {
      a;
      (a * s) / s;
      (b * s) / s;
      b;
    }
  }

  /** The centre of the circle is the origin of the unit-circle coordinates, and the other way round. */
  lemma CenterIsOrigin(centerX: real, centerY: real, scale: real)
    requires scale != 0.0
    ensures ScreenToUnitCircle(centerX, centerY, centerX, centerY, scale) == (0.0, 0.0)
    ensures UnitCircleToScreen(0.0, 0.0, centerX, centerY, scale) == (centerX, centerY)
  {
  }

  /**
   * With a positive scale the horizontal axes agree and the vertical axes are
   * opposite: a point right of the centre has a positive unit x, and a point
   * above the centre on screen (smaller screen y) has a positive unit y.
   */
  lemma Orientation(screenX: real, screenY: real, centerX: real, centerY: real, scale: real)
    requires 0.0 < scale
    ensures var u := ScreenToUnitCircle(screenX, screenY, centerX, centerY, scale);
      (0.0 < u.0 <==> centerX < screenX) && (0.0 < u.1 <==> screenY < centerY)
  {
    var u := ScreenToUnitCircle(screenX, screenY, centerX, centerY, scale);
    SignOfQuotient(u.0, scale, screenX - centerX);
    SignOfQuotient(u.1, scale, centerY - screenY);
  }

  /** With a positive factor a number and its multiple have the same sign. */
  lemma SignOfQuotient(q: real, s: real, m: real)
    requires 0.0 < s && q * s == m
    ensures 0.0 < q <==> 0.0 < m
  {
    if 0.0 < q {
      calc {
        m;
        q * s;
      >
        0.0;
      }
    }
    if q <= 0.0 {
      calc {
        m;
        q * s;
      <=
        0.0;
      }
    }
  }
}
