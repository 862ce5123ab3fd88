/** The collision radius of a node marker (getForceRadius). */
module ForceRadius {

  /** The larger of two values, as d3's `max` over a two-element list. */
  function Max(a: real, b: real): (m: real)
    ensures m >= a && m >= b
    ensures m == a || m == b
  {
    if a >= b then a else b
  }

  /** Collision radius of a marker `markerLength` wide and `markerHeight` high.
      A nested marker fills its whole box, so the radius is 0.8 of the larger side;
      a plain marker is centred, so the radius is 1.5 of the larger half-side.
      The `|| 0` fallback of the source only matters for NaN, which reals exclude. */
  function GetForceRadius(markerLength: real, markerHeight: real, renderNested: bool): (r: real)
    ensures renderNested ==> r >= 0.8 * markerLength && r >= 0.8 * markerHeight
    ensures renderNested ==> r == 0.8 * markerLength || r == 0.8 * markerHeight
    ensures !renderNested ==> r >= 1.5 * (markerLength / 2.0) && r >= 1.5 * (markerHeight / 2.0)
    ensures !renderNested ==> r == 1.5 * (markerLength / 2.0) || r == 1.5 * (markerHeight / 2.0)
  {
    if renderNested then
      Max(markerLength, markerHeight) * 0.8
    else
      Max(markerLength / 2.0, markerHeight / 2.0) * 1.5
  }

  /** A marker with no extent has no collision radius, in either mode. */
  lemma RadiusOfEmptyMarker(renderNested: bool)
    ensures GetForceRadius(0.0, 0.0, renderNested) == 0.0
  {
  }

  /** The two modes differ by a constant factor: 1.5 * (m / 2) is 15/16 of 0.8 * m. */
  lemma PlainRadiusIsFifteenSixteenthsOfNested(markerLength: real, markerHeight: real)
    ensures GetForceRadius(markerLength, markerHeight, false)
         == 0.9375 * GetForceRadius(markerLength, markerHeight, true)
  {
  }

  /** Growing a marker never shrinks its collision radius. */
  lemma RadiusMonotone(l0: real, h0: real, l1: real, h1: real, renderNested: bool)
    requires l0 <= l1 && h0 <= h1
    ensures GetForceRadius(l0, h0, renderNested) <= GetForceRadius(l1, h1, renderNested)
  {
  }

  /** A marker with a non-negative side has a non-negative collision radius. */
  lemma RadiusNonNegative(markerLength: real, markerHeight: real, renderNested: bool)
    requires markerLength >= 0.0 || markerHeight >= 0.0
    ensures GetForceRadius(markerLength, markerHeight, renderNested) >= 0.0
  {
  }
}
