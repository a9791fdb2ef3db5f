/**
 * `Track.surfaceAt`: the surface descriptor of a point of the track.
 *
 * The square roots and the `atan2` bearing that the source computes from the
 * position are parameters here; the two ellipse values are computed exactly
 * from the offset. The descriptor is one of six fixed tuples, chosen by an
 * ordered sequence of overrides.
 */
module Surface {
  import opened Geometry
  import opened Options

  datatype Descriptor = Descriptor(grip: real, maxSpeed: real, boost: real, offTrack: bool)

  /** A boost pad: an angular centre on the lane ellipse and an angular span. */
  datatype Pad = Pad(angle: real, span: real)

  const OUTER: Ellipse := Ellipse(360.0, 210.0)
  const INNER: Ellipse := Ellipse(188.0, 116.0)
  const LANE: Ellipse := Ellipse(270.0, 155.0)
  const DETAIL: Ellipse := Ellipse(310.0, 185.0)

  const PADS: seq<Pad> := [Pad(PI * 0.08, 0.32), Pad(PI * 1.05, 0.28), Pad(PI * 1.65, 0.25)]

  const BOOST_THRUST: real := 230.0

  /** Beyond 1.015 times the outer boundary. */
  const OFF_OUTER: Descriptor := Descriptor(0.25, 80.0, 0.0, true)
  /** Inside the infield. */
  const OFF_INNER: Descriptor := Descriptor(0.3, 65.0, 0.0, true)
  /** On a boost pad. */
  const BOOSTED: Descriptor := Descriptor(1.05, 290.0, BOOST_THRUST, false)
  /** In the band around the ideal racing lane. */
  const LANE_BAND: Descriptor := Descriptor(0.98, 255.0, 0.0, false)
  /** Outside the detail band: the rough outer and inner texture. */
  const ROUGH: Descriptor := Descriptor(0.68, 190.0, 0.0, false)
  /** Any other point of the tarmac. */
  const BASELINE: Descriptor := Descriptor(0.78, 220.0, 0.0, false)

  function Abs(x: real): real {
    if x < 0.0 then -x else x
  }

  predicate InLaneBand(laneDistance: real) {
    0.88 < laneDistance < 1.12
  }

  predicate OutsideDetailBand(detailDistance: real) {
    detailDistance > 1.06 || detailDistance < 0.78
  }

  /** The point is within the pad's angular span and close to the lane ellipse. */
  predicate PadHit(pad: Pad, angle: real, laneDistance: real) {
    Abs(ShortestAngle(angle, pad.angle)) < pad.span / 2.0 && Abs(laneDistance - 1.0) < 0.09
  }

  predicate AnyPadHit(pads: seq<Pad>, angle: real, laneDistance: real) {
    exists i :: 0 <= i < |pads| && PadHit(pads[i], angle, laneDistance)
  }

  /** The `for … of` loop over the pads with its `break`: the index of the first pad hit. */
  function FirstPadHit(pads: seq<Pad>, from: nat, angle: real, laneDistance: real): (r: Option<nat>)
    requires from <= |pads|
    ensures r.Some? ==> from <= r.value < |pads| && PadHit(pads[r.value], angle, laneDistance)
    ensures r.Some? ==> forall j :: from <= j < r.value ==> !PadHit(pads[j], angle, laneDistance)
    ensures r.None? ==> forall j :: from <= j < |pads| ==> !PadHit(pads[j], angle, laneDistance)
    decreases |pads| - from
  {
    if from == |pads| then None
    else if PadHit(pads[from], angle, laneDistance) then Some(from)
    else FirstPadHit(pads, from + 1, angle, laneDistance)
  }

  /** True when the point is off the track: outside the outer margin or inside the infield. */
  predicate OffTrackAt(offset: Offset) {
    EllipseValue(offset, OUTER) > 1.015 || EllipseValue(offset, INNER) < 1.0
  }

  /**
   * `Track.surfaceAt`. `bearing` is the raw `atan2` bearing of the point,
   * `laneDistance` and `detailDistance` its normalised distances from the lane
   * and detail ellipses.
   */
  function SurfaceAt(offset: Offset, bearing: real, laneDistance: real, detailDistance: real): (r: Descriptor)
    ensures r.offTrack <==> OffTrackAt(offset)
    ensures EllipseValue(offset, OUTER) > 1.015 ==> r == OFF_OUTER
    ensures EllipseValue(offset, OUTER) <= 1.015 && EllipseValue(offset, INNER) < 1.0 ==> r == OFF_INNER
    ensures !r.offTrack ==>
      (r == BOOSTED <==> AnyPadHit(PADS, NormalizeAngle(bearing), laneDistance))
    ensures !r.offTrack && !AnyPadHit(PADS, NormalizeAngle(bearing), laneDistance) ==>
      r == (if InLaneBand(laneDistance) then LANE_BAND
            else if OutsideDetailBand(detailDistance) then ROUGH
            else BASELINE)
    ensures 0.0 < r.grip <= 1.25 && r.maxSpeed > 0.0
    ensures r.boost == 0.0 || r.boost == BOOST_THRUST
    ensures r.offTrack ==> r.boost == 0.0
  {
    var outerValue := EllipseValue(offset, OUTER);
    if outerValue > 1.015 then OFF_OUTER
    else
      var innerValue := EllipseValue(offset, INNER);
      if innerValue < 1.0 then OFF_INNER
      else
        var angle := NormalizeAngle(bearing);
        var textured := if OutsideDetailBand(detailDistance) then ROUGH else BASELINE;
        var banded := if InLaneBand(laneDistance) then LANE_BAND else textured;
        match FirstPadHit(PADS, 0, angle, laneDistance)
        case Some(_) => BOOSTED
        case None => banded
  }
}

module SurfaceFacts {
  import opened Geometry
  import opened Surface

  lemma SquareBetween(d: real, lo: real, hi: real)
    requires 0.0 < lo < d < hi
    ensures lo * lo < d * d < hi * hi
  {
    assert lo * lo < lo * d;
    assert lo * d < d * d;
    assert d * d < d * hi;
    assert d * hi < hi * hi;
  }

  /**
   * Every point of the ideal-lane band lies on the track: strictly inside the
   * outer boundary and strictly outside the infield.
   */
  lemma LaneBandIsOnTrack(offset: Offset, bearing: real, laneDistance: real, detailDistance: real)
    requires laneDistance * laneDistance == EllipseValue(offset, LANE)
    requires InLaneBand(laneDistance)
    ensures !OffTrackAt(offset)
    ensures EllipseValue(offset, OUTER) < 1.0
    ensures var s := SurfaceAt(offset, bearing, laneDistance, detailDistance);
      !s.offTrack && s.grip >= 0.98 && s.maxSpeed >= 255.0
  {
    var x2, y2 := offset.x * offset.x, offset.y * offset.y;
    SquareBetween(laneDistance, 0.88, 1.12);
    SquareNonNeg(offset.x);
    SquareNonNeg(offset.y);
    BandBounds(x2, y2);
  }

  /**
   * The ellipse arithmetic behind `LaneBandIsOnTrack`, on the squared
   * coordinates: within the lane band means inside the outer boundary and
   * outside the infield.
   */
  lemma BandBounds(x2: real, y2: real)
    requires x2 >= 0.0 && y2 >= 0.0
    requires 0.88 * 0.88 < x2 / (270.0 * 270.0) + y2 / (155.0 * 155.0) < 1.12 * 1.12
    ensures x2 / (360.0 * 360.0) + y2 / (210.0 * 210.0) < 1.0
    ensures x2 / (188.0 * 188.0) + y2 / (116.0 * 116.0) >= 1.0
  {
  }
}
