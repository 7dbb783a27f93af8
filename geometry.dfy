/** The geometry kernel every stage depends on (public/pipeline/utils.js).
    The trigonometric parts are floating-point closed forms; they are injected as
    the three functions of a `Trig` value, and `Sound` states the only facts about
    them that the code itself supports. What the code does around them (the Earth
    radius, the normalisation into [0,360), the empty guard of the circular mean and
    the angular distance) is modelled exactly. */
module Geometry {

  /** The floating-point closed forms the kernel wraps:
      - centralAngle: `c = 2 * atan2(sqrt(a), sqrt(1 - a))` of the haversine formula;
      - bearingDegrees: `atan2(y, x) * 180 / PI` of the initial-bearing formula;
      - meanDegrees: `atan2(mean sin, mean cos) * 180 / PI` of a non-empty angle list. */
  datatype Trig = Trig(
    centralAngle: (real, real, real, real) -> real,
    bearingDegrees: (real, real, real, real) -> real,
    meanDegrees: seq<real> -> real)

  /** `atan2` of a non-negative first argument lies in [0, PI], and any `atan2`
      lies in [-PI, PI], so in degrees in [-180, 180]. */
  ghost predicate Sound(t: Trig) {
    && (forall lat1, lon1, lat2, lon2 :: t.centralAngle(lat1, lon1, lat2, lon2) >= 0.0)
    && (forall lat1, lon1, lat2, lon2 ::
          -180.0 <= t.bearingDegrees(lat1, lon1, lat2, lon2) <= 180.0)
    && (forall angles :: -180.0 <= t.meanDegrees(angles) <= 180.0)
  }

  const EarthRadius: real := 6371000.0

  /** JavaScript's `x % m` on numbers: the remainder of the quotient truncated toward zero. */
  function JsRemainder(x: real, m: real): real
    requires m > 0.0
  {
    var q := x / m;
    var truncated := if q >= 0.0 then q.Floor else -((-q).Floor);
    x - m * truncated as real
  }

  /** `(deg + 360) % 360`, the final step of both `bearing` and `circularMean` */
  function Normalize(deg: real): real {
    JsRemainder(deg + 360.0, 360.0)
  }

  /** On the range atan2 can produce, the normalisation adds 360 to a negative angle and
      leaves the others alone, so its result is in [0, 360). */
  lemma NormalizeRange(deg: real)
    requires -180.0 <= deg <= 180.0
    ensures Normalize(deg) == if deg < 0.0 then deg + 360.0 else deg
    ensures 0.0 <= Normalize(deg) < 360.0
  {
    var q := (deg + 360.0) / 360.0;
    assert 0.5 <= q <= 1.5;
    if deg < 0.0 {
      assert q < 1.0;
      assert q.Floor == 0;
    } else {
      assert 1.0 <= q;
      assert q.Floor == 1;
    }
  }

  /** The normalisation is only safe on that range: below -360 JavaScript's remainder
      is negative, because it truncates toward zero. */
  lemma NormalizeBelowRange()
    ensures Normalize(-400.0) == -40.0
  {
    var q := (-400.0 + 360.0) / 360.0;
    assert -q == 40.0 / 360.0;
    assert (-q).Floor == 0;
  }

  /** `haversineDistance(lat1, lon1, lat2, lon2)`, in metres */
  function HaversineDistance(t: Trig, lat1: real, lon1: real, lat2: real, lon2: real): (d: real)
    requires Sound(t)
    ensures d >= 0.0
  {
    EarthRadius * t.centralAngle(lat1, lon1, lat2, lon2)
  }

  /** `bearing(lat1, lon1, lat2, lon2)`: the initial bearing, normalised into [0, 360) */
  function Bearing(t: Trig, lat1: real, lon1: real, lat2: real, lon2: real): (b: real)
    requires Sound(t)
    ensures 0.0 <= b < 360.0
  {
    var raw := t.bearingDegrees(lat1, lon1, lat2, lon2);
    if raw < 0.0 then raw + 360.0 else raw
  }

  /** The bearing above is the code's `(raw + 360) % 360` of the atan2 result. */
  lemma BearingIsNormalized(t: Trig, lat1: real, lon1: real, lat2: real, lon2: real)
    requires Sound(t)
    ensures Bearing(t, lat1, lon1, lat2, lon2) == Normalize(t.bearingDegrees(lat1, lon1, lat2, lon2))
  {
    NormalizeRange(t.bearingDegrees(lat1, lon1, lat2, lon2));
  }

  /** `circularMean(angles)`: 0 for an empty list, otherwise the normalised direction of
      the mean unit vector */
  function CircularMean(t: Trig, angles: seq<real>): (m: real)
    requires Sound(t)
    ensures 0.0 <= m < 360.0
    ensures |angles| == 0 ==> m == 0.0
  {
    if |angles| == 0 then 0.0
    else
      var raw := t.meanDegrees(angles);
      NormalizeRange(raw);
      Normalize(raw)
  }

  function Abs(x: real): real { if x < 0.0 then -x else x }

  /** `angularDistance(a1, a2) = min(|a1 - a2|, 360 - |a1 - a2|)` */
  function AngularDistance(a1: real, a2: real): real {
    var diff := Abs(a1 - a2);
    if diff <= 360.0 - diff then diff else 360.0 - diff
  }

  lemma AngularDistanceToSelf(a: real)
    ensures AngularDistance(a, a) == 0.0
  {
  }

  lemma AngularDistanceSymmetric(a: real, b: real)
    ensures AngularDistance(a, b) == AngularDistance(b, a)
  {
  }

  /** The distance goes the short way round: 350 and 10 degrees are 20 degrees apart. */
  lemma AngularDistanceWraps()
    ensures AngularDistance(350.0, 10.0) == 20.0
  {
  }

  /** Between two normalised angles the distance is at most half a turn. */
  lemma AngularDistanceRange(a: real, b: real)
    requires 0.0 <= a < 360.0 && 0.0 <= b < 360.0
    ensures 0.0 <= AngularDistance(a, b) <= 180.0
  {
  }

  /** Angles a full turn apart are the same direction; without normalised inputs the
      formula does not see that, and its result can be negative. */
  lemma AngularDistanceNeedsNormalisedInputs()
    ensures AngularDistance(0.0, 720.0) == -360.0
  {
  }
}
