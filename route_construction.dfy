/** Route construction (public/pipeline/routeConstruction.js): the heading-consistency
    filter, the route built from the largest segment, index resampling, the route
    skeleton with virtual stops every 500 m, and the chunking of points for the
    map-matching service. */
module RouteConstruction {
  import opened JsValues
  import opened Geometry
  import opened Sorting
  import opened Selection
  import opened Track
  import opened Segmentation

  // ---------------------------------------------------------------------------
  // filterByHeadingConsistency

  const HeadingFilterMaxAngle: real := 120.0

  /** `diff = |b1 - b2|; if (diff > 180) diff = 360 - diff`: the same value as
      `angularDistance`, and at most 180 degrees for bearings in [0, 360). */
  function HeadingChange(b1: real, b2: real): (r: real)
    ensures r == AngularDistance(b1, b2)
    ensures 0.0 <= b1 < 360.0 && 0.0 <= b2 < 360.0 ==> 0.0 <= r <= 180.0
  {
    var diff := Abs(b1 - b2);
    if diff > 180.0 then 360.0 - diff else diff
  }

  /** `curr` stays when the turn from `prev -> curr` to `curr -> next` is at most 120 degrees. */
  predicate KeepsHeading(t: Trig, prev: Point, curr: Point, next: Point)
    requires Sound(t)
  {
    var bear1 := Bearing(t, prev.lat, prev.lon, curr.lat, curr.lon);
    var bear2 := Bearing(t, curr.lat, curr.lon, next.lat, next.lon);
    HeadingChange(bear1, bear2) <= HeadingFilterMaxAngle
  }

  /** The 120-degree test, as a value the pass below can be stated over */
  ghost function TurnTest(t: Trig): (Point, Point, Point) -> bool {
    (prev, curr, next) => Sound(t) && KeepsHeading(t, prev, curr, next)
  }

  /** The points kept after the pass over the interior points 1 .. m-1 with the test
      `keeps`: point 0, then every point that passes the test against the last point kept
      so far and the point after it. */
  function HeadingPass(keeps: (Point, Point, Point) -> bool, points: seq<Point>, m: nat): (kept: seq<Point>)
    requires 1 <= m < |points|
    ensures |kept| >= 1
  {
    if m == 1 then [points[0]]
    else
      var kept := HeadingPass(keeps, points, m - 1);
      if keeps(kept[|kept| - 1], points[m - 1], points[m]) then kept + [points[m - 1]] else kept
  }

  /** The step of the pass once the test's outcome `b` at position `m` is known. */
  lemma HeadingPassDecided(keeps: (Point, Point, Point) -> bool, points: seq<Point>, m: nat,
                           kept: seq<Point>, b: bool)
    requires 1 <= m < |points| - 1
    requires kept == HeadingPass(keeps, points, m)
    requires b == keeps(kept[|kept| - 1], points[m], points[m + 1])
    ensures HeadingPass(keeps, points, m + 1) == if b then kept + [points[m]] else kept
  {
  }

  /** The source's `diff <= 120` is the turn test. */
  lemma TurnTestIsDiff(t: Trig, prev: Point, curr: Point, next: Point, diff: real)
    requires Sound(t)
    requires diff == HeadingChange(Bearing(t, prev.lat, prev.lon, curr.lat, curr.lon),
                                   Bearing(t, curr.lat, curr.lon, next.lat, next.lon))
    ensures TurnTest(t)(prev, curr, next) == (diff <= HeadingFilterMaxAngle)
  {
    assert KeepsHeading(t, prev, curr, next) == (diff <= HeadingFilterMaxAngle);
  }

  /** `filterByHeadingConsistency(points)` as a value */
  ghost function HeadingFilterSpec(t: Trig, points: seq<Point>): seq<Point> {
    if |points| < 3 then points else HeadingPass(TurnTest(t), points, |points| - 1) + [points[|points| - 1]]
  }

  /** `filterByHeadingConsistency(points)` */
  method FilterByHeadingConsistency(t: Trig, points: seq<Point>) returns (filtered: seq<Point>)
    requires Sound(t)
    ensures filtered == HeadingFilterSpec(t, points)
  {
    if |points| < 3 {
      return points;
    }
    filtered := [points[0]];
    for i := 1 to |points| - 1
      invariant filtered == HeadingPass(TurnTest(t), points, i)
    {
      var prev := filtered[|filtered| - 1];
      var curr := points[i];
      var next := points[i + 1];
      var bear1 := Bearing(t, prev.lat, prev.lon, curr.lat, curr.lon);
      var bear2 := Bearing(t, curr.lat, curr.lon, next.lat, next.lon);
      var diff := Abs(bear1 - bear2);
      if diff > 180.0 {
        diff := 360.0 - diff;
      }
      TurnTestIsDiff(t, prev, curr, next, diff);
      HeadingPassDecided(TurnTest(t), points, i, filtered, diff <= HeadingFilterMaxAngle);
      if diff <= HeadingFilterMaxAngle {
        filtered := filtered + [curr];
      }
    }
    filtered := filtered + [points[|points| - 1]];
  }

  /** The same pass described by positions: 0, then every interior position that passes
      the test against the last position kept so far. */
  function KeptIndices(keeps: (Point, Point, Point) -> bool, points: seq<Point>, m: nat): (r: seq<nat>)
    requires 1 <= m < |points|
    ensures |r| >= 1 && r[0] == 0
    ensures forall i, j :: 0 <= i < j < |r| ==> r[i] < r[j]
    ensures forall j :: 0 <= j < |r| ==> r[j] < m
  {
    if m == 1 then [0]
    else
      var kept := KeptIndices(keeps, points, m - 1);
      if keeps(points[kept[|kept| - 1]], points[m - 1], points[m]) then kept + [m - 1] else kept
  }

  function Last(k: seq<nat>): nat
    requires |k| > 0
  {
    k[|k| - 1]
  }

  /** One more interior position: it is kept exactly when it passes the test. */
  lemma KeptIndicesStep(keeps: (Point, Point, Point) -> bool, points: seq<Point>, m: nat)
    requires 2 <= m < |points|
    ensures var before := KeptIndices(keeps, points, m - 1);
      KeptIndices(keeps, points, m)
      == if keeps(points[before[|before| - 1]], points[m - 1], points[m]) then before + [m - 1] else before
  {
  }

  /** The pass keeps exactly the points at the kept positions. */
  lemma {:induction false} HeadingPassPicksKept(keeps: (Point, Point, Point) -> bool, points: seq<Point>, m: nat)
    requires 1 <= m < |points|
    ensures HeadingPass(keeps, points, m) == Pick(points, KeptIndices(keeps, points, m))
  {
    if m > 1 {
      HeadingPassPicksKept(keeps, points, m - 1);
      var kept, pass := KeptIndices(keeps, points, m - 1), HeadingPass(keeps, points, m - 1);
      assert pass[|pass| - 1] == points[kept[|kept| - 1]];
      var b := keeps(points[kept[|kept| - 1]], points[m - 1], points[m]);
      KeptIndicesStep(keeps, points, m);
      HeadingPassDecided(keeps, points, m - 1, pass, b);
      if b {
        assert KeptIndices(keeps, points, m) == kept + [m - 1];
        assert HeadingPass(keeps, points, m) == pass + [points[m - 1]];
        PickAppend(points, kept, m - 1);
      } else {
        assert KeptIndices(keeps, points, m) == kept;
        assert HeadingPass(keeps, points, m) == pass;
      }
    }
  }

  /** The positions of the pass over the interior 1 .. m-1, followed by the last position
      m: 0 first, m last, ascending. */
  lemma HeadingPassIndices(keeps: (Point, Point, Point) -> bool, points: seq<Point>, m: nat, idx: seq<nat>)
    requires 2 <= m && m + 1 == |points|
    requires idx == KeptIndices(keeps, points, m) + [m]
    ensures idx[0] == 0 && idx[|idx| - 1] == m
    ensures forall j :: 0 <= j < |idx| ==> idx[j] < |points|
    ensures forall i, j :: 0 <= i < j < |idx| ==> idx[i] < idx[j]
  {
    var kept := KeptIndices(keeps, points, m);
    forall j | 0 <= j < |idx| ensures idx[j] < |points| {
      if j < |kept| {
        assert idx[j] == kept[j];
      }
    }
    forall i, j | 0 <= i < j < |idx| ensures idx[i] < idx[j] {
      assert idx[i] == kept[i];
      if j < |kept| {
        assert idx[j] == kept[j];
      }
    }
  }

  /** The pass followed by the last point is a subsequence of the input that keeps its
      first and its last point, with between 2 and n points. */
  lemma HeadingPassShape(keeps: (Point, Point, Point) -> bool, points: seq<Point>, m: nat)
    requires 2 <= m && m + 1 == |points|
    ensures var r := HeadingPass(keeps, points, m) + [points[m]];
      && r[0] == points[0] && r[|r| - 1] == points[|points| - 1]
      && 2 <= |r| <= |points|
      && IsSubsequence(r, points)
  {
    var kept := KeptIndices(keeps, points, m);
    var idx := kept + [m];
    HeadingPassIndices(keeps, points, m, idx);
    HeadingPassPicksKept(keeps, points, m);
    PickAppend(points, kept, m);
    var r := Pick(points, idx);
    PickAscendingIsSubsequence(points, idx);
    SubsequenceLength(r, points);
  }

  /** Short inputs come back unchanged; otherwise the result is a subsequence of the input
      that keeps its first and its last point, with between 2 and n points. */
  lemma HeadingFilterShape(t: Trig, points: seq<Point>)
    ensures var r := HeadingFilterSpec(t, points);
      && (|points| < 3 ==> r == points)
      && (|points| >= 3 ==>
            && r[0] == points[0] && r[|r| - 1] == points[|points| - 1]
            && 2 <= |r| <= |points|
            && IsSubsequence(r, points))
  {
    if |points| >= 3 {
      HeadingPassShape(TurnTest(t), points, |points| - 1);
    }
  }

  /** Every position after the first in `k` passed the test against the one before it. */
  ghost predicate KeptPass(keeps: (Point, Point, Point) -> bool, points: seq<Point>, k: seq<nat>)
    requires forall j :: 0 <= j < |k| ==> k[j] + 1 < |points|
  {
    forall j :: 1 <= j < |k| ==> keeps(points[k[j - 1]], points[k[j]], points[k[j] + 1])
  }

  /** Every kept interior point passed the test against the point kept before it. */
  lemma {:induction false} KeptPointsPass(keeps: (Point, Point, Point) -> bool, points: seq<Point>, m: nat)
    requires 1 <= m < |points|
    ensures KeptPass(keeps, points, KeptIndices(keeps, points, m))
  {
    if m > 1 {
      KeptPointsPass(keeps, points, m - 1);
      var before := KeptIndices(keeps, points, m - 1);
      var k := KeptIndices(keeps, points, m);
      forall j | 1 <= j < |k| ensures keeps(points[k[j - 1]], points[k[j]], points[k[j] + 1]) {
        if j < |before| {
          assert k[j - 1] == before[j - 1] && k[j] == before[j];
        } else {
          assert k == before + [m - 1];
          assert k[j - 1] == before[|before| - 1] && k[j] == m - 1;
        }
      }
    }
  }

  /** Membership after one more step of the pass that may append `m - 1`. */
  lemma MembershipStep(before: seq<nat>, k: seq<nat>, m: nat, b: bool)
    requires m >= 1 && forall j :: 0 <= j < |before| ==> before[j] < m - 1
    requires k == if b then before + [m - 1] else before
    ensures forall i :: i < m - 1 ==> (i in k <==> i in before)
    ensures (m - 1 in k) == b
  {
  }

  /** Interior position `i` is among the first `m` kept positions exactly when it passes the
      test against the last position kept before it. */
  ghost predicate KeptIffPasses(keeps: (Point, Point, Point) -> bool, points: seq<Point>, m: nat, i: nat)
    requires 1 <= i < m < |points|
  {
    i in KeptIndices(keeps, points, m) <==> keeps(points[Last(KeptIndices(keeps, points, i))], points[i], points[i + 1])
  }

  /** An interior position is kept exactly when it passes the test against the last
      position kept before it: the decision the loop makes at that step. */
  lemma {:induction false} KeptExactlyWhenPassing(keeps: (Point, Point, Point) -> bool, points: seq<Point>, m: nat)
    requires 1 <= m < |points|
    ensures forall i :: 1 <= i < m ==> KeptIffPasses(keeps, points, m, i)
  {
    if m > 1 {
      KeptExactlyWhenPassing(keeps, points, m - 1);
      var before, k := KeptIndices(keeps, points, m - 1), KeptIndices(keeps, points, m);
      var b := keeps(points[Last(before)], points[m - 1], points[m]);
      MembershipStep(before, k, m, b);
      forall i | 1 <= i < m ensures KeptIffPasses(keeps, points, m, i) {
        if i < m - 1 {
          assert KeptIffPasses(keeps, points, m - 1, i);
          assert i in k <==> i in before;
        } else {
          assert KeptIndices(keeps, points, i) == before;
          assert (i in k) == b;
        }
      }
    }
  }

  // ---------------------------------------------------------------------------
  // buildRoute

  /** The statistics `buildRoute` reports; `originalSegmentCount` is absent on empty input. */
  datatype RouteStats = RouteStats(
    totalPoints: nat,
    segmentCount: nat,
    deduplicatedPoints: nat,
    originalSegmentCount: Option<nat>)

  datatype BuiltRoute = BuiltRoute(points: seq<Point>, stats: RouteStats)

  /** The `reduce` that picks the segment with the most points: it replaces the running
      maximum only on a strictly larger count, so the first such segment wins. */
  function LargestSegment(segments: seq<Segment>): (r: nat)
    requires |segments| > 0
    ensures r < |segments|
    ensures forall j :: 0 <= j < |segments| ==> |segments[j].points| <= |segments[r].points|
    ensures forall j :: 0 <= j < r ==> |segments[j].points| < |segments[r].points|
  {
    if |segments| == 1 then 0
    else
      var best := LargestSegment(segments[..|segments| - 1]);
      if |segments[|segments| - 1].points| > |segments[best].points| then |segments| - 1 else best
  }

  /** The position key `${lat.toFixed(6)},${lon.toFixed(6)}`, for a given key function */
  function PosKey(key: (real, real) -> string, p: Point): string {
    key(p.lat, p.lon)
  }

  /** The dedup loop as a value: a point is kept when its key differs from the key of the
      last point kept so far. */
  function Dedup(key: (real, real) -> string, s: seq<Point>): (r: seq<Point>)
    ensures |s| > 0 ==> |r| > 0 && PosKey(key, r[|r| - 1]) == PosKey(key, s[|s| - 1])
  {
    if |s| == 0 then []
    else
      var r := Dedup(key, s[..|s| - 1]);
      if |r| == 0 || PosKey(key, r[|r| - 1]) != PosKey(key, s[|s| - 1]) then r + [s[|s| - 1]] else r
  }

  /** The positions whose key differs from the key of the position before them (and 0):
      the positions a consecutive-duplicate removal keeps. */
  function KeyChanges(key: (real, real) -> string, s: seq<Point>): (r: seq<nat>)
    ensures forall j :: 0 <= j < |r| ==> r[j] < |s|
  {
    if |s| == 0 then []
    else
      var n := |s|;
      var r := KeyChanges(key, s[..n - 1]);
      if n == 1 || PosKey(key, s[n - 1]) != PosKey(key, s[n - 2]) then r + [n - 1] else r
  }

  /** The loop keeps exactly the points whose key differs from the point before them. */
  lemma {:induction false} DedupPicksKeyChanges(key: (real, real) -> string, s: seq<Point>)
    ensures Dedup(key, s) == Pick(s, KeyChanges(key, s))
  {
    if |s| > 0 {
      var n := |s|;
      var init := s[..n - 1];
      DedupPicksKeyChanges(key, init);
      var k := KeyChanges(key, init);
      PickFromPrefix(s, n - 1, k);
      if KeyChanges(key, s) != k {
        PickAppend(s, k, n - 1);
      }
    }
  }

  /** The result is a subsequence of its input, so no longer than it. */
  lemma {:induction false} DedupSubsequence(key: (real, real) -> string, s: seq<Point>)
    ensures IsSubsequence(Dedup(key, s), s)
    ensures |Dedup(key, s)| <= |s|
  {
    if |s| > 0 {
      var init := s[..|s| - 1];
      var x := s[|s| - 1];
      DedupSubsequence(key, init);
      var r0 := Dedup(key, init);
      assert init + [x] == s;
      if Dedup(key, s) == r0 + [x] {
        SubsequenceExtendBoth(r0, init, x);
      } else {
        SubsequenceExtendRight(r0, init, x);
      }
    }
    SubsequenceLength(Dedup(key, s), s);
  }

  /** The first point is always kept. */
  lemma {:induction false} DedupKeepsFirst(key: (real, real) -> string, s: seq<Point>)
    requires |s| > 0
    ensures Dedup(key, s)[0] == s[0]
  {
    if |s| > 1 {
      var init := s[..|s| - 1];
      DedupKeepsFirst(key, init);
    }
  }

  /** No two consecutive points share a key. */
  predicate NoRepeatedKeys(key: (real, real) -> string, r: seq<Point>) {
    forall j :: 1 <= j < |r| ==> PosKey(key, r[j - 1]) != PosKey(key, r[j])
  }

  /** No two consecutive points of the result share a key. */
  lemma {:induction false} DedupNoRepeats(key: (real, real) -> string, s: seq<Point>)
    ensures NoRepeatedKeys(key, Dedup(key, s))
  {
    if |s| > 0 {
      DedupNoRepeats(key, s[..|s| - 1]);
    }
  }

  /** The dedup loop of `buildRoute`, with `prevKey` initially null */
  method Deduplicate(key: (real, real) -> string, allPoints: seq<Point>) returns (deduplicated: seq<Point>)
    ensures deduplicated == Dedup(key, allPoints)
  {
    deduplicated := [];
    var prevKey: Option<string> := None;
    for i := 0 to |allPoints|
      invariant deduplicated == Dedup(key, allPoints[..i])
      invariant prevKey == if i == 0 then None else Some(PosKey(key, allPoints[i - 1]))
    {
      var p := allPoints[i];
      var k := key(p.lat, p.lon);
      assert allPoints[..i + 1][..i] == allPoints[..i];
      if Some(k) != prevKey {
        deduplicated := deduplicated + [p];
        prevKey := Some(k);
      }
    }
    assert allPoints[..|allPoints|] == allPoints;
  }

  /** `buildRoute(segments)` as a value */
  ghost function BuildRouteSpec(key: (real, real) -> string, segments: seq<Segment>): BuiltRoute {
    if |segments| == 0 then BuiltRoute([], RouteStats(0, 0, 0, None))
    else
      var largest := segments[LargestSegment(segments)];
      var points := Dedup(key, SortSpec(TimeOrder(), largest.points));
      BuiltRoute(points, RouteStats(|largest.points|, 1, |points|, Some(|segments|)))
  }

  /** `buildRoute(segments)`: the largest segment, sorted by time, without consecutive
      duplicate positions */
  method BuildRoute(key: (real, real) -> string, segments: seq<Segment>) returns (route: BuiltRoute)
    ensures route == BuildRouteSpec(key, segments)
  {
    if |segments| == 0 {
      return BuiltRoute([], RouteStats(0, 0, 0, None));
    }
    var largestSegment := segments[LargestSegment(segments)];
    var allPoints := SortByTime(largestSegment.points);
    var deduplicated := Deduplicate(key, allPoints);
    route := BuiltRoute(deduplicated,
      RouteStats(|largestSegment.points|, 1, |deduplicated|, Some(|segments|)));
  }

  /** No segments give no points and zero statistics. Otherwise the route comes from the
      segment with the most points (the first of several such): it is a subsequence of
      that segment's points in time order, starts with the earliest of them, never has
      consecutive points with the same key, and has at most `totalPoints` points. */
  lemma BuildRouteProperties(key: (real, real) -> string, segments: seq<Segment>)
    ensures |segments| == 0 ==> BuildRouteSpec(key, segments) == BuiltRoute([], RouteStats(0, 0, 0, None))
    ensures |segments| > 0 ==>
      var r := BuildRouteSpec(key, segments);
      var l := LargestSegment(segments);
      var sorted := SortSpec(TimeOrder(), segments[l].points);
      && (forall j :: 0 <= j < |segments| ==> |segments[j].points| <= |segments[l].points|)
      && (forall j :: 0 <= j < l ==> |segments[j].points| < |segments[l].points|)
      && IsSubsequence(r.points, sorted)
      && (|sorted| > 0 ==> r.points[0] == sorted[0])
      && NoRepeatedKeys(key, r.points)
      && r.stats.totalPoints == |segments[l].points|
      && r.stats.deduplicatedPoints == |r.points| <= r.stats.totalPoints
      && r.stats.segmentCount == 1
      && r.stats.originalSegmentCount == Some(|segments|)
  {
    if |segments| > 0 {
      var l := LargestSegment(segments);
      var sorted := SortSpec(TimeOrder(), segments[l].points);
      DedupSubsequence(key, sorted);
      DedupNoRepeats(key, sorted);
      SortSpecPermutes(TimeOrder(), segments[l].points);
      if |sorted| > 0 {
        DedupKeepsFirst(key, sorted);
      }
    }
  }

  // ---------------------------------------------------------------------------
  // simplifyRoute

  const DefaultTargetPoints: int := 500

  /** `Math.round((i * (n - 1)) / (t - 1))` for `t >= 2`. With a = i(n-1) and b = t-1,
      `Math.round(a / b) = floor(a / b + 1/2) = floor((2a + b) / 2b)`. */
  function SampleIndex(i: nat, n: nat, t: nat): nat
    requires n >= 1 && t >= 2
  {
    (2 * (i * (n - 1)) + (t - 1)) / (2 * (t - 1))
  }

  lemma {:induction false} MulLe(a: int, b: int, d: nat)
    requires a <= b
    ensures a * d <= b * d
  {
    if d > 0 {
      MulLe(a, b, d - 1);
      assert a * d == a * (d - 1) + a && b * d == b * (d - 1) + b;
    }
  }

  /** `q` is the quotient of `num` by `d` when `q * d <= num < q * d + d`. */
  lemma DivIsUnique(num: int, d: nat, q: int)
    requires d > 0 && q * d <= num < q * d + d
    ensures num / d == q
  {
    var k := num / d;
    assert k * d <= num < k * d + d;
    if q < k {
      assert (q + 1) * d == q * d + d;
      MulLe(q + 1, k, d);
    } else if q > k {
      MulLe(k + 1, q, d);
    }
  }

  /** `m * d <= num` puts `m` at or below the quotient. */
  lemma DivLowerBound(num: int, d: nat, m: int)
    requires d > 0 && m * d <= num
    ensures m <= num / d
  {
    var k := num / d;
    assert num < k * d + d;
    if m > k {
      MulLe(k + 1, m, d);
    }
  }

  /** The sampled index is i(n-1)/(t-1) rounded to the nearest integer with halves
      rounded up: q - 1/2 <= a/b < q + 1/2, multiplied out by 2b. */
  lemma SampleIndexRounds(i: nat, n: nat, t: nat)
    requires n >= 1 && t >= 2
    ensures var q, a, b := SampleIndex(i, n, t), i * (n - 1), t - 1;
      2 * b * q - b <= 2 * a < 2 * b * q + b
  {
    var a, b := i * (n - 1), t - 1;
    var q := SampleIndex(i, n, t);
    var num, d := 2 * a + b, 2 * b;
    assert q * d <= num < q * d + d;
    assert 2 * b * q == q * d;
  }

  /** The first sample is position 0 and the last is position n-1. */
  lemma SampleIndexEnds(n: nat, t: nat)
    requires n >= 1 && t >= 2
    ensures SampleIndex(0, n, t) == 0
    ensures SampleIndex(t - 1, n, t) == n - 1
  {
    var b := t - 1;
    DivIsUnique(b, 2 * b, 0);
    var num := 2 * ((t - 1) * (n - 1)) + b;
    assert (n - 1) * (2 * b) == 2 * ((t - 1) * (n - 1));
    DivIsUnique(num, 2 * b, n - 1);
  }

  /** When fewer points are kept than there are, consecutive samples are at least one
      position apart. */
  lemma SampleIndexStep(i: nat, n: nat, t: nat)
    requires t >= 2 && n > t
    ensures SampleIndex(i + 1, n, t) >= SampleIndex(i, n, t) + 1
  {
    var d := 2 * (t - 1);
    var num := 2 * (i * (n - 1)) + (t - 1);
    var q := num / d;
    assert q * d <= num;
    assert 2 * ((i + 1) * (n - 1)) + (t - 1) == num + 2 * (n - 1);
    assert (q + 1) * d == q * d + d;
    DivLowerBound(num + 2 * (n - 1), d, q + 1);
  }

  /** Sampled positions strictly increase. */
  lemma {:induction false} SampleIndexIncreasing(i: nat, j: nat, n: nat, t: nat)
    requires t >= 2 && n > t && i < j
    ensures SampleIndex(i, n, t) < SampleIndex(j, n, t)
    decreases j - i
  {
    SampleIndexStep(i, n, t);
    if i + 1 < j {
      SampleIndexIncreasing(i + 1, j, n, t);
    }
  }

  /** Every sampled position of the first `t` lies in [0, n-1]. */
  lemma SampleIndexBound(i: nat, n: nat, t: nat)
    requires t >= 2 && n > t && i < t
    ensures SampleIndex(i, n, t) < n
  {
    SampleIndexEnds(n, t);
    if i < t - 1 {
      SampleIndexIncreasing(i, t - 1, n, t);
    }
  }

  /** The first `m` of the positions sampled when `t >= 2` points are kept out of `n > t` */
  function SampleIndices(n: nat, t: nat, m: nat): (r: seq<nat>)
    requires t >= 2 && n > t && m <= t
    ensures |r| == m
    ensures forall j :: 0 <= j < |r| ==> r[j] == SampleIndex(j, n, t) < n
  {
    if m == 0 then []
    else
      SampleIndexBound(m - 1, n, t);
      SampleIndices(n, t, m - 1) + [SampleIndex(m - 1, n, t)]
  }

  /** `simplifyRoute(points, { targetPoints })` as a value */
  function SimplifySpec(points: seq<Point>, targetPoints: int): seq<Point>
    requires targetPoints != 1 || |points| <= 1
  {
    if |points| <= targetPoints then points
    else if targetPoints <= 0 then []
    else Pick(points, SampleIndices(|points|, targetPoints, targetPoints))
  }

  /** `simplifyRoute(points, { targetPoints })`; `targetPoints = 1` on two or more points
      divides by zero in the source. */
  method SimplifyRoute(points: seq<Point>, targetPoints: int) returns (sampled: seq<Point>)
    requires targetPoints != 1 || |points| <= 1
    ensures sampled == SimplifySpec(points, targetPoints)
  {
    if |points| <= targetPoints {
      return points;
    }
    sampled := [];
    var i := 0;
    while i < targetPoints
      invariant 0 <= i && (targetPoints <= 0 ==> i == 0) && (targetPoints > 0 ==> i <= targetPoints)
      invariant targetPoints > 0 ==> sampled == Pick(points, SampleIndices(|points|, targetPoints, i))
      invariant targetPoints <= 0 ==> sampled == []
    {
      var idx := SampleIndex(i, |points|, targetPoints);
      SampleIndexBound(i, |points|, targetPoints);
      ghost var next := SampleIndices(|points|, targetPoints, i + 1);
      assert next[..i] == SampleIndices(|points|, targetPoints, i);
      PickSnoc(points, next);
      sampled := sampled + [points[idx]];
      i := i + 1;
    }
  }

  /** The sampled positions start at 0, end at n-1 and strictly increase. */
  lemma SampleIndicesAscending(n: nat, t: nat)
    requires t >= 2 && n > t
    ensures var k := SampleIndices(n, t, t);
      && k[0] == 0 && k[t - 1] == n - 1
      && (forall i, j :: 0 <= i < j < t ==> k[i] < k[j])
  {
    SampleIndexEnds(n, t);
    forall i, j | 0 <= i < j < t ensures SampleIndex(i, n, t) < SampleIndex(j, n, t) {
      SampleIndexIncreasing(i, j, n, t);
    }
  }

  /** With at least two target points the result has min(n, t) points; a shorter input
      comes back unchanged, a longer one is a subsequence that keeps its first and last
      point. A target of zero or less empties any non-empty input. */
  lemma SimplifyProperties(points: seq<Point>, targetPoints: int)
    requires targetPoints != 1 || |points| <= 1
    ensures var r := SimplifySpec(points, targetPoints);
      && (|points| <= targetPoints ==> r == points)
      && (targetPoints <= 0 && |points| > targetPoints ==> r == [])
      && (2 <= targetPoints < |points| ==>
            && |r| == targetPoints
            && r[0] == points[0] && r[|r| - 1] == points[|points| - 1]
            && IsSubsequence(r, points))
  {
    var n := |points|;
    if 2 <= targetPoints < n {
      SampleIndicesAscending(n, targetPoints);
      PickAscendingIsSubsequence(points, SampleIndices(n, targetPoints, targetPoints));
    }
  }

  // ---------------------------------------------------------------------------
  // computeRouteSkeleton: the skeleton

  /** A skeleton entry: the point with its cumulative distance and its bearing */
  datatype SkeletonPoint = SkeletonPoint(point: Point, distance: real, bearing: real)

  /** The bearing recorded at position `i`: towards the next point, and for the last
      point the bearing recorded before it (`skeleton[i-1]?.bearing || 0`), which is 0 for
      a single point. */
  function SkeletonBearing(t: Trig, points: seq<Point>, i: nat): (b: real)
    requires Sound(t) && i < |points|
    ensures 0.0 <= b < 360.0
  {
    if i < |points| - 1 then Bearing(t, points[i].lat, points[i].lon, points[i + 1].lat, points[i + 1].lon)
    else if i > 0 then Bearing(t, points[i - 1].lat, points[i - 1].lon, points[i].lat, points[i].lon)
    else 0.0
  }

  /** The skeleton of `points` as a value: entry `i` carries the path length of the first
      `i + 1` points. */
  function SkeletonOf(t: Trig, points: seq<Point>): (r: seq<SkeletonPoint>)
    requires Sound(t)
    ensures |r| == |points|
  {
    seq(|points|, i requires 0 <= i < |points| =>
      SkeletonPoint(points[i], PathLength(t, points[..i + 1]), SkeletonBearing(t, points, i)))
  }

  /** The first loop of `computeRouteSkeleton`, accumulating `cumulativeDist` */
  method BuildSkeleton(t: Trig, cleanedPoints: seq<Point>) returns (skeleton: seq<SkeletonPoint>)
    requires Sound(t)
    ensures skeleton == SkeletonOf(t, cleanedPoints)
  {
    var n := |cleanedPoints|;
    skeleton := [];
    var cumulativeDist := 0.0;
    for i := 0 to n
      invariant |skeleton| == i
      invariant forall j :: 0 <= j < i ==> skeleton[j] == SkeletonOf(t, cleanedPoints)[j]
      invariant cumulativeDist == PathLength(t, cleanedPoints[..i])
    {
      var p := cleanedPoints[i];
      if i > 0 {
        var q := cleanedPoints[i - 1];
        cumulativeDist := cumulativeDist + HaversineDistance(t, q.lat, q.lon, p.lat, p.lon);
      }
      var bear;
      if i < n - 1 {
        var r := cleanedPoints[i + 1];
        bear := Bearing(t, p.lat, p.lon, r.lat, r.lon);
      } else if i > 0 {
        bear := skeleton[i - 1].bearing;
        assert bear == SkeletonOf(t, cleanedPoints)[i - 1].bearing;
      } else {
        bear := 0.0;
      }
      SkeletonEntry(t, cleanedPoints, i, cumulativeDist, bear);
      skeleton := skeleton + [SkeletonPoint(p, cumulativeDist, bear)];
    }
  }

  /** Entry `i` of the skeleton, from the distance so far and the bearing the loop picks */
  lemma SkeletonEntry(t: Trig, points: seq<Point>, i: nat, dist: real, bear: real)
    requires Sound(t) && i < |points|
    requires dist == if i == 0 then 0.0 else
      PathLength(t, points[..i]) + HaversineDistance(t, points[i - 1].lat, points[i - 1].lon, points[i].lat, points[i].lon)
    requires i < |points| - 1 ==>
      bear == Bearing(t, points[i].lat, points[i].lon, points[i + 1].lat, points[i + 1].lon)
    requires i == |points| - 1 && i > 0 ==> bear == SkeletonOf(t, points)[i - 1].bearing
    requires i == |points| - 1 && i == 0 ==> bear == 0.0
    ensures dist == PathLength(t, points[..i + 1])
    ensures SkeletonOf(t, points)[i] == SkeletonPoint(points[i], dist, bear)
  {
    assert points[..i + 1][..i] == points[..i];
  }


  /** Path lengths of longer prefixes are no smaller. */
  lemma {:induction false} PathLengthPrefixMonotone(t: Trig, points: seq<Point>, i: nat, j: nat)
    requires Sound(t) && i <= j <= |points|
    ensures PathLength(t, points[..i]) <= PathLength(t, points[..j])
    decreases j - i
  {
    if i < j {
      PathLengthPrefixMonotone(t, points, i, j - 1);
      assert points[..j][..j - 1] == points[..j - 1];
    }
  }

  /** Distances along the skeleton start at 0, never decrease and end at the path length
      of the whole input. */
  ghost predicate Chained(skeleton: seq<SkeletonPoint>) {
    && (forall i, j :: 0 <= i <= j < |skeleton| ==> skeleton[i].distance <= skeleton[j].distance)
    && (|skeleton| > 0 ==> skeleton[0].distance == 0.0)
  }

  /** The skeleton's distances start at 0 and never decrease. */
  lemma SkeletonChained(t: Trig, points: seq<Point>)
    requires Sound(t)
    ensures Chained(SkeletonOf(t, points))
  {
    var s := SkeletonOf(t, points);
    forall i, j | 0 <= i <= j < |s| ensures s[i].distance <= s[j].distance {
      PathLengthPrefixMonotone(t, points, i + 1, j + 1);
    }
    if |s| > 0 {
      assert points[..1] == [points[0]];
    }
  }

  /** The skeleton has one entry per point, in the same order, with bearings in [0, 360). */
  lemma SkeletonEntries(t: Trig, points: seq<Point>)
    requires Sound(t)
    ensures |SkeletonOf(t, points)| == |points|
    ensures forall i :: 0 <= i < |points| ==>
      SkeletonOf(t, points)[i].point == points[i] && 0.0 <= SkeletonOf(t, points)[i].bearing < 360.0
  {
    var s := SkeletonOf(t, points);
    forall i | 0 <= i < |points| ensures s[i].point == points[i] && 0.0 <= s[i].bearing < 360.0 {
      assert s[i].bearing == SkeletonBearing(t, points, i);
    }
  }

  /** The last entry's distance is the length of the whole path. */
  lemma SkeletonTotal(t: Trig, points: seq<Point>)
    requires Sound(t) && |points| > 0
    ensures SkeletonOf(t, points)[|points| - 1].distance == PathLength(t, points)
  {
    assert points[..|points|] == points;
  }

  // ---------------------------------------------------------------------------
  // computeRouteSkeleton: the virtual stops

  /** Virtual stops are placed every 500 m along the skeleton. */
  const StopInterval: real := 500.0

  /** The distance of the `k`-th 500 m mark */
  function StopAt(k: nat): real {
    k as real * StopInterval
  }

  /** How many marks 500, 1000, ... lie strictly below `total` */
  function InteriorStopCount(total: real): (r: nat)
    ensures forall k: nat :: 1 <= k <= r ==> StopAt(k) < total
    ensures StopAt(r + 1) >= total
  {
    if total <= 0.0 then 0
    else
      var c := (total / StopInterval).Floor;
      if c as real * StopInterval == total then c - 1 else c
  }

  /** A mark after the start is an interior stop exactly when it is below the total. */
  lemma InteriorStopsExactly(total: real, k: nat)
    requires k >= 1
    ensures k <= InteriorStopCount(total) <==> StopAt(k) < total
  {
  }

  /** The distances of the stops: the start at 0, the marks below the total, the end. */
  function StopDistances(total: real): (ds: seq<real>)
    ensures |ds| == InteriorStopCount(total) + 2
  {
    [0.0] + seq(InteriorStopCount(total), k requires 0 <= k => StopAt(k + 1)) + [total]
  }

  /** On a positive total the end stop lies within (0, 500] m of the stop before it. */
  lemma EndStopGap(total: real)
    requires total > 0.0
    ensures var ds := StopDistances(total);
      0.0 < ds[|ds| - 1] - ds[|ds| - 2] <= StopInterval
  {
    var c := InteriorStopCount(total);
    var ds := StopDistances(total);
    assert ds[|ds| - 2] == StopAt(c);
  }

  /** Legs of 300 m and 400 m give stops at 0, 500 and 700 m. */
  lemma StopDistancesOf700()
    ensures StopDistances(700.0) == [0.0, 500.0, 700.0]
  {
    assert (700.0 / StopInterval).Floor == 1;
    assert InteriorStopCount(700.0) == 1;
  }

  datatype StopKind = Start | Interior | End

  /** A virtual stop; `kind` stands for the `isStart` and `isEnd` flags. */
  datatype VirtualStop = VirtualStop(
    lat: real, lon: real, distance: real, bearing: real, stopNumber: nat, kind: StopKind)

  /** The first leg from `i` on whose end reaches distance `d`: the leg the stop at `d`
      is interpolated on. */
  function LegOf(s: seq<SkeletonPoint>, d: real, i: nat): (r: nat)
    requires i + 1 < |s| && s[|s| - 1].distance >= d
    ensures i <= r && r + 1 < |s| && s[r + 1].distance >= d
    ensures forall j :: i < j <= r ==> s[j].distance < d
    decreases |s| - i
  {
    if s[i + 1].distance >= d then i else LegOf(s, d, i + 1)
  }

  /** On chained distances the leg of `d` is the one with `s[i] < d <= s[i + 1]`. */
  lemma {:induction false} LegOfIs(s: seq<SkeletonPoint>, d: real, j: nat, i: nat)
    requires Chained(s) && j <= i && i + 1 < |s|
    requires s[i].distance < d <= s[i + 1].distance
    ensures LegOf(s, d, j) == i
    decreases i - j
  {
    if j < i {
      assert s[j + 1].distance <= s[i].distance;
      LegOfIs(s, d, j + 1, i);
    }
  }

  /** The stop at distance `d` on leg `i`, interpolated linearly between its ends */
  function Interpolated(s: seq<SkeletonPoint>, i: nat, d: real, stopNumber: nat): VirtualStop
    requires i + 1 < |s| && s[i].distance < s[i + 1].distance
  {
    var p1, p2 := s[i], s[i + 1];
    var ratio := (d - p1.distance) / (p2.distance - p1.distance);
    VirtualStop(
      p1.point.lat + (p2.point.lat - p1.point.lat) * ratio,
      p1.point.lon + (p2.point.lon - p1.point.lon) * ratio,
      d, p1.bearing, stopNumber, Interior)
  }

  /** The interior stop number `k` of a chained skeleton */
  function InteriorStop(s: seq<SkeletonPoint>, k: nat): VirtualStop
    requires Chained(s) && |s| > 0 && 1 <= k <= InteriorStopCount(s[|s| - 1].distance)
  {
    var d := StopAt(k);
    var leg := LegOf(s, d, 0);
    assert leg == 0 || s[leg].distance < d;
    Interpolated(s, leg, d, k)
  }

  /** The stops of a chained skeleton as a value: none for an empty skeleton, otherwise
      the start stop, the interior stops and the end stop at the total distance. */
  ghost function StopsOf(s: seq<SkeletonPoint>): seq<VirtualStop>
    requires Chained(s)
  {
    if |s| == 0 then []
    else
      var last := s[|s| - 1];
      var c := InteriorStopCount(last.distance);
      StopsBeforeEnd(s) + [VirtualStop(last.point.lat, last.point.lon, last.distance, last.bearing, c + 1, End)]
  }

  /** The start stop followed by the interior stops: the stops of `s` without the end stop */
  ghost function StopsBeforeEnd(s: seq<SkeletonPoint>): seq<VirtualStop>
    requires Chained(s) && |s| > 0
  {
    var c := InteriorStopCount(s[|s| - 1].distance);
    [VirtualStop(s[0].point.lat, s[0].point.lon, 0.0, s[0].bearing, 0, Start)]
    + seq(c, k requires 0 <= k < c => InteriorStop(s, k + 1))
  }

  /** What the stop loops have placed with `stopNumber` as the next number: the start
      stop followed by the interior stops 1 .. stopNumber-1. */
  ghost predicate PlacedUpTo(s: seq<SkeletonPoint>, stops: seq<VirtualStop>, stopNumber: nat)
    requires Chained(s) && |s| > 0
  {
    && 1 <= stopNumber <= InteriorStopCount(s[|s| - 1].distance) + 1
    && |stops| == stopNumber
    && stops[0] == VirtualStop(s[0].point.lat, s[0].point.lon, 0.0, s[0].bearing, 0, Start)
    && (forall k :: 1 <= k < stopNumber ==> stops[k] == InteriorStop(s, k))
  }

  /** The interior stop the inner loop places on leg `i` at the next mark, from the
      `ratio`, `lat` and `lon` it computes. */
  lemma PlaceStep(s: seq<SkeletonPoint>, stops: seq<VirtualStop>, stopNumber: nat, i: nat,
                  ratio: real, lat: real, lon: real)
    requires Chained(s) && |s| > 0 && i + 1 < |s|
    requires PlacedUpTo(s, stops, stopNumber)
    requires s[i].distance < StopAt(stopNumber) <= s[i + 1].distance
    requires StopAt(stopNumber) < s[|s| - 1].distance
    requires ratio == (StopAt(stopNumber) - s[i].distance) / (s[i + 1].distance - s[i].distance)
    requires lat == s[i].point.lat + (s[i + 1].point.lat - s[i].point.lat) * ratio
    requires lon == s[i].point.lon + (s[i + 1].point.lon - s[i].point.lon) * ratio
    ensures PlacedUpTo(s, stops + [VirtualStop(lat, lon, StopAt(stopNumber), s[i].bearing, stopNumber, Interior)],
                       stopNumber + 1)
  {
    InteriorStopsExactly(s[|s| - 1].distance, stopNumber);
    LegOfIs(s, StopAt(stopNumber), 0, i);
    assert InteriorStop(s, stopNumber) == VirtualStop(lat, lon, StopAt(stopNumber), s[i].bearing, stopNumber, Interior);
  }

  /** The stop loops of `computeRouteSkeleton`, including its empty-skeleton return */
  method PlaceVirtualStops(skeleton: seq<SkeletonPoint>) returns (virtualStops: seq<VirtualStop>)
    requires Chained(skeleton)
    ensures virtualStops == StopsOf(skeleton)
  {
    if |skeleton| == 0 {
      return [];
    }
    var totalDistance := skeleton[|skeleton| - 1].distance;
    virtualStops := [VirtualStop(skeleton[0].point.lat, skeleton[0].point.lon, 0.0, skeleton[0].bearing, 0, Start)];
    var stopNumber: nat := 1;
    var nextStopDistance := StopInterval;
    for i := 0 to |skeleton| - 1
      invariant PlacedUpTo(skeleton, virtualStops, stopNumber)
      invariant nextStopDistance == StopAt(stopNumber)
      invariant nextStopDistance > skeleton[i].distance || nextStopDistance >= totalDistance
    {
      var p1 := skeleton[i];
      var p2 := skeleton[i + 1];
      while nextStopDistance > p1.distance && nextStopDistance <= p2.distance
        invariant PlacedUpTo(skeleton, virtualStops, stopNumber)
        invariant nextStopDistance == StopAt(stopNumber)
        invariant nextStopDistance > p1.distance || nextStopDistance >= totalDistance
        decreases InteriorStopCount(totalDistance) + 1 - stopNumber
      {
        if nextStopDistance >= totalDistance {
          break;
        }
        var segmentDist := p2.distance - p1.distance;
        var ratio := (nextStopDistance - p1.distance) / segmentDist;
        var lat := p1.point.lat + (p2.point.lat - p1.point.lat) * ratio;
        var lon := p1.point.lon + (p2.point.lon - p1.point.lon) * ratio;
        PlaceStep(skeleton, virtualStops, stopNumber, i, ratio, lat, lon);
        virtualStops := virtualStops + [VirtualStop(lat, lon, nextStopDistance, p1.bearing, stopNumber, Interior)];
        stopNumber := stopNumber + 1;
        nextStopDistance := nextStopDistance + StopInterval;
      }
    }
    PlacedAll(skeleton, virtualStops, stopNumber);
    var lastPoint := skeleton[|skeleton| - 1];
    virtualStops := virtualStops + [VirtualStop(lastPoint.point.lat, lastPoint.point.lon, totalDistance,
                                                lastPoint.bearing, stopNumber, End)];
  }

  /** Once the next mark reaches the total, every interior stop has been placed. */
  lemma PlacedAllInterior(s: seq<SkeletonPoint>, placed: seq<VirtualStop>, stopNumber: nat)
    requires Chained(s) && |s| > 0
    requires PlacedUpTo(s, placed, stopNumber)
    requires StopAt(stopNumber) >= s[|s| - 1].distance
    ensures stopNumber == InteriorStopCount(s[|s| - 1].distance) + 1
    ensures placed == StopsBeforeEnd(s)
  {
    var c := InteriorStopCount(s[|s| - 1].distance);
    assert stopNumber == c + 1;
    var spec := StopsBeforeEnd(s);
    assert |spec| == |placed|;
    forall k | 0 <= k < |placed| ensures placed[k] == spec[k] {
    }
  }

  /** Once the next mark reaches the total, the placed stops and the end stop are all the
      stops. */
  lemma PlacedAll(s: seq<SkeletonPoint>, placed: seq<VirtualStop>, stopNumber: nat)
    requires Chained(s) && |s| > 0
    requires PlacedUpTo(s, placed, stopNumber)
    requires StopAt(stopNumber) >= s[|s| - 1].distance
    ensures placed + [VirtualStop(s[|s| - 1].point.lat, s[|s| - 1].point.lon,
      s[|s| - 1].distance, s[|s| - 1].bearing, stopNumber, End)] == StopsOf(s)
  {
    PlacedAllInterior(s, placed, stopNumber);
  }

  /** No stops on an empty skeleton. Otherwise the stops are numbered 0, 1, ... in order,
      lie at the distances `StopDistances(total)`, and are the start stop at the first
      skeleton point, interior stops, and the end stop at the last skeleton point. */
  lemma StopsProperties(s: seq<SkeletonPoint>)
    requires Chained(s)
    ensures |s| == 0 ==> StopsOf(s) == []
    ensures |s| > 0 ==>
      var stops, ds := StopsOf(s), StopDistances(s[|s| - 1].distance);
      && |stops| == |ds|
      && (forall k :: 0 <= k < |stops| ==> stops[k].stopNumber == k && stops[k].distance == ds[k])
      && stops[0].kind == Start && stops[0].lat == s[0].point.lat && stops[0].lon == s[0].point.lon
      && (forall k :: 0 < k < |stops| - 1 ==> stops[k].kind == Interior)
      && stops[|stops| - 1].kind == End
      && stops[|stops| - 1].lat == s[|s| - 1].point.lat && stops[|stops| - 1].lon == s[|s| - 1].point.lon
  {
    if |s| > 0 {
      var stops, ds := StopsOf(s), StopDistances(s[|s| - 1].distance);
      var c := InteriorStopCount(s[|s| - 1].distance);
      forall k | 0 <= k < |stops| ensures stops[k].stopNumber == k && stops[k].distance == ds[k] {
        if 0 < k < |stops| - 1 {
          assert stops[k] == InteriorStop(s, k);
        }
      }
    }
  }

  /** `x` lies between `a` and `b` */
  predicate Between(x: real, a: real, b: real) {
    (a <= x <= b) || (b <= x <= a)
  }

  /** A stop interpolated at a distance within leg `i` lies between the leg's ends and
      takes the bearing of the leg's start. */
  lemma InterpolatedOnLeg(s: seq<SkeletonPoint>, i: nat, d: real, stopNumber: nat)
    requires i + 1 < |s| && s[i].distance < d <= s[i + 1].distance
    ensures var v := Interpolated(s, i, d, stopNumber);
      && v.distance == d && v.bearing == s[i].bearing && v.stopNumber == stopNumber
      && Between(v.lat, s[i].point.lat, s[i + 1].point.lat)
      && Between(v.lon, s[i].point.lon, s[i + 1].point.lon)
  {
    var p1, p2 := s[i], s[i + 1];
    var ratio := (d - p1.distance) / (p2.distance - p1.distance);
    RatioInUnitInterval(d - p1.distance, p2.distance - p1.distance);
    InterpolationBetween(p1.point.lat, p2.point.lat, ratio);
    InterpolationBetween(p1.point.lon, p2.point.lon, ratio);
  }

  /** Interior stop `k` lies on the leg whose ends bracket its distance: it takes that
      leg's start bearing, and its position lies between the leg's ends. */
  lemma InteriorStopOnLeg(s: seq<SkeletonPoint>, k: nat)
    requires Chained(s) && |s| > 0 && 1 <= k <= InteriorStopCount(s[|s| - 1].distance)
    ensures var leg := LegOf(s, StopAt(k), 0); var v := InteriorStop(s, k);
      && s[leg].distance < StopAt(k) <= s[leg + 1].distance
      && v.distance == StopAt(k) && v.bearing == s[leg].bearing
      && Between(v.lat, s[leg].point.lat, s[leg + 1].point.lat)
      && Between(v.lon, s[leg].point.lon, s[leg + 1].point.lon)
  {
    var d := StopAt(k);
    var leg := LegOf(s, d, 0);
    assert leg == 0 || s[leg].distance < d;
    InterpolatedOnLeg(s, leg, d, k);
  }

  lemma RatioInUnitInterval(num: real, den: real)
    requires 0.0 < num <= den
    ensures 0.0 < num / den <= 1.0
  {
  }

  lemma InterpolationBetween(a: real, b: real, ratio: real)
    requires 0.0 <= ratio <= 1.0
    ensures Between(a + (b - a) * ratio, a, b)
  {
    if a <= b {
      assert (b - a) * ratio <= (b - a) * 1.0;
    } else {
      assert (a - b) * ratio <= (a - b) * 1.0;
    }
  }

  /** Legs of 300 m and 400 m: stops at 0, 500 and 700 m, numbered 0, 1, 2, the middle
      one halfway along the second leg with that leg's bearing. */
  lemma StopsOfTwoLegs(p0: Point, p1: Point, p2: Point, b0: real, b1: real, b2: real)
    ensures var s := [SkeletonPoint(p0, 0.0, b0), SkeletonPoint(p1, 300.0, b1), SkeletonPoint(p2, 700.0, b2)];
      && Chained(s)
      && StopsOf(s) == [
           VirtualStop(p0.lat, p0.lon, 0.0, b0, 0, Start),
           VirtualStop(p1.lat + (p2.lat - p1.lat) * 0.5, p1.lon + (p2.lon - p1.lon) * 0.5, 500.0, b1, 1, Interior),
           VirtualStop(p2.lat, p2.lon, 700.0, b2, 2, End)]
  {
    var s := [SkeletonPoint(p0, 0.0, b0), SkeletonPoint(p1, 300.0, b1), SkeletonPoint(p2, 700.0, b2)];
    assert Chained(s);
    StopDistancesOf700();
    assert InteriorStopCount(700.0) == 1;
    assert LegOf(s, 500.0, 0) == 1;
    assert (500.0 - 300.0) / (700.0 - 300.0) == 0.5;
    var mid := VirtualStop(p1.lat + (p2.lat - p1.lat) * 0.5, p1.lon + (p2.lon - p1.lon) * 0.5, 500.0, b1, 1, Interior);
    assert StopAt(1) == 500.0;
    assert Interpolated(s, 1, 500.0, 1) == mid;
    assert InteriorStop(s, 1) == mid;
    assert StopsBeforeEnd(s) == [VirtualStop(p0.lat, p0.lon, 0.0, b0, 0, Start), mid];
  }

  /** `computeRouteSkeleton(points)`: the heading filter, the skeleton and its stops */
  method ComputeRouteSkeleton(t: Trig, points: seq<Point>)
    returns (skeleton: seq<SkeletonPoint>, virtualStops: seq<VirtualStop>)
    requires Sound(t)
    ensures skeleton == SkeletonOf(t, HeadingFilterSpec(t, points))
    ensures Chained(skeleton) && virtualStops == StopsOf(skeleton)
  {
    var cleanedPoints := FilterByHeadingConsistency(t, points);
    skeleton := BuildSkeleton(t, cleanedPoints);
    SkeletonChained(t, cleanedPoints);
    virtualStops := PlaceVirtualStops(skeleton);
  }

  // ---------------------------------------------------------------------------
  // snapToRoad: the chunking of the points into requests

  const DefaultMaxPointsPerRequest: int := 50

  /** `points.slice(i, i + maxPerRequest)` for i = 0, maxPerRequest, 2 maxPerRequest, ... */
  function Chunks<T>(points: seq<T>, maxPerRequest: nat): seq<seq<T>>
    requires maxPerRequest >= 1
    decreases |points|
  {
    if |points| == 0 then []
    else
      var k := if |points| < maxPerRequest then |points| else maxPerRequest;
      [points[..k]] + Chunks(points[k..], maxPerRequest)
  }

  /** The chunk loop of `snapToRoad` */
  method ChunkPoints<T>(points: seq<T>, maxPointsPerRequest: nat) returns (chunks: seq<seq<T>>)
    requires maxPointsPerRequest >= 1
    ensures chunks == Chunks(points, maxPointsPerRequest)
  {
    chunks := [];
    var i := 0;
    while i < |points|
      invariant 0 <= i
      invariant i < |points| ==> chunks + Chunks(points[i..], maxPointsPerRequest) == Chunks(points, maxPointsPerRequest)
      invariant i >= |points| ==> chunks == Chunks(points, maxPointsPerRequest)
      decreases |points| - i
    {
      var end := if i + maxPointsPerRequest < |points| then i + maxPointsPerRequest else |points|;
      var rest := points[i..];
      assert rest[..end - i] == points[i..end];
      assert rest[end - i..] == points[end..];
      chunks := chunks + [points[i..end]];
      i := i + maxPointsPerRequest;
    }
  }

  /** The chunks concatenate back to the input. */
  lemma {:induction false} ChunksFlatten<T>(points: seq<T>, maxPerRequest: nat)
    requires maxPerRequest >= 1
    ensures Flatten(Chunks(points, maxPerRequest)) == points
    decreases |points|
  {
    if |points| > 0 {
      var k := if |points| < maxPerRequest then |points| else maxPerRequest;
      ChunksFlatten(points[k..], maxPerRequest);
      FlattenAppend([points[..k]], Chunks(points[k..], maxPerRequest));
      assert Flatten([points[..k]]) == points[..k] by {
        assert [points[..k]][..0] == [];
      }
      assert points[..k] + points[k..] == points;
    }
  }

  /** Every chunk has between 1 and `maxPerRequest` points, and every chunk but the last
      has exactly `maxPerRequest`. */
  ghost predicate ChunkSizes<T>(chunks: seq<seq<T>>, maxPerRequest: nat) {
    && (forall j :: 0 <= j < |chunks| ==> 1 <= |chunks[j]| <= maxPerRequest)
    && (forall j :: 0 <= j < |chunks| - 1 ==> |chunks[j]| == maxPerRequest)
  }

  lemma {:induction false} ChunksSizes<T>(points: seq<T>, maxPerRequest: nat)
    requires maxPerRequest >= 1
    ensures ChunkSizes(Chunks(points, maxPerRequest), maxPerRequest)
    decreases |points|
  {
    if |points| > 0 {
      var k := if |points| < maxPerRequest then |points| else maxPerRequest;
      ChunksSizes(points[k..], maxPerRequest);
      var rest := Chunks(points[k..], maxPerRequest);
      if k < maxPerRequest {
        assert |points[k..]| == 0;
      }
      assert Chunks(points, maxPerRequest) == [points[..k]] + rest;
    }
  }

  lemma DivQuotientStep(x: nat, m: nat, q: int)
    requires m >= 1 && q == x / m
    ensures (x + m) / m == q + 1
  {
    assert q * m <= x < q * m + m;
    assert (q + 1) * m == q * m + m;
    DivIsUnique(x + m, m, q + 1);
  }

  /** There are ceil(n / maxPerRequest) chunks: `chunkCount`, 0 for no points. */
  lemma {:induction false} ChunksCount<T>(points: seq<T>, maxPerRequest: nat)
    requires maxPerRequest >= 1
    ensures |Chunks(points, maxPerRequest)| == (|points| + maxPerRequest - 1) / maxPerRequest
    decreases |points|
  {
    var n, m := |points|, maxPerRequest;
    if n == 0 {
      DivIsUnique(m - 1, m, 0);
    } else if n <= m {
      DivIsUnique(n + m - 1, m, 1);
    } else {
      var rest := points[m..];
      ChunksCount(rest, m);
      assert |rest| + m - 1 == n - 1;
      var q := (n - 1) / m;
      assert |Chunks(points, m)| == 1 + q;
      DivQuotientStep(n - 1, m, q);
    }
  }
}
