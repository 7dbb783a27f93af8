/** The Segmenter (public/pipeline/segmentation.js): groups cleaned points by vehicle,
    cuts each vehicle's time-sorted stream at long time gaps, drops short pieces and
    summarises the rest. */
module Segmentation {
  import opened JsValues
  import opened Geometry
  import opened Sorting
  import opened Selection
  import opened Track

  datatype Segment = Segment(
    points: seq<Point>,
    meanLat: real,
    meanLon: real,
    bearing: real,
    totalDistance: real,
    startPoint: Point,
    endPoint: Point)

  /** `r.vehicleId || 'unknown'` */
  function VehicleKey(p: Point): string { OrDefault(p.vehicleId, "unknown") }

  // ---------------------------------------------------------------------------
  // Segment summary (computeSegmentProperties)

  function SumLat(points: seq<Point>): real {
    if |points| == 0 then 0.0 else SumLat(points[..|points| - 1]) + points[|points| - 1].lat
  }

  function SumLon(points: seq<Point>): real {
    if |points| == 0 then 0.0 else SumLon(points[..|points| - 1]) + points[|points| - 1].lon
  }

  /** The sum of the haversine lengths of consecutive legs */
  function PathLength(t: Trig, points: seq<Point>): real
    requires Sound(t)
  {
    if |points| <= 1 then 0.0
    else
      var a, b := points[|points| - 2], points[|points| - 1];
      PathLength(t, points[..|points| - 1]) + HaversineDistance(t, a.lat, a.lon, b.lat, b.lon)
  }

  /** The summary `computeSegmentProperties` builds for a non-empty run of points */
  function SegmentOf(t: Trig, points: seq<Point>): Segment
    requires Sound(t) && |points| > 0
  {
    var first, last := points[0], points[|points| - 1];
    Segment(points,
            SumLat(points) / |points| as real,
            SumLon(points) / |points| as real,
            Bearing(t, first.lat, first.lon, last.lat, last.lon),
            PathLength(t, points),
            first,
            last)
  }

  lemma {:induction false} PathLengthNonNegative(t: Trig, points: seq<Point>)
    requires Sound(t)
    ensures PathLength(t, points) >= 0.0
  {
    if |points| > 1 {
      PathLengthNonNegative(t, points[..|points| - 1]);
    }
  }

  lemma {:induction false} SumLatBounds(points: seq<Point>, lo: real, hi: real)
    requires forall i :: 0 <= i < |points| ==> lo <= points[i].lat <= hi
    ensures |points| as real * lo <= SumLat(points) <= |points| as real * hi
  {
    if |points| > 0 {
      SumLatBounds(points[..|points| - 1], lo, hi);
    }
  }

  lemma {:induction false} SumLonBounds(points: seq<Point>, lo: real, hi: real)
    requires forall i :: 0 <= i < |points| ==> lo <= points[i].lon <= hi
    ensures |points| as real * lo <= SumLon(points) <= |points| as real * hi
  {
    if |points| > 0 {
      SumLonBounds(points[..|points| - 1], lo, hi);
    }
  }

  lemma DivideBounds(n: real, lo: real, sum: real, hi: real)
    requires n > 0.0 && n * lo <= sum <= n * hi
    ensures lo <= sum / n <= hi
  {
    assert sum / n * n == sum;
  }

  /** The mean latitude lies between the smallest and the largest latitude. */
  lemma MeanLatBounds(points: seq<Point>, lo: real, hi: real)
    requires |points| > 0
    requires forall i :: 0 <= i < |points| ==> lo <= points[i].lat <= hi
    ensures lo <= SumLat(points) / |points| as real <= hi
  {
    SumLatBounds(points, lo, hi);
    DivideBounds(|points| as real, lo, SumLat(points), hi);
  }

  lemma MeanLonBounds(points: seq<Point>, lo: real, hi: real)
    requires |points| > 0
    requires forall i :: 0 <= i < |points| ==> lo <= points[i].lon <= hi
    ensures lo <= SumLon(points) / |points| as real <= hi
  {
    SumLonBounds(points, lo, hi);
    DivideBounds(|points| as real, lo, SumLon(points), hi);
  }

  /** The summary starts and ends at the run's end points, has a non-negative length and a
      normalised bearing, and its centroid lies in the run's bounding box. */
  lemma SegmentSummary(t: Trig, points: seq<Point>, latLo: real, latHi: real, lonLo: real, lonHi: real)
    requires Sound(t) && |points| > 0
    requires forall i :: 0 <= i < |points| ==> latLo <= points[i].lat <= latHi && lonLo <= points[i].lon <= lonHi
    ensures var s := SegmentOf(t, points);
      && s.points == points
      && s.startPoint == points[0] && s.endPoint == points[|points| - 1]
      && s.totalDistance >= 0.0
      && 0.0 <= s.bearing < 360.0
      && latLo <= s.meanLat <= latHi && lonLo <= s.meanLon <= lonHi
  {
    PathLengthNonNegative(t, points);
    MeanLatBounds(points, latLo, latHi);
    MeanLonBounds(points, lonLo, lonHi);
  }

  /** `computeSegmentProperties(points)`; the source only calls it on a non-empty run. */
  method ComputeSegmentProperties(t: Trig, points: seq<Point>) returns (seg: Segment)
    requires Sound(t) && |points| > 0
    ensures seg == SegmentOf(t, points)
  {
    var totalDist := 0.0;
    var meanLat := SumLat(points) / |points| as real;
    var meanLon := SumLon(points) / |points| as real;
    for i := 1 to |points|
      invariant totalDist == PathLength(t, points[..i])
    {
      var a, b := points[i - 1], points[i];
      assert points[..i + 1][..i] == points[..i];
      totalDist := totalDist + HaversineDistance(t, a.lat, a.lon, b.lat, b.lon);
    }
    assert points[..|points|] == points;
    var first, last := points[0], points[|points| - 1];
    var segBearing := Bearing(t, first.lat, first.lon, last.lat, last.lon);
    seg := Segment(points, meanLat, meanLon, segBearing, totalDist, first, last);
  }

  // ---------------------------------------------------------------------------
  // Grouping by vehicle (the `byVehicle` Map, which iterates in insertion order)

  /** The vehicle keys in order of first appearance */
  function KeysInOrder(records: seq<Point>): (keys: seq<string>)
    ensures forall i, j :: 0 <= i < j < |keys| ==> keys[i] != keys[j]
  {
    if |records| == 0 then []
    else
      var keys := KeysInOrder(records[..|records| - 1]);
      var k := VehicleKey(records[|records| - 1]);
      if k in keys then keys else keys + [k]
  }

  /** The records of one vehicle, in input order */
  function GroupOf(records: seq<Point>, key: string): (g: seq<Point>)
    ensures forall i :: 0 <= i < |g| ==> VehicleKey(g[i]) == key && g[i] in records
  {
    if |records| == 0 then []
    else
      var r := records[|records| - 1];
      var earlier := GroupOf(records[..|records| - 1], key);
      if VehicleKey(r) == key then earlier + [r] else earlier
  }

  /** A key is listed exactly when its group is non-empty. */
  lemma {:induction false} KeysMatchGroups(records: seq<Point>)
    ensures forall k :: k in KeysInOrder(records) <==> |GroupOf(records, k)| > 0
  {
    if |records| > 0 {
      KeysMatchGroups(records[..|records| - 1]);
    }
  }

  /** Every point belongs to the group of its own key and to no other. */
  lemma {:induction false} GroupsPartition(records: seq<Point>, key: string)
    ensures multiset(GroupOf(records, key)) <= multiset(records)
    ensures forall p :: p in records && VehicleKey(p) == key ==> p in GroupOf(records, key)
  {
    if |records| > 0 {
      var pre := records[..|records| - 1];
      GroupsPartition(pre, key);
      assert records == pre + [records[|records| - 1]];
    }
  }

  // ---------------------------------------------------------------------------
  // Cutting at time gaps (the `current` buffer)

  lemma FlattenSingle(piece: seq<Point>)
    ensures Flatten([piece]) == piece
  {
    assert [piece][..0] == [];
  }

  /** The candidate pieces of one vehicle's time-sorted points: a new piece starts wherever
      the gap to the previous point is strictly greater than `gapMs`. */
  function Cut(gapMs: real, s: seq<Point>): (pieces: seq<seq<Point>>)
    ensures |s| > 0 <==> |pieces| > 0
  {
    if |s| <= 1 then (if |s| == 0 then [] else [s])
    else
      var pre := Cut(gapMs, s[..|s| - 1]);
      var prev, p := s[|s| - 2], s[|s| - 1];
      if (p.timestamp - prev.timestamp) as real > gapMs then pre + [[p]]
      else pre[..|pre| - 1] + [pre[|pre| - 1] + [p]]
  }

  /** Every piece is non-empty, and the last piece ends with the last point: the previous
      point the loop compares against is the end of its open buffer. */
  lemma {:induction false} CutShape(gapMs: real, s: seq<Point>)
    ensures forall k :: 0 <= k < |Cut(gapMs, s)| ==> |Cut(gapMs, s)[k]| > 0
    ensures |s| > 0 ==> var pieces := Cut(gapMs, s);
      pieces[|pieces| - 1][|pieces[|pieces| - 1]| - 1] == s[|s| - 1]
  {
    if |s| > 1 {
      var s' := s[..|s| - 1];
      CutShape(gapMs, s');
      var pre, cut := Cut(gapMs, s'), Cut(gapMs, s);
      if (s[|s| - 1].timestamp - s[|s| - 2].timestamp) as real > gapMs {
        assert cut == pre + [[s[|s| - 1]]];
        assert forall k :: 0 <= k < |pre| ==> cut[k] == pre[k];
      } else {
        assert cut == pre[..|pre| - 1] + [pre[|pre| - 1] + [s[|s| - 1]]];
        assert forall k :: 0 <= k < |pre| - 1 ==> cut[k] == pre[k];
      }
    }
  }

  /** Consecutive points are in time order and at most `gapMs` apart. */
  ghost predicate TimeChained(points: seq<Point>, gapMs: real) {
    forall i :: 0 <= i < |points| - 1 ==>
      points[i].timestamp <= points[i + 1].timestamp &&
      (points[i + 1].timestamp - points[i].timestamp) as real <= gapMs
  }

  ghost predicate TimeSorted(points: seq<Point>) {
    forall i :: 0 <= i < |points| - 1 ==> points[i].timestamp <= points[i + 1].timestamp
  }

  /** How one more point extends the pieces of a non-empty run */
  lemma CutStep(gapMs: real, s: seq<Point>, p: Point)
    requires |s| > 0
    ensures var pre := Cut(gapMs, s);
      Cut(gapMs, s + [p])
        == if (p.timestamp - s[|s| - 1].timestamp) as real > gapMs then pre + [[p]]
           else pre[..|pre| - 1] + [pre[|pre| - 1] + [p]]
  {
    var s' := s + [p];
    assert s'[..|s'| - 1] == s;
    assert s'[|s'| - 2] == s[|s| - 1];
  }

  lemma CutSingle(gapMs: real, p: Point)
    ensures Cut(gapMs, [p]) == [[p]]
  { }

  lemma FlattenExtend(pre: seq<seq<Point>>, p: Point, split: bool)
    requires |pre| > 0
    ensures Flatten(if split then pre + [[p]] else pre[..|pre| - 1] + [pre[|pre| - 1] + [p]])
         == Flatten(pre) + [p]
  {
    var init, last := pre[..|pre| - 1], pre[|pre| - 1];
    assert pre == init + [last];
    FlattenAppend(init, [last]);
    FlattenSingle(last);
    if split {
      FlattenAppend(pre, [[p]]);
      FlattenSingle([p]);
    } else {
      FlattenAppend(init, [last + [p]]);
      FlattenSingle(last + [p]);
    }
  }

  /** The pieces concatenate back to the input: cutting loses, adds and reorders nothing. */
  lemma {:induction false} CutFlattens(gapMs: real, s: seq<Point>)
    ensures Flatten(Cut(gapMs, s)) == s
  {
    if |s| == 1 {
      FlattenSingle(s);
    } else if |s| > 1 {
      var s', p := s[..|s| - 1], s[|s| - 1];
      assert s == s' + [p];
      CutFlattens(gapMs, s');
      CutStep(gapMs, s', p);
      FlattenExtend(Cut(gapMs, s'), p, (p.timestamp - s'[|s'| - 1].timestamp) as real > gapMs);
    }
  }

  lemma ChainExtend(piece: seq<Point>, p: Point, gapMs: real)
    requires |piece| > 0 && TimeChained(piece, gapMs)
    requires piece[|piece| - 1].timestamp <= p.timestamp
    requires (p.timestamp - piece[|piece| - 1].timestamp) as real <= gapMs
    ensures TimeChained(piece + [p], gapMs)
  {
    var q := piece + [p];
    forall i | 0 <= i < |q| - 1
      ensures q[i].timestamp <= q[i + 1].timestamp
      ensures (q[i + 1].timestamp - q[i].timestamp) as real <= gapMs
    {
      if i < |piece| - 1 {
        assert q[i] == piece[i] && q[i + 1] == piece[i + 1];
      }
    }
  }

  lemma TimeSortedPrefix(s: seq<Point>)
    requires |s| > 0 && TimeSorted(s)
    ensures TimeSorted(s[..|s| - 1])
  {
    var s' := s[..|s| - 1];
    forall i | 0 <= i < |s'| - 1 ensures s'[i].timestamp <= s'[i + 1].timestamp {
      assert s'[i] == s[i] && s'[i + 1] == s[i + 1];
    }
  }

  lemma AllChainedAppend(pieces: seq<seq<Point>>, piece: seq<Point>, gapMs: real)
    requires forall k :: 0 <= k < |pieces| ==> TimeChained(pieces[k], gapMs)
    requires TimeChained(piece, gapMs)
    ensures forall k :: 0 <= k < |pieces + [piece]| ==> TimeChained((pieces + [piece])[k], gapMs)
  {
    forall k | 0 <= k < |pieces + [piece]| ensures TimeChained((pieces + [piece])[k], gapMs) {
      if k < |pieces| {
        assert (pieces + [piece])[k] == pieces[k];
      }
    }
  }

  /** One more point that is not before the last one keeps every piece time-chained. */
  lemma ChainedExtend(pre: seq<seq<Point>>, p: Point, gapMs: real, split: bool, next: seq<seq<Point>>)
    requires |pre| > 0 && |pre[|pre| - 1]| > 0
    requires forall k :: 0 <= k < |pre| ==> TimeChained(pre[k], gapMs)
    requires pre[|pre| - 1][|pre[|pre| - 1]| - 1].timestamp <= p.timestamp
    requires split == ((p.timestamp - pre[|pre| - 1][|pre[|pre| - 1]| - 1].timestamp) as real > gapMs)
    requires next == if split then pre + [[p]] else pre[..|pre| - 1] + [pre[|pre| - 1] + [p]]
    ensures forall k :: 0 <= k < |next| ==> TimeChained(next[k], gapMs)
  {
    if split {
      AllChainedAppend(pre, [p], gapMs);
    } else {
      var init, last := pre[..|pre| - 1], pre[|pre| - 1];
      ChainExtend(last, p, gapMs);
      assert forall k :: 0 <= k < |init| ==> init[k] == pre[k];
      AllChainedAppend(init, last + [p], gapMs);
    }
  }

  /** On time-sorted input every piece is time-chained: no gap inside a piece exceeds
      `gapMs` (a gap exactly equal to `gapMs` does not split). */
  lemma {:induction false} CutPiecesChained(gapMs: real, s: seq<Point>)
    requires TimeSorted(s)
    ensures forall k :: 0 <= k < |Cut(gapMs, s)| ==> TimeChained(Cut(gapMs, s)[k], gapMs)
  {
    if |s| > 1 {
      var s', p := s[..|s| - 1], s[|s| - 1];
      assert s == s' + [p];
      TimeSortedPrefix(s);
      CutPiecesChained(gapMs, s');
      CutShape(gapMs, s');
      CutStep(gapMs, s', p);
      assert s[|s| - 2].timestamp <= p.timestamp;
      ChainedExtend(Cut(gapMs, s'), p, gapMs, (p.timestamp - s'[|s'| - 1].timestamp) as real > gapMs, Cut(gapMs, s));
    }
  }

  /** Consecutive pieces are separated by a gap strictly greater than `gapMs`. */
  ghost predicate Separated(pieces: seq<seq<Point>>, gapMs: real)
    requires forall k :: 0 <= k < |pieces| ==> |pieces[k]| > 0
  {
    forall k :: 0 <= k < |pieces| - 1 ==>
      (pieces[k + 1][0].timestamp - pieces[k][|pieces[k]| - 1].timestamp) as real > gapMs
  }

  lemma SeparatedExtend(pre: seq<seq<Point>>, p: Point, gapMs: real, split: bool, next: seq<seq<Point>>)
    requires |pre| > 0 && forall k :: 0 <= k < |pre| ==> |pre[k]| > 0
    requires Separated(pre, gapMs)
    requires split == ((p.timestamp - pre[|pre| - 1][|pre[|pre| - 1]| - 1].timestamp) as real > gapMs)
    requires next == if split then pre + [[p]] else pre[..|pre| - 1] + [pre[|pre| - 1] + [p]]
    ensures forall k :: 0 <= k < |next| ==> |next[k]| > 0
    ensures Separated(next, gapMs)
  {
    var last := pre[|pre| - 1];
    if split {
      forall k | 0 <= k < |next| - 1
        ensures (next[k + 1][0].timestamp - next[k][|next[k]| - 1].timestamp) as real > gapMs
      {
        assert next[k] == pre[k];
        if k < |pre| - 1 {
          assert next[k + 1] == pre[k + 1];
        }
      }
    } else {
      assert (last + [p])[0] == last[0];
      forall k | 0 <= k < |next| - 1
        ensures (next[k + 1][0].timestamp - next[k][|next[k]| - 1].timestamp) as real > gapMs
      {
        assert next[k] == pre[k];
        assert next[k + 1][0] == pre[k + 1][0];
      }
    }
  }

  lemma {:induction false} CutPiecesSeparated(gapMs: real, s: seq<Point>)
    ensures (forall k :: 0 <= k < |Cut(gapMs, s)| ==> |Cut(gapMs, s)[k]| > 0) && Separated(Cut(gapMs, s), gapMs)
  {
    CutShape(gapMs, s);
    if |s| > 1 {
      var s', p := s[..|s| - 1], s[|s| - 1];
      assert s == s' + [p];
      CutPiecesSeparated(gapMs, s');
      CutShape(gapMs, s');
      CutStep(gapMs, s', p);
      SeparatedExtend(Cut(gapMs, s'), p, gapMs, (p.timestamp - s'[|s'| - 1].timestamp) as real > gapMs, Cut(gapMs, s));
    }
  }

  // ---------------------------------------------------------------------------
  // The kept segments

  /** The summaries of the pieces with at least `minPts` points, in order */
  function KeptSegments(t: Trig, pieces: seq<seq<Point>>, minPts: int): seq<Segment>
    requires Sound(t)
    requires forall k :: 0 <= k < |pieces| ==> |pieces[k]| > 0
  {
    if |pieces| == 0 then []
    else
      var last := pieces[|pieces| - 1];
      KeptSegments(t, pieces[..|pieces| - 1], minPts) + (if |last| >= minPts then [SegmentOf(t, last)] else [])
  }

  /** The candidate segments of one vehicle */
  function VehicleSegments(t: Trig, sorted: seq<Point>, gapMs: real, minPts: int): seq<Segment>
    requires Sound(t)
  {
    CutShape(gapMs, sorted);
    KeptSegments(t, Cut(gapMs, sorted), minPts)
  }

  /** The time-sorted points of one vehicle */
  function SortedGroup(records: seq<Point>, key: string): seq<Point> {
    SortSpec(TimeOrder(), GroupOf(records, key))
  }

  /** All candidate segments, vehicle after vehicle in the given key order */
  function Candidates(t: Trig, records: seq<Point>, keys: seq<string>, gapMs: real, minPts: int): seq<Segment>
    requires Sound(t)
  {
    if |keys| == 0 then []
    else
      Candidates(t, records, keys[..|keys| - 1], gapMs, minPts)
        + VehicleSegments(t, SortedGroup(records, keys[|keys| - 1]), gapMs, minPts)
  }

  /** `segments.filter(s => s.totalDistance >= minSegmentDistanceMeters)` */
  function LongEnough(segments: seq<Segment>, minDist: real): (r: seq<Segment>)
    ensures forall s :: s in r ==> s in segments && s.totalDistance >= minDist
    ensures forall s :: s in segments && s.totalDistance >= minDist ==> s in r
    // the kept segments stay in their order
    ensures IsSubsequence(r, segments)
  {
    if |segments| == 0 then []
    else
      var s := segments[|segments| - 1];
      var prefix := segments[..|segments| - 1];
      assert segments == prefix + [s];
      var kept := LongEnough(prefix, minDist);
      if s.totalDistance >= minDist then
        SubsequenceExtendBoth(kept, prefix, s);
        kept + [s]
      else
        SubsequenceExtendRight(kept, prefix, s);
        kept
  }

  /** `timeGapMinutes * 60 * 1000` */
  function GapMs(timeGapMinutes: real): real { timeGapMinutes * 60.0 * 1000.0 }

  /** `segmentTrips(records, options)` as a function of its input */
  function SegmentTripsSpec(t: Trig, records: seq<Point>, timeGapMinutes: real, minPts: int, minDist: real)
    : seq<Segment>
    requires Sound(t)
  {
    LongEnough(Candidates(t, records, KeysInOrder(records), GapMs(timeGapMinutes), minPts), minDist)
  }

  /** What every returned segment satisfies */
  ghost predicate WellFormed(t: Trig, s: Segment, records: seq<Point>, gapMs: real, minPts: int)
    requires Sound(t)
  {
    && |s.points| > 0
    && |s.points| >= minPts
    && s == SegmentOf(t, s.points)
    && TimeChained(s.points, gapMs)
    && (forall i :: 0 <= i < |s.points| ==> VehicleKey(s.points[i]) == VehicleKey(s.points[0]))
    && (forall p :: p in s.points ==> p in records)
  }

  lemma {:induction false} KeptWellFormed(
    t: Trig, pieces: seq<seq<Point>>, minPts: int, records: seq<Point>, gapMs: real, key: string)
    requires Sound(t)
    requires forall k :: 0 <= k < |pieces| ==> |pieces[k]| > 0 && TimeChained(pieces[k], gapMs)
    requires forall k, i :: 0 <= k < |pieces| && 0 <= i < |pieces[k]| ==>
      VehicleKey(pieces[k][i]) == key && pieces[k][i] in records
    ensures forall s :: s in KeptSegments(t, pieces, minPts) ==> WellFormed(t, s, records, gapMs, minPts)
  {
    if |pieces| > 0 {
      var last := pieces[|pieces| - 1];
      KeptWellFormed(t, pieces[..|pieces| - 1], minPts, records, gapMs, key);
      if |last| >= minPts {
        var s := SegmentOf(t, last);
        assert forall p :: p in s.points ==> p in records by {
          forall p | p in s.points ensures p in records {
            var i :| 0 <= i < |last| && last[i] == p;
          }
        }
      }
    }
  }

  /** One vehicle's sorted points are time-sorted, carry its key and come from the input. */
  lemma SortedGroupFacts(records: seq<Point>, key: string)
    ensures var sorted := SortedGroup(records, key);
      && TimeSorted(sorted)
      && (forall i :: 0 <= i < |sorted| ==> VehicleKey(sorted[i]) == key && sorted[i] in records)
  {
    var group := GroupOf(records, key);
    var sorted := SortedGroup(records, key);
    TimeOrderIsTotalPreorder();
    SortSpecSorted(TimeOrder(), group);
    SortSpecPermutes(TimeOrder(), group);
    forall i | 0 <= i < |sorted| - 1 ensures sorted[i].timestamp <= sorted[i + 1].timestamp {
      assert TimeOrder()(sorted[i], sorted[i + 1]);
    }
    forall i | 0 <= i < |sorted| ensures VehicleKey(sorted[i]) == key && sorted[i] in records {
      assert sorted[i] in multiset(group);
      var j :| 0 <= j < |group| && group[j] == sorted[i];
    }
  }

  /** The segments of one vehicle are well formed. */
  lemma VehicleWellFormed(t: Trig, records: seq<Point>, key: string, gapMs: real, minPts: int)
    requires Sound(t)
    ensures forall s :: s in VehicleSegments(t, SortedGroup(records, key), gapMs, minPts) ==>
      WellFormed(t, s, records, gapMs, minPts)
  {
    var sorted := SortedGroup(records, key);
    SortedGroupFacts(records, key);
    CutPiecesChained(gapMs, sorted);
    CutShape(gapMs, sorted);
    var pieces := Cut(gapMs, sorted);
    CutFlattens(gapMs, sorted);
    FlattenMembers(pieces);
    forall k, i | 0 <= k < |pieces| && 0 <= i < |pieces[k]|
      ensures VehicleKey(pieces[k][i]) == key && pieces[k][i] in records
    {
      assert pieces[k][i] in pieces[k];
      assert Flatten(pieces) == sorted && pieces[k][i] in Flatten(pieces);
      var j :| 0 <= j < |sorted| && sorted[j] == pieces[k][i];
    }
    KeptWellFormed(t, pieces, minPts, records, gapMs, key);
  }

  lemma {:induction false} CandidatesWellFormed(
    t: Trig, records: seq<Point>, keys: seq<string>, gapMs: real, minPts: int)
    requires Sound(t)
    ensures forall s :: s in Candidates(t, records, keys, gapMs, minPts) ==> WellFormed(t, s, records, gapMs, minPts)
  {
    if |keys| > 0 {
      CandidatesWellFormed(t, records, keys[..|keys| - 1], gapMs, minPts);
      VehicleWellFormed(t, records, keys[|keys| - 1], gapMs, minPts);
    }
  }

  /** Every returned segment has at least `minPts` points and at least `minDist` metres, is
      the summary of its own points, is time-chained within the gap, belongs to one vehicle
      key, and holds only input points. */
  lemma SegmentTripsWellFormed(t: Trig, records: seq<Point>, timeGapMinutes: real, minPts: int, minDist: real)
    requires Sound(t)
    ensures forall s :: s in SegmentTripsSpec(t, records, timeGapMinutes, minPts, minDist) ==>
      && WellFormed(t, s, records, GapMs(timeGapMinutes), minPts)
      && s.totalDistance >= minDist
  {
    CandidatesWellFormed(t, records, KeysInOrder(records), GapMs(timeGapMinutes), minPts);
  }

  // ---------------------------------------------------------------------------
  // The imperative stage

  /** The defaults of `segmentTrips`'s options */
  const DefaultTimeGapMinutes: real := 10.0
  const DefaultMinSegmentPoints: int := 30
  const DefaultMinSegmentDistanceMeters: real := 500.0

  /** One more vehicle key appends that vehicle's segments. */
  lemma CandidatesStep(t: Trig, records: seq<Point>, keys: seq<string>, ki: nat, gapMs: real, minPts: int)
    requires Sound(t) && ki < |keys|
    ensures Candidates(t, records, keys[..ki + 1], gapMs, minPts)
         == Candidates(t, records, keys[..ki], gapMs, minPts)
            + VehicleSegments(t, SortedGroup(records, keys[ki]), gapMs, minPts)
  {
    assert keys[..ki + 1][..ki] == keys[..ki];
  }

  /** `segmentTrips(records, { timeGapMinutes, minSegmentPoints, minSegmentDistanceMeters })` */
  method SegmentTrips(t: Trig, records: seq<Point>, timeGapMinutes: real, minSegmentPoints: int,
                      minSegmentDistanceMeters: real) returns (result: seq<Segment>)
    requires Sound(t)
    ensures result == SegmentTripsSpec(t, records, timeGapMinutes, minSegmentPoints, minSegmentDistanceMeters)
    ensures forall s :: s in result ==>
      WellFormed(t, s, records, GapMs(timeGapMinutes), minSegmentPoints) && s.totalDistance >= minSegmentDistanceMeters
  {
    var timeGapMs := GapMs(timeGapMinutes);
    var keys, byVehicle := GroupByVehicle(records);
    var segments: seq<Segment> := [];
    for ki := 0 to |keys|
      invariant segments == Candidates(t, records, keys[..ki], timeGapMs, minSegmentPoints)
    {
      var vid := keys[ki];
      var points := SortByTime(byVehicle[vid]);
      assert points == SortedGroup(records, vid);
      var vehicleSegments := CutAndSummarise(t, points, timeGapMs, minSegmentPoints);
      CandidatesStep(t, records, keys, ki, timeGapMs, minSegmentPoints);
      segments := segments + vehicleSegments;
    }
    assert keys[..|keys|] == keys;
    result := LongEnough(segments, minSegmentDistanceMeters);
    SegmentTripsWellFormed(t, records, timeGapMinutes, minSegmentPoints, minSegmentDistanceMeters);
  }

  /** The grouping loop of `segmentTrips`: the `byVehicle` Map, with its insertion order
      kept in `keys`. Every key has a non-empty group. */
  method GroupByVehicle(records: seq<Point>) returns (keys: seq<string>, byVehicle: map<string, seq<Point>>)
    ensures keys == KeysInOrder(records)
    ensures forall k :: k in byVehicle <==> k in keys
    ensures forall k :: k in byVehicle ==> byVehicle[k] == GroupOf(records, k) && |byVehicle[k]| > 0
  {
    keys := [];
    byVehicle := map[];
    for i := 0 to |records|
      invariant keys == KeysInOrder(records[..i])
      invariant forall k :: k in byVehicle <==> k in keys
      invariant forall k :: k in byVehicle ==> byVehicle[k] == GroupOf(records[..i], k)
    {
      var r := records[i];
      assert records[..i + 1][..i] == records[..i];
      KeysMatchGroups(records[..i]);
      var vid := VehicleKey(r);
      if vid !in byVehicle {
        byVehicle := byVehicle[vid := []];
        keys := keys + [vid];
      }
      byVehicle := byVehicle[vid := byVehicle[vid] + [r]];
    }
    assert records[..|records|] == records;
    KeysMatchGroups(records);
  }

  /** `points.sort((a, b) => a.timestamp - b.timestamp)` on one vehicle's array */
  method SortByTime(group: seq<Point>) returns (points: seq<Point>)
    ensures points == SortSpec(TimeOrder(), group)
    ensures |points| == |group|
  {
    var a := new Point[|group|](j requires 0 <= j < |group| => group[j]);
    assert a[..] == group;
    InsertionSort(a, TimeOrder());
    points := a[..];
    SortSpecPermutes(TimeOrder(), group);
  }

  /** How one more piece extends the kept segments */
  lemma KeptStep(t: Trig, pieces: seq<seq<Point>>, piece: seq<Point>, minPts: int)
    requires Sound(t)
    requires forall k :: 0 <= k < |pieces| ==> |pieces[k]| > 0
    requires |piece| > 0
    ensures KeptSegments(t, pieces + [piece], minPts)
         == KeptSegments(t, pieces, minPts) + (if |piece| >= minPts then [SegmentOf(t, piece)] else [])
  {
    assert (pieces + [piece])[..|pieces|] == pieces;
  }

  /** Where the loop of `CutAndSummarise` stands after the first `i` points: the closed
      buffers and the open one are the pieces of that prefix. */
  ghost predicate CutSoFar(gapMs: real, points: seq<Point>, i: nat, closed: seq<seq<Point>>, current: seq<Point>)
    requires i <= |points|
  {
    && (forall k :: 0 <= k < |closed| ==> |closed[k]| > 0)
    && (i == 0 ==> current == [] && closed == [])
    && (i > 0 ==> |current| > 0 && Cut(gapMs, points[..i]) == closed + [current])
  }

  /** One more point either closes the open buffer and starts a new one, or joins it. */
  lemma CutNext(gapMs: real, points: seq<Point>, i: nat, closed: seq<seq<Point>>, current: seq<Point>, split: bool)
    requires i < |points| && CutSoFar(gapMs, points, i, closed, current)
    requires split == (|current| > 0 && (points[i].timestamp - current[|current| - 1].timestamp) as real > gapMs)
    ensures split ==> CutSoFar(gapMs, points, i + 1, closed + [current], [points[i]])
    ensures !split ==> CutSoFar(gapMs, points, i + 1, closed, current + [points[i]])
  {
    var p := points[i];
    assert points[..i + 1] == points[..i] + [p];
    if i == 0 {
      CutSingle(gapMs, p);
      assert points[..1] == [p];
    } else {
      var pieces := Cut(gapMs, points[..i]);
      CutShape(gapMs, points[..i]);
      CutStep(gapMs, points[..i], p);
      assert pieces[|pieces| - 1] == current;
      assert pieces[..|pieces| - 1] == closed;
      assert current[|current| - 1] == points[..i][i - 1];
      if split {
        assert closed + [current] + [[p]] == (closed + [current]) + [[p]];
      }
    }
  }

  /** After the last point, closing the open buffer gives every piece. */
  lemma CutDone(t: Trig, gapMs: real, points: seq<Point>, closed: seq<seq<Point>>, current: seq<Point>, minPts: int)
    requires Sound(t) && |points| > 0 && CutSoFar(gapMs, points, |points|, closed, current)
    ensures |current| > 0
    ensures VehicleSegments(t, points, gapMs, minPts)
         == KeptSegments(t, closed, minPts) + (if |current| >= minPts then [SegmentOf(t, current)] else [])
  {
    assert points[..|points|] == points;
    KeptStep(t, closed, current, minPts);
  }

  /** The inner loop of `segmentTrips` for one vehicle: the `current` buffer is closed at each
      gap, and every closed buffer with enough points is summarised. */
  method CutAndSummarise(t: Trig, points: seq<Point>, timeGapMs: real, minSegmentPoints: int)
    returns (segments: seq<Segment>)
    requires Sound(t) && |points| > 0
    ensures segments == VehicleSegments(t, points, timeGapMs, minSegmentPoints)
  {
    segments := [];
    var current: seq<Point> := [];
    ghost var closed: seq<seq<Point>> := [];
    for i := 0 to |points|
      invariant CutSoFar(timeGapMs, points, i, closed, current)
      invariant segments == KeptSegments(t, closed, minSegmentPoints)
    {
      var p := points[i];
      var split := |current| > 0 && (p.timestamp - current[|current| - 1].timestamp) as real > timeGapMs;
      CutNext(timeGapMs, points, i, closed, current, split);
      if split {
        if |current| >= minSegmentPoints {
          var seg := ComputeSegmentProperties(t, current);
          segments := segments + [seg];
        }
        KeptStep(t, closed, current, minSegmentPoints);
        closed := closed + [current];
        current := [p];
      } else {
        current := current + [p];
      }
    }
    CutDone(t, timeGapMs, points, closed, current, minSegmentPoints);
    if |current| >= minSegmentPoints {
      var seg := ComputeSegmentProperties(t, current);
      segments := segments + [seg];
    }
  }
}
