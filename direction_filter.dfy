/** The Direction classifier (public/pipeline/directionFilter.js): circular k-means over
    the segment bearings, then the largest cluster is selected. */
module DirectionFilter {
  import opened JsValues
  import opened Geometry
  import opened Selection
  import opened Segmentation

  // ---------------------------------------------------------------------------
  // computeSegmentHeadings

  /** A segment with the two heading fields `computeSegmentHeadings` adds */
  datatype HeadedSegment = HeadedSegment(segment: Segment, medianHeading: real, headingDispersion: real)

  function ComputeSegmentHeadings(segments: seq<Segment>): (r: seq<HeadedSegment>)
    ensures |r| == |segments|
    ensures forall i :: 0 <= i < |r| ==>
      && r[i].segment == segments[i]
      && r[i].medianHeading == segments[i].bearing
      && r[i].headingDispersion == 0.0
  {
    seq(|segments|, i requires 0 <= i < |segments| => HeadedSegment(segments[i], segments[i].bearing, 0.0))
  }

  // ---------------------------------------------------------------------------
  // The k-means steps as functions

  /** `centers.map(c => angularDistance(a, c))` */
  function Dists(a: real, centers: seq<real>): (d: seq<real>)
    ensures |d| == |centers|
    ensures forall j :: 0 <= j < |d| ==> d[j] == AngularDistance(a, centers[j])
  {
    seq(|centers|, j requires 0 <= j < |centers| => AngularDistance(a, centers[j]))
  }

  /** The centre an angle is assigned to: the one at the smallest angular distance, the
      lowest index on ties */
  function Nearest(a: real, centers: seq<real>): (r: nat)
    requires |centers| > 0
    ensures r < |centers|
    ensures forall j :: 0 <= j < |centers| ==> AngularDistance(a, centers[r]) <= AngularDistance(a, centers[j])
    ensures forall j :: 0 <= j < r ==> AngularDistance(a, centers[r]) < AngularDistance(a, centers[j])
  {
    var d := Dists(a, centers);
    FirstMinIndex(d)
  }

  /** The assignments pass: one centre index per angle */
  function Assign(angles: seq<real>, centers: seq<real>): (r: seq<int>)
    requires |centers| > 0
    ensures |r| == |angles|
    ensures forall i :: 0 <= i < |r| ==> 0 <= r[i] < |centers| && r[i] == Nearest(angles[i], centers)
  {
    seq(|angles|, i requires 0 <= i < |angles| => Nearest(angles[i], centers) as int)
  }

  /** `angles.filter((_, idx) => assignments[idx] === c)`, in input order */
  function Members(angles: seq<real>, assignments: seq<int>, c: int): (r: seq<real>)
    requires |assignments| == |angles|
    ensures |r| == CountOf(assignments, c)
  {
    if |angles| == 0 then []
    else
      var n := |angles| - 1;
      Members(angles[..n], assignments[..n], c) + (if assignments[n] == c then [angles[n]] else [])
  }

  /** Every centre lies in [0, 360). */
  ghost predicate Normalised(centers: seq<real>) {
    forall i :: 0 <= i < |centers| ==> 0.0 <= centers[i] < 360.0
  }

  /** One update round: each centre with members moves to their circular mean; a centre
      with no members keeps its previous value. So the update keeps every centre in
      [0, 360). */
  function UpdateCenters(t: Trig, angles: seq<real>, centers: seq<real>): (r: seq<real>)
    requires Sound(t) && |centers| > 0
    ensures |r| == |centers|
    ensures Normalised(centers) ==> Normalised(r)
  {
    var assignments := Assign(angles, centers);
    seq(|centers|, i requires 0 <= i < |centers| =>
      var m := Members(angles, assignments, i);
      if |m| > 0 then CircularMean(t, m) else centers[i])
  }

  /** The centres after `n` update rounds */
  function Rounds(t: Trig, angles: seq<real>, centers: seq<real>, n: nat): (r: seq<real>)
    requires Sound(t) && |centers| > 0
    ensures |r| == |centers|
    ensures Normalised(centers) ==> Normalised(r)
  {
    if n == 0 then centers else UpdateCenters(t, angles, Rounds(t, angles, centers, n - 1))
  }

  /** `(360 / k) * i` for i in 0 .. k-1 */
  function InitialCenters(k: nat): (r: seq<real>)
    requires k >= 1
    ensures |r| == k
  {
    seq(k, i requires 0 <= i < k => (360.0 / k as real) * i as real)
  }

  const UpdateRounds: nat := 10

  datatype Cluster = Cluster(center: real, indices: seq<nat>)

  /** The result: one cluster per centre, holding the indices finally assigned to it */
  function FinalClusters(angles: seq<real>, centers: seq<real>): (r: seq<Cluster>)
    requires |centers| > 0
    ensures |r| == |centers|
  {
    var assignments := Assign(angles, centers);
    seq(|centers|, i requires 0 <= i < |centers| => Cluster(centers[i], IndicesOf(assignments, i)))
  }

  function KMeansSpec(t: Trig, angles: seq<real>, k: nat): seq<Cluster>
    requires Sound(t) && k >= 1
  {
    FinalClusters(angles, Rounds(t, angles, InitialCenters(k), UpdateRounds))
  }

  // ---------------------------------------------------------------------------
  // Properties of the k-means model

  /** The initial centres split the circle evenly, from 0 upward, so they are normalised. */
  lemma InitialCentersNormalised(k: nat)
    requires k >= 1
    ensures InitialCenters(k)[0] == 0.0
    ensures Normalised(InitialCenters(k))
    ensures forall i :: 0 <= i < k - 1 ==> InitialCenters(k)[i + 1] - InitialCenters(k)[i] == 360.0 / k as real
  {
    var step := 360.0 / k as real;
    assert step * k as real == 360.0;
    forall i | 0 <= i < k ensures 0.0 <= InitialCenters(k)[i] < 360.0 {
      assert step * i as real < step * k as real;
    }
  }


  /** A centre moves only when its cluster is non-empty, and then to the circular mean of
      its members. */
  lemma UpdateMovesOnlyNonEmpty(t: Trig, angles: seq<real>, centers: seq<real>, i: nat)
    requires Sound(t) && i < |centers|
    ensures var m := Members(angles, Assign(angles, centers), i);
      && (CountOf(Assign(angles, centers), i) == 0 ==> UpdateCenters(t, angles, centers)[i] == centers[i])
      && (CountOf(Assign(angles, centers), i) > 0 ==> UpdateCenters(t, angles, centers)[i] == CircularMean(t, m))
  {
  }

  /** The members of a cluster are exactly the angles at its indices. */
  lemma {:induction false} MembersAreIndexed(angles: seq<real>, assignments: seq<int>, c: int)
    requires |assignments| == |angles|
    ensures var idx := IndicesOf(assignments, c);
      |Members(angles, assignments, c)| == |idx| &&
      forall j :: 0 <= j < |idx| ==> Members(angles, assignments, c)[j] == angles[idx[j]]
  {
    IndicesOfCount(assignments, c);
    if |angles| > 0 {
      var n := |angles| - 1;
      MembersAreIndexed(angles[..n], assignments[..n], c);
    }
  }

  /** The index lists partition 0 .. n-1: each index is in the list of the centre it is
      nearest to and in no other, and every list is strictly ascending. */
  lemma ClustersPartition(angles: seq<real>, centers: seq<real>)
    requires |centers| > 0
    ensures var clusters := FinalClusters(angles, centers);
      && (forall idx :: 0 <= idx < |angles| ==> idx in clusters[Nearest(angles[idx], centers)].indices)
      && (forall c, idx :: 0 <= c < |clusters| && idx in clusters[c].indices ==>
            idx < |angles| && c == Nearest(angles[idx], centers))
      && (forall c, i, j :: 0 <= c < |clusters| && 0 <= i < j < |clusters[c].indices| ==>
            clusters[c].indices[i] < clusters[c].indices[j])
  {
  }

  /** The cluster sizes add up to the number of angles. */
  lemma ClusterSizesTotal(angles: seq<real>, centers: seq<real>)
    requires |centers| > 0
    ensures SumCounts(Assign(angles, centers), |centers|) == |angles|
  {
    SumCountsTotal(Assign(angles, centers), |centers|);
  }

  // ---------------------------------------------------------------------------
  // The imperative k-means

  /** `kMeansCircular(angles, k)`: `k >= 1` (for k = 0 the source has no cluster to select
      and fails). */
  method KMeansCircular(t: Trig, angles: seq<real>, k: nat) returns (clusters: seq<Cluster>)
    requires Sound(t) && k >= 1
    ensures clusters == KMeansSpec(t, angles, k)
    ensures |clusters| == k
    ensures forall c :: 0 <= c < k ==> 0.0 <= clusters[c].center < 360.0
  {
    var centers := new real[k];
    for i := 0 to k
      invariant forall j :: 0 <= j < i ==> centers[j] == InitialCenters(k)[j]
    {
      centers[i] := (360.0 / k as real) * i as real;
    }
    assert centers[..] == InitialCenters(k);

    for iter := 0 to UpdateRounds
      invariant centers[..] == Rounds(t, angles, InitialCenters(k), iter)
    {
      UpdateRound(t, angles, centers);
    }

    var finalCenters := centers[..];
    var finalAssignments := Assign(angles, finalCenters);
    clusters := seq(k, i requires 0 <= i < k => Cluster(finalCenters[i], IndicesOf(finalAssignments, i)));
    InitialCentersNormalised(k);
  }

  /** One round of `kMeansCircular`: the assignments are computed from the current
      centres, then every centre with members moves to their circular mean. */
  method UpdateRound(t: Trig, angles: seq<real>, centers: array<real>)
    requires Sound(t) && centers.Length > 0
    modifies centers
    ensures centers[..] == UpdateCenters(t, angles, old(centers[..]))
  {
    ghost var before := centers[..];
    var assignments := Assign(angles, centers[..]);
    for i := 0 to centers.Length
      invariant forall j :: 0 <= j < i ==> centers[j] == UpdateCenters(t, angles, before)[j]
      invariant forall j :: i <= j < centers.Length ==> centers[j] == before[j]
    {
      var clusterAngles := Members(angles, assignments, i);
      if |clusterAngles| > 0 {
        centers[i] := CircularMean(t, clusterAngles);
      }
    }
    assert centers[..] == UpdateCenters(t, angles, before);
  }

  // ---------------------------------------------------------------------------
  // clusterByDirection

  datatype Selected = Selected(segments: seq<Segment>, meanHeading: real, count: nat)

  datatype DirectionResult = DirectionResult(clusters: seq<Cluster>, selected: Selected, dominantRatio: JsNum)

  /** `clusters.map(c => c.indices.length)` */
  function Counts(clusters: seq<Cluster>): (r: seq<int>)
    ensures |r| == |clusters|
    ensures forall c :: 0 <= c < |r| ==> r[c] == |clusters[c].indices|
  {
    seq(|clusters|, c requires 0 <= c < |clusters| => |clusters[c].indices|)
  }

  /** `dominant.indices.length / segments.length`: NaN (0/0) for no segments */
  function Ratio(count: nat, n: nat): JsNum {
    if n == 0 then NaN else Num(count as real / n as real)
  }

  /** Every index in a cluster list is below `n`. */
  ghost predicate IndicesBelow(clusters: seq<Cluster>, n: nat) {
    forall c, j :: 0 <= c < |clusters| && 0 <= j < |clusters[c].indices| ==> clusters[c].indices[j] < n
  }

  /** The selection in `clusterByDirection`, given the k-means result: the largest cluster,
      the first on ties, with its segments, centre and size, and its share of all segments */
  function SelectDominant(segments: seq<Segment>, clusters: seq<Cluster>): (r: DirectionResult)
    requires |clusters| > 0 && IndicesBelow(clusters, |segments|)
    ensures r.clusters == clusters
    ensures forall c :: 0 <= c < |clusters| ==> |clusters[c].indices| <= r.selected.count
    ensures exists d ::
      && 0 <= d < |clusters|
      && r.selected == Selected(Pick(segments, clusters[d].indices), clusters[d].center, |clusters[d].indices|)
      && (forall c :: 0 <= c < d ==> |clusters[c].indices| < r.selected.count)
    ensures |segments| > 0 ==> r.dominantRatio == Num(r.selected.count as real / |segments| as real)
    ensures |segments| == 0 ==> r.dominantRatio == NaN
  {
    var counts := Counts(clusters);
    var d := FirstMaxIndex(counts);
    var dominant := clusters[d];
    assert forall c :: 0 <= c < |clusters| ==> counts[c] <= counts[d];
    DirectionResult(
      clusters,
      Selected(Pick(segments, dominant.indices), dominant.center, |dominant.indices|),
      Ratio(|dominant.indices|, |segments|))
  }

  function Bearings(segments: seq<Segment>): (r: seq<real>)
    ensures |r| == |segments|
    ensures forall i :: 0 <= i < |r| ==> r[i] == segments[i].bearing
  {
    seq(|segments|, i requires 0 <= i < |segments| => segments[i].bearing)
  }

  /** Each cluster's list has as many indices as angles assigned to it, all below `n`. */
  lemma ClusterSizes(angles: seq<real>, centers: seq<real>)
    requires |centers| > 0
    ensures var clusters := FinalClusters(angles, centers);
      && IndicesBelow(clusters, |angles|)
      && forall c :: 0 <= c < |clusters| ==> |clusters[c].indices| == CountOf(Assign(angles, centers), c)
  {
    var assignments := Assign(angles, centers);
    var clusters := FinalClusters(angles, centers);
    forall c | 0 <= c < |clusters| ensures |clusters[c].indices| == CountOf(assignments, c) {
      assert clusters[c].indices == IndicesOf(assignments, c);
      IndicesOfCount(assignments, c);
    }
  }

  /** The largest cluster holds at most all and at least a k-th of the angles. */
  lemma DominantBounds(angles: seq<real>, centers: seq<real>, m: nat)
    requires |centers| > 0
    requires forall c :: 0 <= c < |centers| ==> |FinalClusters(angles, centers)[c].indices| <= m
    requires exists d :: 0 <= d < |centers| && |FinalClusters(angles, centers)[d].indices| == m
    ensures m <= |angles| <= |centers| * m
  {
    var assignments := Assign(angles, centers);
    ClusterSizes(angles, centers);
    var d :| 0 <= d < |centers| && |FinalClusters(angles, centers)[d].indices| == m;
    CountOfBound(assignments, d);
    Pigeonhole(assignments, |centers|, m);
  }

  /** `clusterByDirection(segments, { k, dominantThreshold })`; the threshold is read but
      never used by the source. */
  method ClusterByDirection(t: Trig, segments: seq<Segment>, k: nat, dominantThreshold: real)
    returns (result: DirectionResult)
    requires Sound(t) && k >= 1
    ensures var clusters := KMeansSpec(t, Bearings(segments), k);
      IndicesBelow(clusters, |segments|) && result == SelectDominant(segments, clusters)
    ensures |result.clusters| == k
    ensures result.selected.count <= |segments| <= k * result.selected.count
    ensures 0.0 <= result.selected.meanHeading < 360.0
  {
    var bearings := Bearings(segments);
    var clusters := KMeansCircular(t, bearings, k);
    ClusterSizes(bearings, Rounds(t, bearings, InitialCenters(k), UpdateRounds));
    var counts := Counts(clusters);
    var maxIdx := FirstMaxIndex(counts);
    var dominant := clusters[maxIdx];
    result := DirectionResult(
      clusters,
      Selected(Pick(segments, dominant.indices), dominant.center, |dominant.indices|),
      Ratio(|dominant.indices|, |segments|));
    assert result == SelectDominant(segments, clusters);
    DominantBounds(bearings, Rounds(t, bearings, InitialCenters(k), UpdateRounds), result.selected.count);
  }

  const DefaultK: nat := 2
  const DefaultDominantThreshold: real := 0.8
}
