# Route extraction pipeline — a verified model

This project models the deterministic route-extraction pipeline of `public/pipeline/`. The pipeline takes a batch of raw GPS pings from several vehicles and produces one route: an ordered skeleton of points, plus virtual stops every 500 m. The stages, in data-flow order, are:

- **Geometry kernel** (`utils.js`), module `Geometry`. Haversine distance, initial bearing, circular mean and angular distance.
  - The floating-point trigonometry is injected as the three functions of a `Trig` value.
  - `Sound(t)` states the only facts about them that the code supports: the central angle is non-negative, and `atan2` results lie in [-180, 180] degrees.
  - Everything around the trigonometry is modelled exactly: the Earth radius, the `(x + 360) % 360` normalisation with JavaScript's truncating `%`, the empty guard of the circular mean, and `angularDistance`.
- **Cleaner** (`cleanGPS.js`), module `Cleaner`. It rejects records in a fixed order (bad timestamp, non-finite coordinates, speed above the bound) and counts one reason per rejected record. It then sorts the survivors by vehicle id (`localeCompare`), then by time.
  - The loop is a method, `CleanGps`.
  - The in-place `Array.prototype.sort` is `Sorting.InsertionSort` on an `array`.
  - It is proved to compute the stable sort `Sorting.SortSpec`.
- **Segmenter** (`segmentation.js`), module `Segmentation`.
  - It groups the points by `vehicleId || 'unknown'`, in the insertion order of the `Map`.
  - It sorts each group by time and cuts it where the gap is strictly greater than `timeGapMinutes * 60000` ms.
  - It keeps the pieces with at least `minSegmentPoints` points, summarises each one (`computeSegmentProperties`), and finally drops short ones by distance.
- **Direction classifier** (`directionFilter.js`), module `DirectionFilter`. Circular k-means runs 10 update rounds on an array of centres, then a final assignment pass. The largest cluster is selected, the first one on a tie.
- **Route-consistency filter** (`routeFilter.js`), module `RouteFilter`.
  - DBSCAN runs over an `array` of labels (-1 unvisited, -2 noise) with a work queue. A neighbour must be both close in centroid distance and close in bearing.
  - The final labels satisfy `DbscanLabelling`, which holds for at most one labelling (`DbscanLabellingUnique`), so it pins the output down completely. It says:
    - every cluster starts from a core seed, and each seed is the first core point outside the earlier clusters;
    - noise is never a core point;
    - a core point's neighbours are in its cluster or an earlier one;
    - every member is reached from its seed through a chain of core points of its cluster, each labelled before the next. A ghost rank records the order in which labels are written.
  - An isolated segment is noise.
  - The largest cluster is kept, and every other segment is rejected.
- **Route construction** (`routeConstruction.js`), module `RouteConstruction`.
  - The heading-consistency filter.
  - `buildRoute`: the largest segment, time-sorted and deduplicated by a position key.
  - Index resampling (`simplifyRoute`).
  - The skeleton: cumulative distances and bearings.
  - Virtual stops every 500 m, with start and end markers.
  - The chunking loop of `snapToRoad`.

Each imperative loop of the source is a Dafny `method` with loop invariants. Its `ensures` ties the result to a specification function, and the source's promises are proved as lemmas about that function: conservation, sortedness, permutation, partitions, subsequence and end-point preservation, index bounds, stop spacing.

Modules `JsValues` (JavaScript numbers, `||` defaults), `Track` (the cleaned point), `Sorting` and `Selection` hold the shared vocabulary. `Selection` covers first-maximum and first-minimum index, index lists, picking by indices, subsequences and flattening.

Environment-dependent pieces are parameters:
- `localeCompare` is `collate`, constrained by `Cleaner.IsCollation`.
- The `toFixed(6)` position key is `key`.
- The trigonometry is `t: Trig`.

Three details of the code that the model makes explicit:
- Vehicle ids are compared with `localeCompare` (`cleanGPS.js:25`), whose order depends on the locale, so the comparison is the parameter `collate`.
- The "zero-length leg" guard of the stop loop (`routeConstruction.js:186`) can never fire. The `while` condition already requires `p1.distance < nextStopDistance <= p2.distance`, so the model has no such branch.
- A skeleton's distances are only non-decreasing. A leg may have length 0, because the model only assumes that a haversine distance is non-negative.

## Model

| member | source | states |
|---|---|---|
| JsValues.OrDefault | public/pipeline/cleanGPS.js:25 | `s \|\| fallback`: a present non-empty string is itself; a missing or empty one is the fallback |
| Geometry.HaversineDistance | public/pipeline/utils.js:3-12 | the distance is never negative |
| Geometry.Bearing | public/pipeline/utils.js:14-22 | the bearing always lies in [0, 360) |
| Geometry.BearingIsNormalized | public/pipeline/utils.js:21 | the bearing equals the code's `(raw + 360) % 360` of the atan2 result |
| Geometry.NormalizeRange | public/pipeline/utils.js:21 | on [-180, 180] the normalisation adds 360 to negative angles only, and lands in [0, 360) |
| Geometry.NormalizeBelowRange | public/pipeline/utils.js:33 | outside that range the truncating `%` gives a negative result (-400 becomes -40) |
| Geometry.CircularMean | public/pipeline/utils.js:24-34 | 0 for an empty list; always in [0, 360) |
| Geometry.AngularDistanceToSelf | public/pipeline/utils.js:36-39 | an angle is at distance 0 from itself |
| Geometry.AngularDistanceSymmetric | public/pipeline/utils.js:36-39 | the distance is symmetric |
| Geometry.AngularDistanceRange | public/pipeline/utils.js:36-39 | between angles in [0, 360) the distance lies in [0, 180] |
| Geometry.AngularDistanceWraps | public/pipeline/utils.js:36-39 | 350° and 10° are 20° apart (the short way round) |
| Geometry.AngularDistanceNeedsNormalisedInputs | public/pipeline/utils.js:36-39 | on non-normalised inputs (0°, 720°) the formula gives a negative distance |
| Track.TimeOrderIsTotalPreorder | public/pipeline/segmentation.js:18 | the timestamp comparator is a total preorder |
| Sorting.InsertionSort | public/pipeline/cleanGPS.js:24-28 | the in-place sort leaves the array equal to the stable sort of its old contents |
| Sorting.SortSpecPermutes | public/pipeline/cleanGPS.js:24-28 | the stable sort is a permutation of its input |
| Sorting.SortSpecSorted | public/pipeline/cleanGPS.js:24-28 | under a total preorder, the result is sorted |
| Sorting.SortSpecOfSorted | public/pipeline/cleanGPS.js:24-28 | sorting an already sorted list changes nothing |
| Cleaner.CleanGps | public/pipeline/cleanGPS.js:3-31 | the loop and the sort compute `Clean`; the output size plus the three counters is the input size; every output record is valid |
| Cleaner.CountsConserved | public/pipeline/cleanGPS.js:8-22 | the accepted records plus all rejects are exactly the input count |
| Cleaner.ReasonsCheckedInOrder | public/pipeline/cleanGPS.js:9-20 | one record increments exactly one counter, chosen in the order timestamp, coordinates, speed |
| Cleaner.SpeedBoundInclusive | public/pipeline/cleanGPS.js:17-21 | a speed equal to `maxSpeed`, or NaN, is kept |
| Cleaner.AcceptedValid | public/pipeline/cleanGPS.js:8-22 | every accepted record is valid, and the accepted records are a subsequence of the input |
| Cleaner.AcceptedAllValid | public/pipeline/cleanGPS.js:8-22 | an all-valid input is accepted whole, with zero rejects |
| Cleaner.CleanOrderIsTotalPreorder | public/pipeline/cleanGPS.js:24-28 | the (vehicle id, time) comparator is a total preorder when `localeCompare` is consistent |
| Cleaner.CleanSorted | public/pipeline/cleanGPS.js:24-28 | the output's vehicle ids are non-decreasing under the collation; within an equal id, timestamps are non-decreasing |
| Cleaner.CleanPermutesAccepted | public/pipeline/cleanGPS.js:21-28 | the output is a permutation of the accepted records, is contained in the input and is all valid |
| Cleaner.Idempotent | public/pipeline/cleanGPS.js:8-30 | cleaning the output again returns the same records with zero rejects |
| Cleaner.HandOff | public/pipeline/cleanGPS.js:21-30 | every output record is valid, so it becomes a point with finite coordinates; points plus rejects are the input count; consecutive points of one vehicle are in time order |
| Segmentation.ComputeSegmentProperties | public/pipeline/segmentation.js:38-60 | the loop computes the summary `SegmentOf`, whose distance is the sum of the legs |
| Segmentation.SegmentSummary | public/pipeline/segmentation.js:38-60 | the summary keeps the points and its start and end are the run's first and last points; length ≥ 0; bearing in [0, 360); centroid inside the bounding box |
| Segmentation.PathLengthNonNegative | public/pipeline/segmentation.js:45-47 | the summed leg length is non-negative |
| Segmentation.MeanLatBounds | public/pipeline/segmentation.js:42 | the mean latitude lies between the least and the greatest latitude |
| Segmentation.MeanLonBounds | public/pipeline/segmentation.js:43 | the mean longitude lies between the least and the greatest longitude |
| Segmentation.KeysInOrder | public/pipeline/segmentation.js:9-14 | the vehicle keys, in first-appearance order, are distinct |
| Segmentation.GroupOf | public/pipeline/segmentation.js:10-13 | a group holds only points of its key, taken from the input |
| Segmentation.KeysMatchGroups | public/pipeline/segmentation.js:9-14 | a key is listed exactly when its group is non-empty |
| Segmentation.GroupsPartition | public/pipeline/segmentation.js:10-13 | a group is a sub-multiset of the input and holds every input point with its key |
| Segmentation.GroupByVehicle | public/pipeline/segmentation.js:9-14 | the Map's keys are the keys in order, and each maps to its non-empty group |
| Segmentation.SortByTime | public/pipeline/segmentation.js:18 | a group is sorted by the stable time sort |
| Segmentation.Cut | public/pipeline/segmentation.js:20-29 | the cut of a non-empty run has pieces, and the cut of an empty one has none |
| Segmentation.CutShape | public/pipeline/segmentation.js:20-29 | every piece is non-empty, and the last piece ends with the last point |
| Segmentation.CutStep | public/pipeline/segmentation.js:21-28 | one more point opens a new piece exactly when its gap exceeds `timeGapMs`, and otherwise extends the last piece |
| Segmentation.CutFlattens | public/pipeline/segmentation.js:20-32 | the pieces of one vehicle concatenate back to its time-sorted points |
| Segmentation.CutPiecesChained | public/pipeline/segmentation.js:18-22 | within a piece, timestamps are non-decreasing and consecutive ones differ by at most `timeGapMs` (an equal gap does not split) |
| Segmentation.CutPiecesSeparated | public/pipeline/segmentation.js:22-27 | consecutive pieces are separated by a gap strictly greater than `timeGapMs` |
| Segmentation.CutAndSummarise | public/pipeline/segmentation.js:20-32 | the `current`-buffer loop returns the summaries of the pieces with at least `minSegmentPoints` points, in order |
| Segmentation.KeptWellFormed | public/pipeline/segmentation.js:23-32 | every kept piece becomes a well-formed segment |
| Segmentation.SortedGroupFacts | public/pipeline/segmentation.js:17-18 | a sorted group is time-sorted and holds only input points of its key |
| Segmentation.VehicleWellFormed | public/pipeline/segmentation.js:17-32 | each segment of one vehicle is well formed: ≥ `minSegmentPoints` points, its own summary, time-chained, one vehicle key, points from the input |
| Segmentation.CandidatesWellFormed | public/pipeline/segmentation.js:16-33 | all candidate segments, over all vehicles, are well formed |
| Segmentation.LongEnough | public/pipeline/segmentation.js:35 | exactly the segments with `totalDistance >= minSegmentDistanceMeters` remain, in their input order (a subsequence of the input) |
| Segmentation.SegmentTripsWellFormed | public/pipeline/segmentation.js:5-36 | every returned segment is well formed and long enough |
| Segmentation.SegmentTrips | public/pipeline/segmentation.js:5-36 | the grouping and cutting loops compute `SegmentTripsSpec`, and each returned segment is well formed and long enough |
| Selection.FirstMaxIndex | public/pipeline/directionFilter.js:20 | `counts.indexOf(Math.max(...counts))`: a maximal entry, with every earlier entry strictly smaller |
| Selection.FirstMinIndex | public/pipeline/directionFilter.js:43 | `dists.indexOf(Math.min(...dists))`: a minimal entry, with every earlier entry strictly larger |
| Selection.IndicesOf | public/pipeline/directionFilter.js:61 | exactly the positions carrying the label, ascending |
| Selection.Pick | public/pipeline/directionFilter.js:26 | definition of `indices.map(i => items[i])`: the item at each index, in order |
| DirectionFilter.ComputeSegmentHeadings | public/pipeline/directionFilter.js:5-11 | the length is preserved; each entry keeps its segment, with `medianHeading == bearing` and `headingDispersion == 0` |
| DirectionFilter.Bearings | public/pipeline/directionFilter.js:16 | definition of the bearing list: the bearing of each segment, in order |
| DirectionFilter.Dists | public/pipeline/directionFilter.js:42 | definition of the distance list: the angular distance to each centre |
| DirectionFilter.Nearest | public/pipeline/directionFilter.js:41-44 | a centre at minimal angular distance; on a tie, the lowest index |
| DirectionFilter.Assign | public/pipeline/directionFilter.js:41-44 | every angle is assigned its nearest centre, a valid index |
| DirectionFilter.Members | public/pipeline/directionFilter.js:47 | as many angles as are assigned the centre |
| DirectionFilter.MembersAreIndexed | public/pipeline/directionFilter.js:47 | the members are exactly the angles at the cluster's index list |
| DirectionFilter.UpdateCenters | public/pipeline/directionFilter.js:46-51 | the update keeps the number of centres, and keeps centres in [0, 360) |
| DirectionFilter.UpdateMovesOnlyNonEmpty | public/pipeline/directionFilter.js:46-51 | definition of one update round, read pointwise: a centre with no members keeps its value; one with members moves to their circular mean |
| DirectionFilter.UpdateRound | public/pipeline/directionFilter.js:46-51 | one round on the centre array computes `UpdateCenters` of its old contents |
| DirectionFilter.Rounds | public/pipeline/directionFilter.js:40-52 | repeated rounds keep the number of centres, and keep them in [0, 360) |
| DirectionFilter.InitialCentersNormalised | public/pipeline/directionFilter.js:35-38 | the initial centres start at 0, step by 360/k and lie in [0, 360) |
| DirectionFilter.FinalClusters | public/pipeline/directionFilter.js:59-62 | one cluster per centre |
| DirectionFilter.ClustersPartition | public/pipeline/directionFilter.js:54-62 | each index is in the list of its nearest centre and in no other list; every list is strictly ascending |
| DirectionFilter.ClusterSizesTotal | public/pipeline/directionFilter.js:54-62 | the cluster sizes add up to the number of angles |
| DirectionFilter.ClusterSizes | public/pipeline/directionFilter.js:59-62 | each list's length is the number of angles assigned to its centre, and every index is in range |
| DirectionFilter.KMeansCircular | public/pipeline/directionFilter.js:34-63 | the array loops compute `KMeansSpec`: exactly k clusters, centres in [0, 360) |
| DirectionFilter.Counts | public/pipeline/directionFilter.js:19 | definition of the count list: the size of each cluster |
| DirectionFilter.SelectDominant | public/pipeline/directionFilter.js:19-30 | the largest cluster, the first on a tie, with its segments, centre and size; `dominantRatio` is count/n, or NaN for n = 0 |
| DirectionFilter.DominantBounds | public/pipeline/directionFilter.js:19-21 | the largest size m satisfies m ≤ n ≤ k·m |
| DirectionFilter.ClusterByDirection | public/pipeline/directionFilter.js:13-32 | the result is `SelectDominant` of the k-means clusters: k clusters, count ≤ n ≤ k·count, mean heading in [0, 360) |
| RouteFilter.NeighborsUpTo | public/pipeline/routeFilter.js:51-58 | position p is listed exactly when it is another segment within `eps` and within `bearingThreshold`; the list is ascending |
| RouteFilter.RegionQuery | public/pipeline/routeFilter.js:47-60 | the loop returns exactly the neighbours of `idx`, never `idx` itself |
| RouteFilter.ExpandCluster | public/pipeline/routeFilter.js:62-75 | cluster ids never change; only unvisited and noise points become `clusterId`. Exactly the unvisited core points are expanded (never absorbed noise), and all their neighbours end up labelled. Every relabelled point is a neighbour of the seed or of an expanded point whose label was written earlier (ghost rank), so each one has a chain back to the seed. Points it does not relabel keep their ranks. The queue loop terminates |
| RouteFilter.ExpandStep | public/pipeline/routeFilter.js:64-74 | one turn of the queue keeps the invariant; it either labels an unvisited point or shortens the queue |
| RouteFilter.LabelsStep | public/pipeline/routeFilter.js:64-73 | one turn of the queue keeps the label part of the invariant: labels, the expanded set, the queue bounds and closure |
| RouteFilter.RankedStep | public/pipeline/routeFilter.js:66-69 | a label write gives the point the next rank, and no other rank changes |
| RouteFilter.ReachedStep | public/pipeline/routeFilter.js:64-73 | the point taken from the queue was queued as a neighbour of a point labelled before now, and an expanded point queues only its own neighbours |
| RouteFilter.Dbscan | public/pipeline/routeFilter.js:22-45 | no label stays -1; every label is noise or a cluster id below the cluster count. Each cluster is a non-empty label index list. The labels, seeds and ranks satisfy `DbscanLabelling`, the unique labelling, and an isolated segment (not a core point, and no core point's neighbour) is noise |
| RouteFilter.IsolatedIsNoise | public/pipeline/routeFilter.js:26-38 | in a DBSCAN labelling, a segment that is not a core point and is no core point's neighbour cannot carry a cluster id |
| RouteFilter.DbscanLabellingUnique | public/pipeline/routeFilter.js:22-45 | two labellings that both satisfy `DbscanLabelling` for the same segments have the same labels and the same seeds, whatever label orders their ranks record |
| RouteFilter.AgreeBelow | public/pipeline/routeFilter.js:26-38 | two DBSCAN labellings agree on every segment in a cluster below `c`, by induction on `c` |
| RouteFilter.SameSeed | public/pipeline/routeFilter.js:26-35 | once two labellings agree below `c`, cluster `c` has the same seed in both: the first core point outside the earlier clusters |
| RouteFilter.SameMember | public/pipeline/routeFilter.js:35-36 | once two labellings agree below `c`, a member of cluster `c` in one is in cluster `c` in the other, by induction along its chain back to the seed |
| RouteFilter.DbscanDone | public/pipeline/routeFilter.js:26-44 | after the main loop every label is noise or a cluster id, every cluster list is non-empty, and isolated segments are noise |
| RouteFilter.CollectClusters | public/pipeline/routeFilter.js:40-44 | cluster c is the positions labelled c, for each c below `clusterId` |
| RouteFilter.VisitLabelled | public/pipeline/routeFilter.js:27 | a point an earlier expansion labelled is skipped without breaking the invariant |
| RouteFilter.VisitNoise | public/pipeline/routeFilter.js:29-33 | an unvisited point with fewer than `minPts` neighbours becomes noise, keeping the invariant |
| RouteFilter.NoiseKeepsOrder | public/pipeline/routeFilter.js:30-32 | marking an unvisited point noise keeps the clusters closed and the seeds first |
| RouteFilter.NoiseKeepsReached | public/pipeline/routeFilter.js:30-33 | marking a point noise takes nothing from any cluster, so every member stays reached from its cluster's core points |
| RouteFilter.VisitCore | public/pipeline/routeFilter.js:34-37 | an unvisited core point seeds cluster `clusterId`, and its expansion keeps the invariant |
| RouteFilter.ExpansionKeepsLabels | public/pipeline/routeFilter.js:35-37 | after an expansion every point up to `i` is visited, older seeds keep their cluster ids, `i` seeds the new cluster as the first core point outside the older ones, and noise is still no core point |
| RouteFilter.ExpansionKeepsReached | public/pipeline/routeFilter.js:35-37 | after an expansion, the new cluster's members are its seed or neighbours of its core points labelled before them, and older clusters keep their members and ranks |
| RouteFilter.ExpansionKeepsClosed | public/pipeline/routeFilter.js:35-37 | after an expansion, every core point's neighbours are in its cluster or an earlier one |
| RouteFilter.Lengths | public/pipeline/routeFilter.js:9 | definition of `counts`: the size of each cluster |
| RouteFilter.DominantCluster | public/pipeline/routeFilter.js:10-12 | the largest cluster, the first on a tie, or `[]` when there are no clusters |
| RouteFilter.Outside | public/pipeline/routeFilter.js:13 | exactly the positions not in the chosen list, ascending |
| RouteFilter.OutsideNothing | public/pipeline/routeFilter.js:12-13 | with an empty dominant list, every position is rejected |
| RouteFilter.OutsideIsIndicesNot | public/pipeline/routeFilter.js:13 | outside a label's list are exactly the positions with another label |
| RouteFilter.DominantRejectedPartition | public/pipeline/routeFilter.js:12-13 | each position is in exactly one of dominant and rejected, and their sizes add up to n |
| RouteFilter.LabelClustersAreIndexLists | public/pipeline/routeFilter.js:40-44 | label clusters point inside the input |
| RouteFilter.DominantByLabels | public/pipeline/routeFilter.js:9-12 | the dominant cluster is the list of the label with the most points, the first on a tie |
| RouteFilter.SelectRouteNoClusters | public/pipeline/routeFilter.js:12-13 | with no clusters, nothing is dominant and everything is rejected |
| RouteFilter.SelectRouteByLabels | public/pipeline/routeFilter.js:9-13 | dominant is the largest label's segments, and rejected is every segment with another label |
| RouteFilter.SelectRouteSplits | public/pipeline/routeFilter.js:12-13 | dominant plus rejected is as many segments as the input |
| RouteFilter.FilterByRouteConsistency | public/pipeline/routeFilter.js:5-20 | `dominant` is the largest cluster (first on a tie), or empty with every segment rejected when there is no cluster; the rest is rejected; `clusterCount` counts the non-empty clusters. The labels behind the choice satisfy `DbscanLabelling`, which `DbscanLabellingUnique` shows no other labelling does, so the choice is determined by the segments. Isolated segments are noise |
| RouteConstruction.HeadingChange | public/pipeline/routeConstruction.js:24-25 | the folded difference equals `angularDistance`, at most 180 for normalised bearings |
| RouteConstruction.TurnTestIsDiff | public/pipeline/routeConstruction.js:19-28 | the loop's `diff <= 120` is the turn test |
| RouteConstruction.FilterByHeadingConsistency | public/pipeline/routeConstruction.js:8-39 | the pass computes `HeadingFilterSpec` |
| RouteConstruction.KeptIndices | public/pipeline/routeConstruction.js:11-33 | the kept positions start at 0, ascend, and stay below the current step |
| RouteConstruction.HeadingPassPicksKept | public/pipeline/routeConstruction.js:11-33 | the kept points are the points at the kept positions |
| RouteConstruction.HeadingPassShape | public/pipeline/routeConstruction.js:11-35 | the pass plus the last point is a subsequence of the input, of length 2..n, that keeps the first and last points |
| RouteConstruction.HeadingFilterShape | public/pipeline/routeConstruction.js:9-35 | fewer than 3 points come back unchanged; otherwise the result is a subsequence keeping the first and last points, with length in [2, n] |
| RouteConstruction.KeptPointsPass | public/pipeline/routeConstruction.js:13-30 | every kept interior point passed the turn test against the point kept before it |
| RouteConstruction.KeptExactlyWhenPassing | public/pipeline/routeConstruction.js:13-30 | an interior point is kept exactly when it passes the test against the last point kept before it |
| RouteConstruction.LargestSegment | public/pipeline/routeConstruction.js:45-47 | the segment with the most points, the first on a tie |
| RouteConstruction.Dedup | public/pipeline/routeConstruction.js:55-63 | a non-empty input gives a non-empty result whose last key is the input's last key |
| RouteConstruction.KeyChanges | public/pipeline/routeConstruction.js:55-63 | the positions where the key changes are in range |
| RouteConstruction.DedupPicksKeyChanges | public/pipeline/routeConstruction.js:55-63 | the loop keeps exactly the points whose key differs from the point before them |
| RouteConstruction.DedupSubsequence | public/pipeline/routeConstruction.js:55-63 | the result is a subsequence of its input |
| RouteConstruction.DedupKeepsFirst | public/pipeline/routeConstruction.js:55-63 | the first point is kept |
| RouteConstruction.DedupNoRepeats | public/pipeline/routeConstruction.js:55-63 | no two consecutive result points share a key |
| RouteConstruction.Deduplicate | public/pipeline/routeConstruction.js:55-63 | the `prevKey` loop computes `Dedup` |
| RouteConstruction.BuildRoute | public/pipeline/routeConstruction.js:41-74 | the method computes `BuildRouteSpec` |
| RouteConstruction.BuildRouteProperties | public/pipeline/routeConstruction.js:41-74 | empty input gives no points and zero stats. Otherwise the points come from the largest segment (first on a tie), time-sorted and deduplicated; they form a subsequence that keeps the first point, with no repeated consecutive key, `deduplicatedPoints <= totalPoints`, `segmentCount` 1 and `originalSegmentCount` n |
| RouteConstruction.SampleIndexRounds | public/pipeline/routeConstruction.js:132 | the integer formula is `Math.round(i(n-1)/(t-1))` (round half up) |
| RouteConstruction.SampleIndexEnds | public/pipeline/routeConstruction.js:132 | sample 0 is index 0, and sample t-1 is index n-1 |
| RouteConstruction.SampleIndexIncreasing | public/pipeline/routeConstruction.js:131-133 | for n > t, the sampled indices strictly increase |
| RouteConstruction.SampleIndexBound | public/pipeline/routeConstruction.js:132-133 | every sampled index is below n |
| RouteConstruction.SampleIndices | public/pipeline/routeConstruction.js:131-134 | m indices, each the rounded position, below n |
| RouteConstruction.SampleIndicesAscending | public/pipeline/routeConstruction.js:131-134 | all t sampled indices run from 0 to n-1, strictly ascending |
| RouteConstruction.SimplifyRoute | public/pipeline/routeConstruction.js:127-136 | the sampling loop computes `SimplifySpec` |
| RouteConstruction.SimplifyProperties | public/pipeline/routeConstruction.js:127-136 | an input no longer than the target is returned unchanged. For `2 <= t < n` the result has t points, is a subsequence and keeps the first and last points. A target ≤ 0 empties a longer input |
| RouteConstruction.SkeletonBearing | public/pipeline/routeConstruction.js:149 | each point's bearing lies in [0, 360) |
| RouteConstruction.SkeletonOf | public/pipeline/routeConstruction.js:145-151 | one skeleton entry per filtered point |
| RouteConstruction.BuildSkeleton | public/pipeline/routeConstruction.js:142-151 | the `cumulativeDist` loop computes `SkeletonOf` |
| RouteConstruction.PathLengthPrefixMonotone | public/pipeline/routeConstruction.js:147 | the cumulative distance never decreases along the points |
| RouteConstruction.SkeletonChained | public/pipeline/routeConstruction.js:143-151 | distances start at 0 and are non-decreasing |
| RouteConstruction.SkeletonEntries | public/pipeline/routeConstruction.js:145-151 | entry i holds point i, with a bearing in [0, 360) |
| RouteConstruction.SkeletonTotal | public/pipeline/routeConstruction.js:159 | the total distance is the path length of the filtered points |
| RouteConstruction.InteriorStopCount | public/pipeline/routeConstruction.js:181-183 | all marks 500·k up to the count lie below the total, and the next mark does not |
| RouteConstruction.InteriorStopsExactly | public/pipeline/routeConstruction.js:181-204 | mark k ≥ 1 is an interior stop exactly when 500·k is strictly below the total |
| RouteConstruction.StopDistances | public/pipeline/routeConstruction.js:162-217 | the start, the interior marks and the end: count + 2 distances |
| RouteConstruction.EndStopGap | public/pipeline/routeConstruction.js:207-217 | for a positive total, the end stop lies within (0, 500] m of the stop before it |
| RouteConstruction.StopDistancesOf700 | public/pipeline/routeConstruction.js:173-217 | a 700 m total gives stops at 0, 500 and 700 m |
| RouteConstruction.LegOf | public/pipeline/routeConstruction.js:176-181 | the first leg whose end reaches the mark |
| RouteConstruction.LegOfIs | public/pipeline/routeConstruction.js:176-181 | on chained distances, it is the leg with `p1.distance < d <= p2.distance` |
| RouteConstruction.PlaceStep | public/pipeline/routeConstruction.js:185-203 | the stop the inner loop interpolates is the next interior stop |
| RouteConstruction.PlacedAllInterior | public/pipeline/routeConstruction.js:176-205 | once the next mark reaches the total, every interior stop has been placed |
| RouteConstruction.PlacedAll | public/pipeline/routeConstruction.js:207-217 | adding the end stop completes `StopsOf` |
| RouteConstruction.PlaceVirtualStops | public/pipeline/routeConstruction.js:153-217 | the nested for/while loops compute `StopsOf` |
| RouteConstruction.StopsProperties | public/pipeline/routeConstruction.js:153-217 | no stops for an empty skeleton. Otherwise: stop numbers 0..m-1 in order, at the stop distances; the first stop is the start at point 0; interior stops lie between; the last stop is the end at the last point |
| RouteConstruction.InterpolatedOnLeg | public/pipeline/routeConstruction.js:188-199 | an interpolated stop lies between its leg's ends and takes the bearing of the leg's start |
| RouteConstruction.InteriorStopOnLeg | public/pipeline/routeConstruction.js:181-199 | interior stop k lies on the leg that contains 500·k |
| RouteConstruction.StopsOfTwoLegs | public/pipeline/routeConstruction.js:173-217 | legs of 300 m and 400 m give stops 0, 1, 2 at 0, 500 (midway along the second leg) and 700 m, the last one the end |
| RouteConstruction.ComputeRouteSkeleton | public/pipeline/routeConstruction.js:138-222 | the skeleton of the heading-filtered points, and its virtual stops |
| RouteConstruction.ChunkPoints | public/pipeline/routeConstruction.js:90-93 | the chunking loop computes `Chunks` |
| RouteConstruction.ChunksFlatten | public/pipeline/routeConstruction.js:90-93 | the chunks concatenate back to the input |
| RouteConstruction.ChunksSizes | public/pipeline/routeConstruction.js:90-93 | each chunk has 1..`maxPointsPerRequest` points, and every chunk but the last is full |
| RouteConstruction.ChunksCount | public/pipeline/routeConstruction.js:90-93 | there are ⌈n / `maxPointsPerRequest`⌉ chunks |

## Left out

- `public/js/app.js`: DOM, map layers, file parsing and event handlers. The orchestrator it calls (`pipeline/index.js`) is not part of this model.
- The network part of `snapToRoad` (`routeConstruction.js:95-124`): `fetch`, the timeout, OSRM response handling and the per-chunk error log are I/O. Only the chunking loop is modelled.
- The trigonometric bodies of `haversineDistance`, `bearing` and the sin/cos accumulation of `circularMean` are floating point. They are the parameters `t: Trig`, and only `Sound(t)` is assumed about them.
- Geometry.HaversineDistance: only non-negativity is stated. Symmetry and zero distance to itself are properties of the floating-point formula, which is not modelled.
- Geometry.CircularMean: nothing is stated about where the mean lies, beyond [0, 360) and the empty case.
- `console.log` / `console.warn` messages.
- Floating-point arithmetic: all coordinates, distances and ratios are mathematical reals (including the interpolation at `routeConstruction.js:188-192`, and the means at `segmentation.js:42-43`).
- `localeCompare` is the parameter `collate`, and only `IsCollation` (a consistent three-way order) is assumed. The `toFixed(6)` position key is the parameter `key`.
- Raw records carry an `Option<int>` timestamp. A missing value, a non-Date and an invalid Date are all `None`.
- Record `speed` is a JavaScript number: a finite value, NaN or an infinity. The ingestion layer builds it with `Number(...)` (`public/js/app.js:66`), and ingestion is not part of this model.
- Segment identity is positional: `dominant.includes(s)` compares object references, so segments are identified by their index in the input.
- Degenerate parameters are preconditions:
  - `k >= 1`: for k = 0 the source indexes `clusters[-1]` and fails;
  - `targetPoints != 1` when there are two or more points: the source computes 0/0 as an index;
  - `maxPointsPerRequest >= 1`: the source loops forever otherwise.
- `dominantRatio` with no segments is modelled as the NaN the source produces, not excluded.
- `simplifySegmentPoints` (`routeConstruction.js:76-84`) is the same loop as `simplifyRoute` and is never called in the pipeline. `RouteConstruction.SimplifyRoute` models both.
- `dominantThreshold` is read in `clusterByDirection` but never used. It is an ignored parameter of `ClusterByDirection`.
- The `isVirtual: true` flag every stop carries is not represented. `isStart` / `isEnd` are the `kind` field of `VirtualStop`.
- A skeleton entry keeps the point as a field instead of spreading its properties (`...cleanedPoints[i]`).
- The cut loop compares each point with the last point of the `current` buffer. `Cut` compares it with the previous point of the run, which is the same point: `CutShape` proves that the last piece ends with the last point.
- `Geometry.Bearing` is written as a conditional; `BearingIsNormalized` proves it equal to the code's `(raw + 360) % 360`.
- The k-means convergence and the quality of the clustering are not modelled; the fixed 10 rounds are.
