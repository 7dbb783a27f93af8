/** The Route-consistency filter (public/pipeline/routeFilter.js): DBSCAN over the
    segments, with a neighbourhood that needs both close centroids and close bearings,
    then the largest cluster is kept. Segments are identified by their position in the
    input list. */
module RouteFilter {
  import opened Geometry
  import opened Selection
  import opened Segmentation

  const Unvisited: int := -1
  const Noise: int := -2

  /** `{ eps, minPts, bearingThreshold }` */
  datatype Options = Options(eps: real, minPts: int, bearingThreshold: real)

  const DefaultOptions := Options(400.0, 5, 25.0)

  // ---------------------------------------------------------------------------
  // regionQuery

  /** Segment `i` is a neighbour of segment `idx`: another segment whose centroid is within
      `eps` metres and whose bearing is within `bearingThreshold` degrees. */
  predicate IsNeighbor(t: Trig, segments: seq<Segment>, idx: nat, i: nat, opts: Options)
    requires Sound(t) && idx < |segments| && i < |segments|
  {
    var s, q := segments[idx], segments[i];
    && i != idx
    && HaversineDistance(t, s.meanLat, s.meanLon, q.meanLat, q.meanLon) <= opts.eps
    && AngularDistance(s.bearing, q.bearing) <= opts.bearingThreshold
  }

  /** The neighbours of `idx` among the first `m` segments, in ascending order */
  function NeighborsUpTo(t: Trig, segments: seq<Segment>, idx: nat, m: nat, opts: Options): (r: seq<nat>)
    requires Sound(t) && idx < |segments| && m <= |segments|
    ensures forall p: nat :: p in r <==> p < m && IsNeighbor(t, segments, idx, p, opts)
    ensures forall i, j :: 0 <= i < j < |r| ==> r[i] < r[j]
    ensures forall i :: 0 <= i < |r| ==> r[i] < m
  {
    if m == 0 then []
    else
      var earlier := NeighborsUpTo(t, segments, idx, m - 1, opts);
      if IsNeighbor(t, segments, idx, m - 1, opts) then earlier + [m - 1] else earlier
  }

  function NeighborsOf(t: Trig, segments: seq<Segment>, idx: nat, opts: Options): (r: seq<nat>)
    requires Sound(t) && idx < |segments|
  {
    NeighborsUpTo(t, segments, idx, |segments|, opts)
  }

  /** A core point: at least `minPts` neighbours (the point itself is not counted) */
  predicate Dense(t: Trig, segments: seq<Segment>, idx: nat, opts: Options)
    requires Sound(t) && idx < |segments|
  {
    |NeighborsOf(t, segments, idx, opts)| >= opts.minPts
  }

  /** `regionQuery(segments, idx, eps, bearingThreshold)` */
  method RegionQuery(t: Trig, segments: seq<Segment>, idx: nat, opts: Options) returns (neighbors: seq<nat>)
    requires Sound(t) && idx < |segments|
    ensures neighbors == NeighborsOf(t, segments, idx, opts)
    ensures forall p: nat :: p in neighbors <==> p < |segments| && IsNeighbor(t, segments, idx, p, opts)
  {
    neighbors := [];
    var s := segments[idx];
    for i := 0 to |segments|
      invariant neighbors == NeighborsUpTo(t, segments, idx, i, opts)
    {
      if i == idx {
        continue;
      }
      var dist := HaversineDistance(t, s.meanLat, s.meanLon, segments[i].meanLat, segments[i].meanLon);
      var bearingDiff := AngularDistance(s.bearing, segments[i].bearing);
      if dist <= opts.eps && bearingDiff <= opts.bearingThreshold {
        neighbors := neighbors + [i];
      }
    }
  }

  // ---------------------------------------------------------------------------
  // expandCluster

  /** Every neighbour of every point of `from` is labelled with a cluster id or still
      waiting in the queue. */
  ghost predicate Closed(t: Trig, segments: seq<Segment>, labels: seq<int>, queue: seq<nat>, from: set<nat>,
                         opts: Options)
    requires Sound(t) && |labels| == |segments|
    requires forall j :: j in from ==> j < |segments|
  {
    forall j, m :: j in from && m in NeighborsOf(t, segments, j, opts) ==> labels[m] >= 0 || m in queue
  }

  /** From `orig` to `cur` labels stay in [Noise, cid], a cluster id once given never
      changes, and only unvisited and noise points are relabelled, only to `cid`. */
  ghost predicate Relabelled(orig: seq<int>, cur: seq<int>, cid: int) {
    && |cur| == |orig|
    && (forall j :: 0 <= j < |cur| ==> Noise <= cur[j] <= cid)
    && (forall j :: 0 <= j < |cur| && orig[j] >= 0 ==> cur[j] == orig[j])
    && (forall j :: 0 <= j < |cur| && cur[j] != orig[j] ==> cur[j] == cid && orig[j] < 0)
  }

  /** `expanded` is exactly the set of points that were unvisited in `orig`, joined
      cluster `cid` and are core points: absorbed noise is never expanded. */
  ghost predicate ExpandedExactly(t: Trig, segments: seq<Segment>, orig: seq<int>, cur: seq<int>,
                                  expanded: set<nat>, cid: int, opts: Options)
    requires Sound(t) && |orig| == |segments| && |cur| == |segments|
  {
    && (forall j :: j in expanded ==>
          j < |cur| && orig[j] == Unvisited && cur[j] == cid && Dense(t, segments, j, opts))
    && (forall j ::
          (0 <= j < |cur| && orig[j] == Unvisited && cur[j] == cid && Dense(t, segments, j, opts))
          ==> j in expanded)
  }

  /** Segment `j` is a neighbour of a point of `from` whose rank is below `bound`. */
  ghost predicate FoundFrom(t: Trig, segments: seq<Segment>, from: set<nat>, rank: seq<nat>, j: nat, bound: int,
                            opts: Options)
    requires Sound(t)
  {
    exists e :: e in from && e < |segments| && e < |rank| && rank[e] < bound
      && j in NeighborsOf(t, segments, e, opts)
  }

  /** `rank` (ghost) numbers the label writes in the order they happen, and `time` is the
      next number. Every point relabelled from `orig` to `cur` was found as a neighbour of
      a point of `from` labelled before it, and every queued point as a neighbour of a
      point of `from` labelled before now. */
  ghost predicate Reached(t: Trig, segments: seq<Segment>, orig: seq<int>, cur: seq<int>, queue: seq<nat>,
                          from: set<nat>, rank: seq<nat>, time: nat, opts: Options)
    requires Sound(t) && |cur| == |orig| && |rank| == |cur|
  {
    && (forall j :: 0 <= j < |cur| && cur[j] != orig[j] ==> FoundFrom(t, segments, from, rank, j, rank[j], opts))
    && (forall k :: 0 <= k < |queue| ==> FoundFrom(t, segments, from, rank, queue[k], time, opts))
  }

  /** Every labelled point was labelled before `time`, and a point whose label is the
      same as in `orig` keeps its rank from `rank0`. */
  ghost predicate Ranked(orig: seq<int>, cur: seq<int>, rank0: seq<nat>, rank: seq<nat>, time: nat) {
    && |cur| == |orig| && |rank0| == |orig| && |rank| == |cur|
    && (forall j :: 0 <= j < |cur| && cur[j] >= 0 ==> rank[j] < time)
    && (forall j :: 0 <= j < |cur| && cur[j] == orig[j] ==> rank[j] == rank0[j])
  }

  /** The part of the loop invariant of `expandCluster` about labels and the queue */
  ghost predicate ExpandLabels(t: Trig, segments: seq<Segment>, orig: seq<int>, cur: seq<int>, queue: seq<nat>,
                               expanded: set<nat>, idx: nat, cid: int, opts: Options)
    requires Sound(t)
  {
    && |orig| == |segments| && |cur| == |segments| && idx < |segments| && cur[idx] == cid
    && (forall k :: 0 <= k < |queue| ==> queue[k] < |segments|)
    && Relabelled(orig, cur, cid)
    && ExpandedExactly(t, segments, orig, cur, expanded, cid, opts)
    && Closed(t, segments, cur, queue, expanded + {idx}, opts)
  }

  /** The loop invariant of `expandCluster`, from labels `orig` and ranks `rank0` on entry */
  ghost predicate ExpandInv(t: Trig, segments: seq<Segment>, orig: seq<int>, cur: seq<int>, queue: seq<nat>,
                            expanded: set<nat>, idx: nat, cid: int, rank0: seq<nat>, rank: seq<nat>, time: nat,
                            opts: Options)
    requires Sound(t)
  {
    && ExpandLabels(t, segments, orig, cur, queue, expanded, idx, cid, opts)
    && Ranked(orig, cur, rank0, rank, time)
    && Reached(t, segments, orig, cur, queue, expanded + {idx}, rank, time, opts)
  }

  /** `expandCluster(segments, labels, idx, neighbors, clusterId, ...)`. `expanded` (ghost)
      records the points whose neighbours were queued; `rank` and `time` (ghost) number
      the label writes, continuing from `rank0` and `time0`. */
  method ExpandCluster(t: Trig, segments: seq<Segment>, labels: array<int>, idx: nat, neighbors: seq<nat>,
                       clusterId: int, opts: Options, ghost rank0: seq<nat>, ghost time0: nat)
    returns (ghost expanded: set<nat>, ghost rank: seq<nat>, ghost time: nat)
    requires Sound(t) && labels.Length == |segments| && idx < |segments|
    requires neighbors == NeighborsOf(t, segments, idx, opts)
    requires clusterId >= 0 && labels[idx] == clusterId
    requires forall j :: 0 <= j < labels.Length ==> Noise <= labels[j] <= clusterId
    requires |rank0| == labels.Length
    requires forall j :: 0 <= j < labels.Length && labels[j] >= 0 ==> rank0[j] < time0
    modifies labels
    ensures Relabelled(old(labels[..]), labels[..], clusterId)
    ensures ExpandedExactly(t, segments, old(labels[..]), labels[..], expanded, clusterId, opts)
    // the seed and every expanded point have all their neighbours in some cluster
    ensures Closed(t, segments, labels[..], [], expanded + {idx}, opts)
    // every point that joined the cluster was found as a neighbour of the seed or of an
    // expanded point labelled before it, so each one has a chain back to the seed
    ensures time0 <= time && Ranked(old(labels[..]), labels[..], rank0, rank, time)
    ensures Reached(t, segments, old(labels[..]), labels[..], [], expanded + {idx}, rank, time, opts)
  {
    ghost var orig := labels[..];
    var queue: seq<nat> := neighbors;
    expanded := {};
    rank, time := rank0, time0;
    forall k | 0 <= k < |queue| ensures FoundFrom(t, segments, expanded + {idx}, rank, queue[k], time, opts) {
      assert idx in expanded + {idx};
    }
    while |queue| > 0
      invariant time0 <= time
      invariant ExpandInv(t, segments, orig, labels[..], queue, expanded, idx, clusterId, rank0, rank, time, opts)
      decreases CountOf(labels[..], Unvisited), |queue|
    {
      ghost var labels0, queue0, expanded0, rank1, time1 := labels[..], queue, expanded, rank, time;
      var current := queue[0];
      queue := queue[1..];
      ghost var written := labels[current] < 0;
      if written {
        rank, time := rank[current := time], time + 1;
      }
      if labels[current] == Noise {
        labels[current] := clusterId;
      }
      if labels[current] == Unvisited {
        labels[current] := clusterId;
        var newNeighbors := RegionQuery(t, segments, current, opts);
        if |newNeighbors| >= opts.minPts {
          queue := queue + newNeighbors;
          expanded := expanded + {current};
        }
      }
      ExpandStep(t, segments, orig, labels0, queue0, expanded0, idx, clusterId, rank0, rank1, time1, opts,
                 labels[..], queue, expanded, rank, time);
    }
    assert queue == [];
  }

  /** One turn of the queue keeps the invariant and makes progress: either one more point
      leaves the unvisited state or the queue gets shorter. */
  lemma ExpandStep(t: Trig, segments: seq<Segment>, orig: seq<int>, cur: seq<int>, queue: seq<nat>,
                   expanded: set<nat>, idx: nat, cid: int, rank0: seq<nat>, rank: seq<nat>, time: nat,
                   opts: Options, cur': seq<int>, queue': seq<nat>, expanded': set<nat>, rank': seq<nat>, time': nat)
    requires Sound(t) && cid >= 0
    requires ExpandInv(t, segments, orig, cur, queue, expanded, idx, cid, rank0, rank, time, opts)
    requires |queue| > 0
    requires cur' == if cur[queue[0]] < 0 then cur[queue[0] := cid] else cur
    requires rank' == if cur[queue[0]] < 0 then rank[queue[0] := time] else rank
    requires time' == if cur[queue[0]] < 0 then time + 1 else time
    requires cur[queue[0]] == Unvisited && Dense(t, segments, queue[0], opts) ==>
      queue' == queue[1..] + NeighborsOf(t, segments, queue[0], opts) && expanded' == expanded + {queue[0]}
    requires !(cur[queue[0]] == Unvisited && Dense(t, segments, queue[0], opts)) ==>
      queue' == queue[1..] && expanded' == expanded
    ensures time <= time'
    ensures ExpandInv(t, segments, orig, cur', queue', expanded', idx, cid, rank0, rank', time', opts)
    ensures CountOf(cur', Unvisited) < CountOf(cur, Unvisited)
      || (CountOf(cur', Unvisited) == CountOf(cur, Unvisited) && |queue'| < |queue|)
  {
    var current := queue[0];
    LabelsStep(t, segments, orig, cur, queue, expanded, idx, cid, opts, cur', queue', expanded');
    RankedStep(orig, cur, current, cid, rank0, rank, time, cur', rank', time');
    FromLabelled(t, segments, orig, cur, queue, expanded, idx, cid, opts);
    ReachedStep(t, segments, orig, cur, queue, expanded, idx, cid, rank, time, opts,
                cur', queue', expanded', rank', time');
  }

  /** The seed and the expanded points are labelled. */
  lemma FromLabelled(t: Trig, segments: seq<Segment>, orig: seq<int>, cur: seq<int>, queue: seq<nat>,
                     expanded: set<nat>, idx: nat, cid: int, opts: Options)
    requires Sound(t) && cid >= 0
    requires ExpandLabels(t, segments, orig, cur, queue, expanded, idx, cid, opts)
    ensures |queue| > 0 ==> queue[0] < |cur|
    ensures forall e :: e in expanded + {idx} ==> e < |cur| && cur[e] >= 0
  {
  }

  /** One turn of the queue keeps the label part of the invariant. */
  lemma LabelsStep(t: Trig, segments: seq<Segment>, orig: seq<int>, cur: seq<int>, queue: seq<nat>,
                   expanded: set<nat>, idx: nat, cid: int, opts: Options,
                   cur': seq<int>, queue': seq<nat>, expanded': set<nat>)
    requires Sound(t) && cid >= 0
    requires ExpandLabels(t, segments, orig, cur, queue, expanded, idx, cid, opts)
    requires |queue| > 0
    requires cur' == if cur[queue[0]] < 0 then cur[queue[0] := cid] else cur
    requires cur[queue[0]] == Unvisited && Dense(t, segments, queue[0], opts) ==>
      queue' == queue[1..] + NeighborsOf(t, segments, queue[0], opts) && expanded' == expanded + {queue[0]}
    requires !(cur[queue[0]] == Unvisited && Dense(t, segments, queue[0], opts)) ==>
      queue' == queue[1..] && expanded' == expanded
    ensures ExpandLabels(t, segments, orig, cur', queue', expanded', idx, cid, opts)
    ensures CountOf(cur', Unvisited) < CountOf(cur, Unvisited)
      || (CountOf(cur', Unvisited) == CountOf(cur, Unvisited) && |queue'| < |queue|)
  {
    var current := queue[0];
    CountOfUpdate(cur, current, cid, Unvisited);
    assert Relabelled(orig, cur', cid);
    ExpandedStep(t, segments, orig, cur, current, expanded, cid, opts, cur', expanded');
    forall k | 0 <= k < |queue'| ensures queue'[k] < |segments| {
      if k >= |queue| - 1 {
        assert queue'[k] in NeighborsOf(t, segments, current, opts);
      } else {
        assert queue'[k] == queue[k + 1];
      }
    }
    ClosedStep(t, segments, cur, cur', queue, queue', expanded + {idx}, expanded' + {idx}, opts);
  }

  /** One step of the queue keeps `ExpandedExactly`: `current` is expanded exactly when it
      was unvisited and is a core point. */
  lemma ExpandedStep(t: Trig, segments: seq<Segment>, orig: seq<int>, cur: seq<int>, current: nat,
                     expanded: set<nat>, cid: int, opts: Options, cur': seq<int>, expanded': set<nat>)
    requires Sound(t) && cid >= 0 && |orig| == |segments| && |cur| == |segments| && current < |cur|
    requires Relabelled(orig, cur, cid) && ExpandedExactly(t, segments, orig, cur, expanded, cid, opts)
    requires cur' == if cur[current] < 0 then cur[current := cid] else cur
    requires cur[current] == Unvisited && Dense(t, segments, current, opts) ==> expanded' == expanded + {current}
    requires !(cur[current] == Unvisited && Dense(t, segments, current, opts)) ==> expanded' == expanded
    ensures ExpandedExactly(t, segments, orig, cur', expanded', cid, opts)
  {
    forall j | 0 <= j < |cur'| && orig[j] == Unvisited && cur'[j] == cid && Dense(t, segments, j, opts)
      ensures j in expanded'
    {
      if j != current {
        assert cur[j] == cur'[j];
      } else if cur[j] != cid {
        assert cur[j] == Unvisited;
      }
    }
  }

  /** Writing the label of `current` gives it the next rank; every other rank stays. */
  lemma RankedStep(orig: seq<int>, cur: seq<int>, current: nat, cid: int, rank0: seq<nat>, rank: seq<nat>,
                   time: nat, cur': seq<int>, rank': seq<nat>, time': nat)
    requires cid >= 0 && current < |cur| && Relabelled(orig, cur, cid)
    requires Ranked(orig, cur, rank0, rank, time)
    requires cur' == if cur[current] < 0 then cur[current := cid] else cur
    requires rank' == if cur[current] < 0 then rank[current := time] else rank
    requires time' == if cur[current] < 0 then time + 1 else time
    ensures time <= time' && Ranked(orig, cur', rank0, rank', time')
  {
  }

  /** One step of the queue keeps `Reached`: the point taken from the queue was found as
      a neighbour of a point labelled before it, and the neighbours it queues are its own. */
  lemma ReachedStep(t: Trig, segments: seq<Segment>, orig: seq<int>, cur: seq<int>, queue: seq<nat>,
                    expanded: set<nat>, idx: nat, cid: int, rank: seq<nat>, time: nat, opts: Options,
                    cur': seq<int>, queue': seq<nat>, expanded': set<nat>, rank': seq<nat>, time': nat)
    requires Sound(t) && |cur| == |orig| && |rank| == |cur| && |cur| == |segments|
    requires |queue| > 0 && queue[0] < |cur|
    requires forall e :: e in expanded + {idx} ==> e < |cur| && cur[e] >= 0
    requires Reached(t, segments, orig, cur, queue, expanded + {idx}, rank, time, opts)
    requires cur' == if cur[queue[0]] < 0 then cur[queue[0] := cid] else cur
    requires rank' == if cur[queue[0]] < 0 then rank[queue[0] := time] else rank
    requires time' == if cur[queue[0]] < 0 then time + 1 else time
    requires cur[queue[0]] == Unvisited && Dense(t, segments, queue[0], opts) ==>
      queue' == queue[1..] + NeighborsOf(t, segments, queue[0], opts) && expanded' == expanded + {queue[0]}
    requires !(cur[queue[0]] == Unvisited && Dense(t, segments, queue[0], opts)) ==>
      queue' == queue[1..] && expanded' == expanded
    ensures Reached(t, segments, orig, cur', queue', expanded' + {idx}, rank', time', opts)
  {
    var current := queue[0];
    var from, from' := expanded + {idx}, expanded' + {idx};
    assert from <= from';
    assert FoundFrom(t, segments, from, rank, current, time, opts);
    forall e | e in from ensures rank'[e] == rank[e] {
      assert cur[e] >= 0;
    }
    forall j | 0 <= j < |cur'| && cur'[j] != orig[j]
      ensures FoundFrom(t, segments, from', rank', j, rank'[j], opts)
    {
      if j == current && cur[current] < 0 {
        FoundFromWeaken(t, segments, from, rank, j, time, from', rank', rank'[j], opts);
      } else {
        assert cur[j] == cur'[j] && rank'[j] == rank[j];
        FoundFromWeaken(t, segments, from, rank, j, rank[j], from', rank', rank'[j], opts);
      }
    }
    forall k | 0 <= k < |queue'| ensures FoundFrom(t, segments, from', rank', queue'[k], time', opts) {
      if k < |queue| - 1 {
        assert queue'[k] == queue[k + 1];
        FoundFromWeaken(t, segments, from, rank, queue'[k], time, from', rank', time', opts);
      } else {
        assert current in from' && rank'[current] == time < time';
        assert queue'[k] in NeighborsOf(t, segments, current, opts);
      }
    }
  }

  /** Being found from a point of a set survives growing the set and the bound, and
      changing ranks outside the set. */
  lemma FoundFromWeaken(t: Trig, segments: seq<Segment>, from: set<nat>, rank: seq<nat>, j: nat, bound: int,
                        from': set<nat>, rank': seq<nat>, bound': int, opts: Options)
    requires Sound(t) && from <= from' && bound <= bound' && |rank'| == |rank|
    requires forall e :: e in from ==> e < |rank| ==> rank'[e] == rank[e]
    requires FoundFrom(t, segments, from, rank, j, bound, opts)
    ensures FoundFrom(t, segments, from', rank', j, bound', opts)
  {
    var e :| e in from && e < |segments| && e < |rank| && rank[e] < bound
      && j in NeighborsOf(t, segments, e, opts);
    assert e in from' && rank'[e] < bound';
  }

  /** One step of the queue keeps `Closed`: every point that left the queue is labelled,
      labels never go back to negative, and a newly expanded point has queued all its
      neighbours. */
  lemma ClosedStep(t: Trig, segments: seq<Segment>, labels0: seq<int>, labels1: seq<int>,
                   queue0: seq<nat>, queue1: seq<nat>, from0: set<nat>, from1: set<nat>, opts: Options)
    requires Sound(t) && |labels0| == |segments| && |labels1| == |segments|
    requires forall j :: j in from1 ==> j < |segments|
    requires from0 <= from1
    requires Closed(t, segments, labels0, queue0, from0, opts)
    requires forall m :: m in queue0 ==> m < |segments| && (labels1[m] >= 0 || m in queue1)
    requires forall m :: 0 <= m < |segments| && labels0[m] >= 0 ==> labels1[m] >= 0
    requires forall j, m :: j in from1 - from0 && m in NeighborsOf(t, segments, j, opts) ==>
      labels1[m] >= 0 || m in queue1
    ensures Closed(t, segments, labels1, queue1, from1, opts)
  {
    forall j, m | j in from1 && m in NeighborsOf(t, segments, j, opts)
      ensures labels1[m] >= 0 || m in queue1
    {
      if j in from0 {
        assert labels0[m] >= 0 || m in queue0;
      } else {
        assert j in from1 - from0;
      }
    }
  }

  // ---------------------------------------------------------------------------
  // dbscan

  /** Every neighbour of a core point in a cluster is in a cluster whose id is at most
      that point's: the expansion that labels a core point takes all its unlabelled
      neighbours along. */
  ghost predicate ClustersClosed(t: Trig, segments: seq<Segment>, labels: seq<int>, opts: Options)
    requires Sound(t) && |labels| == |segments|
  {
    forall j, m ::
      (0 <= j < |labels| && labels[j] >= 0 && Dense(t, segments, j, opts)
       && m in NeighborsOf(t, segments, j, opts)) ==> 0 <= labels[m] <= labels[j]
  }

  /** Each seed is the first core point not in an earlier cluster: a core point before
      seed `c` belongs to a cluster below `c`. */
  ghost predicate SeedsFirst(t: Trig, segments: seq<Segment>, labels: seq<int>, seeds: seq<nat>, opts: Options)
    requires Sound(t) && |labels| == |segments|
  {
    forall c, j :: 0 <= c < |seeds| && 0 <= j < |labels| && j < seeds[c] && Dense(t, segments, j, opts) ==>
      0 <= labels[j] < c
  }

  /** Segment `j` is a neighbour of a core point that carries the same label and was
      labelled before it. */
  ghost predicate CoreNeighbor(t: Trig, segments: seq<Segment>, labels: seq<int>, rank: seq<nat>, j: nat,
                               opts: Options)
    requires Sound(t) && |labels| == |segments| && |rank| == |labels| && j < |labels|
  {
    exists e :: 0 <= e < |labels| && labels[e] == labels[j] && rank[e] < rank[j] && Dense(t, segments, e, opts)
      && j in NeighborsOf(t, segments, e, opts)
  }

  /** Every member of cluster `c` is the cluster's seed or a neighbour of an earlier
      labelled core point of the same cluster; following those points back always ends
      at the seed. */
  ghost predicate MembersReached(t: Trig, segments: seq<Segment>, labels: seq<int>, seeds: seq<nat>,
                                 rank: seq<nat>, opts: Options)
    requires Sound(t) && |labels| == |segments| && |rank| == |labels|
  {
    forall j :: 0 <= j < |labels| && 0 <= labels[j] < |seeds| ==>
      j == seeds[labels[j]] || CoreNeighbor(t, segments, labels, rank, j, opts)
  }

  /** The labelling `dbscan` produces, with `seeds` the core point each cluster was started
      from and `rank` the order in which the labels were written:
      every point is noise or in a cluster; cluster `c` holds its seed, a core point;
      seeds are the first core points outside earlier clusters; noise is never a core
      point; a core point's neighbours are in its cluster or an earlier one; and every
      member is reached from its seed through core points of its cluster.
      `DbscanLabellingUnique` shows that this determines the labels and the seeds. */
  ghost predicate DbscanLabelling(t: Trig, segments: seq<Segment>, labels: seq<int>, seeds: seq<nat>,
                                  rank: seq<nat>, opts: Options)
    requires Sound(t)
  {
    && |labels| == |segments| && |rank| == |segments|
    && (forall j :: 0 <= j < |labels| ==> labels[j] == Noise || 0 <= labels[j] < |seeds|)
    && (forall c :: 0 <= c < |seeds| ==>
          seeds[c] < |labels| && labels[seeds[c]] == c && Dense(t, segments, seeds[c], opts))
    && SeedsFirst(t, segments, labels, seeds, opts)
    && (forall j :: 0 <= j < |labels| && labels[j] == Noise ==> !Dense(t, segments, j, opts))
    && ClustersClosed(t, segments, labels, opts)
    && MembersReached(t, segments, labels, seeds, rank, opts)
  }

  /** Segment `j` is not a core point and no core point has it as a neighbour. */
  ghost predicate Isolated(t: Trig, segments: seq<Segment>, j: nat, opts: Options)
    requires Sound(t) && j < |segments|
  {
    && !Dense(t, segments, j, opts)
    && forall e :: 0 <= e < |segments| && Dense(t, segments, e, opts) ==> j !in NeighborsOf(t, segments, e, opts)
  }

  /** In a DBSCAN labelling an isolated segment is noise. */
  lemma IsolatedIsNoise(t: Trig, segments: seq<Segment>, labels: seq<int>, seeds: seq<nat>, rank: seq<nat>,
                        j: nat, opts: Options)
    requires Sound(t) && DbscanLabelling(t, segments, labels, seeds, rank, opts)
    requires j < |labels| && Isolated(t, segments, j, opts)
    ensures labels[j] == Noise
  {
  }

  /** Two DBSCAN labellings of the same segments are the same: the same seeds and the same
      label for every segment, whatever orders their ranks record. */
  lemma DbscanLabellingUnique(t: Trig, segments: seq<Segment>, opts: Options,
                              labels1: seq<int>, seeds1: seq<nat>, rank1: seq<nat>,
                              labels2: seq<int>, seeds2: seq<nat>, rank2: seq<nat>)
    requires Sound(t)
    requires DbscanLabelling(t, segments, labels1, seeds1, rank1, opts)
    requires DbscanLabelling(t, segments, labels2, seeds2, rank2, opts)
    ensures labels1 == labels2 && seeds1 == seeds2
  {
    AgreeBelow(t, segments, opts, labels1, seeds1, rank1, labels2, seeds2, rank2, |seeds1| + |seeds2|);
    // the last seed of each labelling carries the same id in the other
    if |seeds1| > 0 {
      var a := seeds1[|seeds1| - 1];
      assert labels2[a] == labels1[a];
    }
    if |seeds2| > 0 {
      var b := seeds2[|seeds2| - 1];
      assert labels1[b] == labels2[b];
    }
    assert |seeds1| == |seeds2|;
    forall c | 0 <= c < |seeds1| ensures seeds1[c] == seeds2[c] {
      SameSeed(t, segments, opts, labels1, seeds1, rank1, labels2, seeds2, rank2, c);
    }
  }

  /** The two labellings agree on every cluster below `c`. */
  lemma {:induction false} AgreeBelow(t: Trig, segments: seq<Segment>, opts: Options,
                                      labels1: seq<int>, seeds1: seq<nat>, rank1: seq<nat>,
                                      labels2: seq<int>, seeds2: seq<nat>, rank2: seq<nat>, c: nat)
    requires Sound(t)
    requires DbscanLabelling(t, segments, labels1, seeds1, rank1, opts)
    requires DbscanLabelling(t, segments, labels2, seeds2, rank2, opts)
    ensures forall j :: 0 <= j < |labels1| && 0 <= labels1[j] < c ==> labels2[j] == labels1[j]
    ensures forall j :: 0 <= j < |labels2| && 0 <= labels2[j] < c ==> labels1[j] == labels2[j]
    decreases c
  {
    if c > 0 {
      AgreeBelow(t, segments, opts, labels1, seeds1, rank1, labels2, seeds2, rank2, c - 1);
      forall j | 0 <= j < |labels1| && labels1[j] == c - 1 ensures labels2[j] == c - 1 {
        SameMember(t, segments, opts, labels1, seeds1, rank1, labels2, seeds2, rank2, c - 1, j);
      }
      forall j | 0 <= j < |labels2| && labels2[j] == c - 1 ensures labels1[j] == c - 1 {
        SameMember(t, segments, opts, labels2, seeds2, rank2, labels1, seeds1, rank1, c - 1, j);
      }
    }
  }

  /** When the two labellings agree below `c`, cluster `c` of the first has the same seed
      in the second. */
  lemma SameSeed(t: Trig, segments: seq<Segment>, opts: Options,
                 labels1: seq<int>, seeds1: seq<nat>, rank1: seq<nat>,
                 labels2: seq<int>, seeds2: seq<nat>, rank2: seq<nat>, c: nat)
    requires Sound(t)
    requires DbscanLabelling(t, segments, labels1, seeds1, rank1, opts)
    requires DbscanLabelling(t, segments, labels2, seeds2, rank2, opts)
    requires c < |seeds1|
    requires forall j :: 0 <= j < |labels1| && 0 <= labels1[j] < c ==> labels2[j] == labels1[j]
    requires forall j :: 0 <= j < |labels2| && 0 <= labels2[j] < c ==> labels1[j] == labels2[j]
    ensures c < |seeds2| && seeds2[c] == seeds1[c]
  {
    var a := seeds1[c];
    var a1, a2 := labels1[a], labels2[a];
    // the seed is in cluster `c` or a later one in the second labelling
    assert a2 != Noise;
    assert a2 < c ==> a1 == a2;
    var b := seeds2[c];
    var b1, b2 := labels1[b], labels2[b];
    // neither seed is a core point before the other one outside the earlier clusters
    assert a < b ==> 0 <= a2 < c;
    assert b < a ==> 0 <= b1 < c && b2 == b1;
  }

  /** When the two labellings agree below `c`, a member of cluster `c` in the first is in
      cluster `c` in the second, by induction along its chain back to the seed. */
  lemma SameMember(t: Trig, segments: seq<Segment>, opts: Options,
                   labels1: seq<int>, seeds1: seq<nat>, rank1: seq<nat>,
                   labels2: seq<int>, seeds2: seq<nat>, rank2: seq<nat>, c: nat, j: nat)
    requires Sound(t)
    requires DbscanLabelling(t, segments, labels1, seeds1, rank1, opts)
    requires DbscanLabelling(t, segments, labels2, seeds2, rank2, opts)
    requires forall j :: 0 <= j < |labels1| && 0 <= labels1[j] < c ==> labels2[j] == labels1[j]
    requires forall j :: 0 <= j < |labels2| && 0 <= labels2[j] < c ==> labels1[j] == labels2[j]
    requires j < |labels1| && labels1[j] == c
    ensures labels2[j] == c
    decreases rank1[j]
  {
    SameSeed(t, segments, opts, labels1, seeds1, rank1, labels2, seeds2, rank2, c);
    if j != seeds1[c] {
      var e :| 0 <= e < |labels1| && labels1[e] == labels1[j] && rank1[e] < rank1[j]
        && Dense(t, segments, e, opts) && j in NeighborsOf(t, segments, e, opts);
      SameMember(t, segments, opts, labels1, seeds1, rank1, labels2, seeds2, rank2, c, e);
      var j1, j2 := labels1[j], labels2[j];
      assert 0 <= j2 <= c;
      assert j2 < c ==> j1 == j2;
    }
  }

  /** The loop invariant of `dbscan` after the first `i` points, `clusterId` clusters and
      `time` label writes */
  ghost predicate DbscanInv(t: Trig, segments: seq<Segment>, lab: seq<int>, i: nat, clusterId: nat,
                            seeds: seq<nat>, rank: seq<nat>, time: nat, opts: Options)
    requires Sound(t)
  {
    && |lab| == |segments| && |rank| == |segments| && i <= |lab|
    && (forall j :: 0 <= j < i ==> lab[j] != Unvisited)
    && (forall j :: 0 <= j < |lab| ==> Noise <= lab[j] < clusterId)
    && |seeds| == clusterId
    && (forall c :: 0 <= c < clusterId ==>
          seeds[c] < |lab| && lab[seeds[c]] == c && Dense(t, segments, seeds[c], opts))
    && SeedsFirst(t, segments, lab, seeds, opts)
    && (forall j :: 0 <= j < |lab| && lab[j] == Noise ==> !Dense(t, segments, j, opts))
    && ClustersClosed(t, segments, lab, opts)
    && MembersReached(t, segments, lab, seeds, rank, opts)
    && (forall j :: 0 <= j < |lab| && lab[j] >= 0 ==> rank[j] < time)
  }

  /** `dbscan(segments, eps, minPts, bearingThreshold)`. The clusters are the position lists
      of the segments that carry each id; `labels` is the final label array, `seeds`
      (ghost) the point each cluster was started from and `rank` (ghost) the order in which
      the labels were written. */
  method Dbscan(t: Trig, segments: seq<Segment>, opts: Options)
    returns (labels: seq<int>, clusters: seq<seq<nat>>, ghost seeds: seq<nat>, ghost rank: seq<nat>)
    requires Sound(t)
    ensures |labels| == |segments|
    // no point is left unvisited
    ensures forall j :: 0 <= j < |labels| ==> labels[j] == Noise || 0 <= labels[j] < |clusters|
    // the labels are the DBSCAN labelling, which is unique, with one seed per cluster
    ensures DbscanLabelling(t, segments, labels, seeds, rank, opts)
    ensures |seeds| == |clusters|
    ensures forall c :: 0 <= c < |clusters| ==> clusters[c] == IndicesOf(labels, c) && |clusters[c]| > 0
    ensures forall j :: 0 <= j < |labels| && Isolated(t, segments, j, opts) ==> labels[j] == Noise
  {
    var n := |segments|;
    var lab := new int[n](_ => Unvisited);
    var clusterId: nat := 0;
    seeds := [];
    rank := seq(n, _ => 0);
    ghost var time: nat := 0;
    for i := 0 to n
      invariant lab.Length == n
      invariant DbscanInv(t, segments, lab[..], i, clusterId, seeds, rank, time, opts)
    {
      ghost var lab0 := lab[..];
      if lab[i] != Unvisited {
        VisitLabelled(t, segments, lab0, i, clusterId, seeds, rank, time, opts);
        continue;
      }
      var neighbors := RegionQuery(t, segments, i, opts);
      if |neighbors| < opts.minPts {
        lab[i] := Noise;
        VisitNoise(t, segments, lab0, i, clusterId, seeds, rank, time, opts);
        continue;
      }
      lab[i] := clusterId;
      ghost var expanded, rank', time' :=
        ExpandCluster(t, segments, lab, i, neighbors, clusterId, opts, rank[i := time], time + 1);
      VisitCore(t, segments, lab0, i, clusterId, seeds, rank, time, opts, lab[..], expanded, rank', time');
      seeds := seeds + [i];
      rank, time := rank', time';
      clusterId := clusterId + 1;
    }
    labels := lab[..];
    clusters := CollectClusters(labels, clusterId);
    DbscanDone(t, segments, labels, clusters, seeds, rank, time, opts);
  }

  /** Once every point is visited the invariant is the DBSCAN labelling: every cluster is
      non-empty and every isolated segment is noise. */
  lemma DbscanDone(t: Trig, segments: seq<Segment>, labels: seq<int>, clusters: seq<seq<nat>>,
                   seeds: seq<nat>, rank: seq<nat>, time: nat, opts: Options)
    requires Sound(t) && DbscanInv(t, segments, labels, |labels|, |clusters|, seeds, rank, time, opts)
    requires forall c :: 0 <= c < |clusters| ==> clusters[c] == IndicesOf(labels, c)
    ensures forall j :: 0 <= j < |labels| ==> labels[j] == Noise || 0 <= labels[j] < |clusters|
    ensures DbscanLabelling(t, segments, labels, seeds, rank, opts)
    ensures forall c :: 0 <= c < |clusters| ==> |clusters[c]| > 0
    ensures forall j :: 0 <= j < |labels| && Isolated(t, segments, j, opts) ==> labels[j] == Noise
  {
    forall j | 0 <= j < |labels| ensures labels[j] == Noise || 0 <= labels[j] < |clusters| {
      assert labels[j] != Unvisited;
    }
    forall c | 0 <= c < |clusters| ensures |clusters[c]| > 0 {
      assert seeds[c] in clusters[c];
    }
    forall j | 0 <= j < |labels| && Isolated(t, segments, j, opts) ensures labels[j] == Noise {
      IsolatedIsNoise(t, segments, labels, seeds, rank, j, opts);
    }
  }

  /** `for (i < clusterId) clusters.push(segments.filter((_, idx) => labels[idx] === i))`,
      with each cluster given by the positions of its segments */
  method CollectClusters(labels: seq<int>, clusterCount: nat) returns (clusters: seq<seq<nat>>)
    ensures |clusters| == clusterCount
    ensures forall c :: 0 <= c < clusterCount ==> clusters[c] == IndicesOf(labels, c)
  {
    clusters := [];
    for c := 0 to clusterCount
      invariant |clusters| == c
      invariant forall k :: 0 <= k < c ==> clusters[k] == IndicesOf(labels, k)
    {
      clusters := clusters + [IndicesOf(labels, c)];
    }
  }

  /** A point already labelled by an earlier expansion is skipped. */
  lemma VisitLabelled(t: Trig, segments: seq<Segment>, lab: seq<int>, i: nat, clusterId: nat, seeds: seq<nat>,
                      rank: seq<nat>, time: nat, opts: Options)
    requires Sound(t) && DbscanInv(t, segments, lab, i, clusterId, seeds, rank, time, opts)
    requires i < |lab| && lab[i] != Unvisited
    ensures DbscanInv(t, segments, lab, i + 1, clusterId, seeds, rank, time, opts)
  {
  }

  /** A point that is not a core point becomes noise. */
  lemma VisitNoise(t: Trig, segments: seq<Segment>, lab: seq<int>, i: nat, clusterId: nat, seeds: seq<nat>,
                   rank: seq<nat>, time: nat, opts: Options)
    requires Sound(t) && DbscanInv(t, segments, lab, i, clusterId, seeds, rank, time, opts)
    requires i < |lab| && lab[i] == Unvisited && !Dense(t, segments, i, opts)
    ensures DbscanInv(t, segments, lab[i := Noise], i + 1, clusterId, seeds, rank, time, opts)
  {
    NoiseKeepsOrder(t, segments, lab, i, seeds, opts);
    NoiseKeepsReached(t, segments, lab, i, seeds, rank, opts);
  }

  /** Marking an unvisited point that is no core point as noise keeps the clusters closed
      and the seeds first. */
  lemma NoiseKeepsOrder(t: Trig, segments: seq<Segment>, lab: seq<int>, i: nat, seeds: seq<nat>, opts: Options)
    requires Sound(t) && |lab| == |segments| && i < |lab| && lab[i] == Unvisited
    requires ClustersClosed(t, segments, lab, opts) && SeedsFirst(t, segments, lab, seeds, opts)
    ensures ClustersClosed(t, segments, lab[i := Noise], opts) && SeedsFirst(t, segments, lab[i := Noise], seeds, opts)
  {
    var after := lab[i := Noise];
    forall j, m | 0 <= j < |after| && after[j] >= 0 && Dense(t, segments, j, opts)
      && m in NeighborsOf(t, segments, j, opts)
      ensures 0 <= after[m] <= after[j]
    {
      assert 0 <= lab[m] <= lab[j];
    }
    forall c, j | 0 <= c < |seeds| && 0 <= j < |after| && j < seeds[c] && Dense(t, segments, j, opts)
      ensures 0 <= after[j] < c
    {
      assert 0 <= lab[j] < c;
    }
  }

  /** Marking an unvisited point as noise keeps every cluster member reached. */
  lemma NoiseKeepsReached(t: Trig, segments: seq<Segment>, lab: seq<int>, i: nat, seeds: seq<nat>,
                          rank: seq<nat>, opts: Options)
    requires Sound(t) && |lab| == |segments| && |rank| == |lab| && i < |lab| && lab[i] == Unvisited
    requires MembersReached(t, segments, lab, seeds, rank, opts)
    ensures MembersReached(t, segments, lab[i := Noise], seeds, rank, opts)
  {
    var after := lab[i := Noise];
    forall j | 0 <= j < |after| && 0 <= after[j] < |seeds|
      ensures j == seeds[after[j]] || CoreNeighbor(t, segments, after, rank, j, opts)
    {
      assert after[j] == lab[j];
      if j != seeds[lab[j]] {
        var e :| 0 <= e < |lab| && lab[e] == lab[j] && rank[e] < rank[j] && Dense(t, segments, e, opts)
          && j in NeighborsOf(t, segments, e, opts);
        assert after[e] == lab[e];
      }
    }
  }

  /** An unvisited core point starts cluster `clusterId` with rank `time`; the facts
      `ExpandCluster` guarantees keep the invariant. */
  lemma VisitCore(t: Trig, segments: seq<Segment>, lab: seq<int>, i: nat, clusterId: nat, seeds: seq<nat>,
                  rank: seq<nat>, time: nat, opts: Options, after: seq<int>, expanded: set<nat>,
                  rank': seq<nat>, time': nat)
    requires Sound(t) && DbscanInv(t, segments, lab, i, clusterId, seeds, rank, time, opts)
    requires i < |lab| && lab[i] == Unvisited && Dense(t, segments, i, opts)
    requires |after| == |lab|
    requires Relabelled(lab[i := clusterId], after, clusterId)
    requires ExpandedExactly(t, segments, lab[i := clusterId], after, expanded, clusterId, opts)
    requires Closed(t, segments, after, [], expanded + {i}, opts)
    requires Ranked(lab[i := clusterId], after, rank[i := time], rank', time')
    requires Reached(t, segments, lab[i := clusterId], after, [], expanded + {i}, rank', time', opts)
    ensures DbscanInv(t, segments, after, i + 1, clusterId + 1, seeds + [i], rank', time', opts)
  {
    var before := lab[i := clusterId];
    assert before[i := Unvisited] == lab;
    ExpansionKeepsClosed(t, segments, before, after, i, expanded, clusterId, opts);
    ExpansionKeepsReached(t, segments, lab, i, clusterId, seeds, rank, time, opts, after, expanded, rank', time');
    ExpansionKeepsLabels(t, segments, lab, i, clusterId, seeds, rank, time, opts, after);
  }

  /** After an expansion from `i` the first `i + 1` points are visited, the old seeds keep
      their clusters, `i` seeds the new one as the first core point outside the old ones,
      and noise is still no core point. */
  lemma ExpansionKeepsLabels(t: Trig, segments: seq<Segment>, lab: seq<int>, i: nat, clusterId: nat,
                             seeds: seq<nat>, rank: seq<nat>, time: nat, opts: Options, after: seq<int>)
    requires Sound(t) && DbscanInv(t, segments, lab, i, clusterId, seeds, rank, time, opts)
    requires i < |lab| && lab[i] == Unvisited && Dense(t, segments, i, opts)
    requires Relabelled(lab[i := clusterId], after, clusterId)
    ensures forall j :: 0 <= j < i + 1 ==> after[j] != Unvisited
    ensures forall j :: 0 <= j < |after| ==> Noise <= after[j] < clusterId + 1
    ensures forall c :: 0 <= c < clusterId + 1 ==>
      (seeds + [i])[c] < |after| && after[(seeds + [i])[c]] == c && Dense(t, segments, (seeds + [i])[c], opts)
    ensures SeedsFirst(t, segments, after, seeds + [i], opts)
    ensures forall j :: 0 <= j < |after| && after[j] == Noise ==> !Dense(t, segments, j, opts)
  {
    var before := lab[i := clusterId];
    var seeds' := seeds + [i];
    forall j | 0 <= j < |after| && after[j] == Noise ensures !Dense(t, segments, j, opts) {
      assert before[j] == Noise;
    }
    forall j | 0 <= j < i + 1 ensures after[j] != Unvisited {
      assert before[j] != Unvisited;
    }
    forall c, j | 0 <= c < |seeds'| && 0 <= j < |after| && j < seeds'[c] && Dense(t, segments, j, opts)
      ensures 0 <= after[j] < c
    {
      if c < |seeds| {
        assert seeds'[c] == seeds[c] && 0 <= lab[j] < c;
      } else {
        assert j < i && lab[j] != Unvisited && lab[j] != Noise;
      }
      assert after[j] == before[j];
    }
  }

  /** The facts `ExpandCluster` guarantees keep every cluster member reached: the new
      cluster's members are its seed or neighbours of its seed or of its expanded core
      points labelled before them, and the old clusters keep their labels and ranks. */
  lemma ExpansionKeepsReached(t: Trig, segments: seq<Segment>, lab: seq<int>, i: nat, clusterId: nat,
                              seeds: seq<nat>, rank: seq<nat>, time: nat, opts: Options,
                              after: seq<int>, expanded: set<nat>, rank': seq<nat>, time': nat)
    requires Sound(t) && |lab| == |segments| && |after| == |lab| && |rank| == |lab| && i < |lab|
    requires lab[i] == Unvisited && Dense(t, segments, i, opts) && |seeds| == clusterId
    requires forall j :: 0 <= j < |lab| ==> lab[j] < clusterId
    requires MembersReached(t, segments, lab, seeds, rank, opts)
    requires Relabelled(lab[i := clusterId], after, clusterId)
    requires forall j :: j in expanded ==> j < |after| && after[j] == clusterId && Dense(t, segments, j, opts)
    requires Ranked(lab[i := clusterId], after, rank[i := time], rank', time')
    requires Reached(t, segments, lab[i := clusterId], after, [], expanded + {i}, rank', time', opts)
    ensures MembersReached(t, segments, after, seeds + [i], rank', opts)
  {
    var before := lab[i := clusterId];
    var seeds' := seeds + [i];
    assert after[i] == clusterId;
    forall j | 0 <= j < |after| && 0 <= after[j] < |seeds'|
      ensures j == seeds'[after[j]] || CoreNeighbor(t, segments, after, rank', j, opts)
    {
      if j == i {
        assert seeds'[clusterId] == i;
      } else if after[j] != before[j] {
        var e :| e in expanded + {i} && e < |segments| && e < |rank'| && rank'[e] < rank'[j]
          && j in NeighborsOf(t, segments, e, opts);
        assert after[e] == after[j] && Dense(t, segments, e, opts);
      } else if j != seeds[lab[j]] {
        var e :| 0 <= e < |lab| && lab[e] == lab[j] && rank[e] < rank[j] && Dense(t, segments, e, opts)
          && j in NeighborsOf(t, segments, e, opts);
        assert before[e] == lab[e] && after[e] == before[e];
        assert rank'[e] == rank[e] && rank'[j] == rank[j];
      } else {
        assert seeds'[lab[j]] == seeds[lab[j]];
      }
    }
  }

  /** The facts `ExpandCluster` guarantees keep the clusters closed: the new cluster's core
      points have all their neighbours in it or in older clusters. */
  lemma ExpansionKeepsClosed(t: Trig, segments: seq<Segment>, before: seq<int>, after: seq<int>, idx: nat,
                             expanded: set<nat>, clusterId: int, opts: Options)
    requires Sound(t) && |before| == |segments| && |after| == |segments| && idx < |segments|
    requires before[idx] == clusterId && clusterId >= 0
    requires forall j :: 0 <= j < |before| ==> Noise <= before[j]
    requires ClustersClosed(t, segments, before[idx := Unvisited], opts)
    requires forall j :: 0 <= j < |before| && before[j] == Noise ==> !Dense(t, segments, j, opts)
    requires forall j :: 0 <= j < |after| ==> after[j] <= clusterId
    requires forall j :: 0 <= j < |after| && before[j] >= 0 ==> after[j] == before[j]
    requires forall j :: 0 <= j < |after| && after[j] != before[j] ==> after[j] == clusterId && before[j] < 0
    requires forall j :: j in expanded ==> j < |after| && after[j] == clusterId
    requires forall j ::
      (0 <= j < |after| && before[j] == Unvisited && after[j] == clusterId
       && Dense(t, segments, j, opts)) ==> j in expanded
    requires Closed(t, segments, after, [], expanded + {idx}, opts)
    ensures ClustersClosed(t, segments, after, opts)
  {
    var prior := before[idx := Unvisited];
    forall j, m | 0 <= j < |after| && after[j] >= 0 && Dense(t, segments, j, opts)
      && m in NeighborsOf(t, segments, j, opts)
      ensures 0 <= after[m] <= after[j]
    {
      if j == idx || j in expanded {
        assert j in expanded + {idx};
        assert after[j] == clusterId;
      } else {
        assert prior[j] == before[j] >= 0;
        assert 0 <= prior[m] <= prior[j];
      }
    }
  }

  // ---------------------------------------------------------------------------
  // filterByRouteConsistency

  datatype RouteResult = RouteResult(dominant: seq<Segment>, rejected: seq<Segment>, clusterCount: nat)

  /** `clusters.map(c => c.length)` */
  function Lengths(clusters: seq<seq<nat>>): (r: seq<int>)
    ensures |r| == |clusters|
    ensures forall c :: 0 <= c < |r| ==> r[c] == |clusters[c]|
  {
    seq(|clusters|, c requires 0 <= c < |clusters| => |clusters[c]|)
  }

  /** The positions below `n` that are not in `chosen`: `segments.filter(s => !dominant.includes(s))` */
  function Outside(n: nat, chosen: seq<nat>): (r: seq<nat>)
    ensures forall p: nat :: p in r <==> p < n && p !in chosen
    ensures forall i, j :: 0 <= i < j < |r| ==> r[i] < r[j]
    ensures forall i :: 0 <= i < |r| ==> r[i] < n
  {
    if n == 0 then [] else Outside(n - 1, chosen) + (if n - 1 !in chosen then [n - 1] else [])
  }

  /** `clusters[maxIdx] || []`: the largest cluster, the first on ties, or nothing */
  function DominantCluster(clusters: seq<seq<nat>>): (d: seq<nat>)
    ensures |clusters| == 0 ==> d == []
    ensures |clusters| > 0 ==> exists c ::
      && 0 <= c < |clusters| && d == clusters[c]
      && (forall e :: 0 <= e < |clusters| ==> |clusters[e]| <= |d|)
      && (forall e :: 0 <= e < c ==> |clusters[e]| < |d|)
  {
    if |clusters| == 0 then []
    else
      var lengths := Lengths(clusters);
      var c := FirstMaxIndex(lengths);
      assert forall e :: 0 <= e < |clusters| ==> lengths[e] <= lengths[c];
      clusters[c]
  }

  /** The selection of `filterByRouteConsistency`, given the clusters */
  function SelectRoute(segments: seq<Segment>, clusters: seq<seq<nat>>): RouteResult
    requires IndexLists(clusters, |segments|)
  {
    var dominant := DominantCluster(clusters);
    RouteResult(Pick(segments, dominant), Pick(segments, Outside(|segments|, dominant)), |clusters|)
  }

  /** When there is no cluster every segment is rejected. */
  lemma {:induction false} OutsideNothing(n: nat)
    ensures Outside(n, []) == seq(n, i requires 0 <= i < n => i)
  {
    if n > 0 {
      OutsideNothing(n - 1);
    }
  }

  /** Outside a label's index list are exactly the positions with another label. */
  lemma {:induction false} OutsideIsOtherLabels(labels: seq<int>, c: int, m: nat)
    requires m <= |labels|
    ensures Outside(m, IndicesOf(labels, c)) == IndicesNot(labels[..m], c)
  {
    if m > 0 {
      OutsideIsOtherLabels(labels, c, m - 1);
      assert labels[..m][..m - 1] == labels[..m - 1];
    }
  }

  /** Outside the whole index list of a label are exactly the positions with another label. */
  lemma OutsideIsIndicesNot(labels: seq<int>, c: int)
    ensures Outside(|labels|, IndicesOf(labels, c)) == IndicesNot(labels, c)
  {
    OutsideIsOtherLabels(labels, c, |labels|);
    assert labels[..|labels|] == labels;
  }

  /** The dominant cluster and the rejected segments split the input: every position is
      in exactly one of them. */
  lemma DominantRejectedPartition(labels: seq<int>, c: int)
    ensures var d := IndicesOf(labels, c);
      var r := Outside(|labels|, d);
      && |d| + |r| == |labels|
      && (forall p: nat :: p < |labels| ==> (p in d <==> p !in r))
  {
    OutsideIsIndicesNot(labels, c);
    IndicesSplit(labels, c);
  }

  /** Index lists of labels point inside the labels. */
  predicate IndexLists(clusters: seq<seq<nat>>, n: nat) {
    forall c, j :: 0 <= c < |clusters| && 0 <= j < |clusters[c]| ==> clusters[c][j] < n
  }

  lemma LabelClustersAreIndexLists(labels: seq<int>, clusters: seq<seq<nat>>)
    requires forall c :: 0 <= c < |clusters| ==> clusters[c] == IndicesOf(labels, c)
    ensures IndexLists(clusters, |labels|)
  {
    forall c, j | 0 <= c < |clusters| && 0 <= j < |clusters[c]| ensures clusters[c][j] < |labels| {
      assert clusters[c][j] == IndicesOf(labels, c)[j];
    }
  }

  /** On label clusters the dominant cluster is the index list of label `c`, the largest
      (the first on ties). */
  lemma DominantByLabels(labels: seq<int>, clusters: seq<seq<nat>>) returns (c: nat)
    requires |clusters| > 0
    requires forall c :: 0 <= c < |clusters| ==> clusters[c] == IndicesOf(labels, c)
    ensures c < |clusters|
    ensures DominantCluster(clusters) == IndicesOf(labels, c)
    ensures forall e :: 0 <= e < |clusters| ==> CountOf(labels, e) <= |DominantCluster(clusters)|
    ensures forall e :: 0 <= e < c ==> CountOf(labels, e) < |DominantCluster(clusters)|
  {
    var d := DominantCluster(clusters);
    c :| 0 <= c < |clusters| && d == clusters[c]
      && (forall e :: 0 <= e < |clusters| ==> |clusters[e]| <= |d|)
      && (forall e :: 0 <= e < c ==> |clusters[e]| < |d|);
    forall e | 0 <= e < |clusters| ensures CountOf(labels, e) == |clusters[e]| {
      IndicesOfCount(labels, e);
    }
  }

  /** Without clusters nothing is dominant and every segment is rejected. */
  lemma SelectRouteNoClusters(segments: seq<Segment>)
    ensures SelectRoute(segments, []).dominant == []
    ensures SelectRoute(segments, []).rejected == segments
  {
    OutsideNothing(|segments|);
    var r := SelectRoute(segments, []).rejected;
    forall j | 0 <= j < |segments| ensures r[j] == segments[j] {
      assert Outside(|segments|, [])[j] == j;
    }
  }

  /** Given clusters that are the index lists of the labels, the selection keeps the
      largest cluster (the first on ties) and rejects every position with another label. */
  lemma SelectRouteByLabels(segments: seq<Segment>, labels: seq<int>, clusters: seq<seq<nat>>)
    returns (c: nat)
    requires |labels| == |segments| && |clusters| > 0
    requires IndexLists(clusters, |segments|)
    requires forall c :: 0 <= c < |clusters| ==> clusters[c] == IndicesOf(labels, c)
    ensures c < |clusters|
    ensures SelectRoute(segments, clusters).dominant == Pick(segments, IndicesOf(labels, c))
    ensures SelectRoute(segments, clusters).rejected == Pick(segments, IndicesNot(labels, c))
    ensures forall e :: 0 <= e < |clusters| ==> CountOf(labels, e) <= |SelectRoute(segments, clusters).dominant|
    ensures forall e :: 0 <= e < c ==> CountOf(labels, e) < |SelectRoute(segments, clusters).dominant|
  {
    c := DominantByLabels(labels, clusters);
    OutsideIsIndicesNot(labels, c);
  }

  /** The dominant and the rejected segments together are as many as the input. */
  lemma SelectRouteSplits(segments: seq<Segment>, clusters: seq<seq<nat>>, labels: seq<int>)
    requires |labels| == |segments|
    requires IndexLists(clusters, |segments|)
    requires forall c :: 0 <= c < |clusters| ==> clusters[c] == IndicesOf(labels, c)
    ensures |SelectRoute(segments, clusters).dominant| + |SelectRoute(segments, clusters).rejected| == |segments|
  {
    if |clusters| == 0 {
      OutsideNothing(|segments|);
    } else {
      var c := DominantByLabels(labels, clusters);
      DominantRejectedPartition(labels, c);
    }
  }

  /** `filterByRouteConsistency(segments, { eps, minPts, bearingThreshold })`. `labels`
      (ghost) is the label array of the clustering, `seeds` (ghost) the core point each
      cluster was started from and `rank` (ghost) the order in which the labels were
      written. */
  method FilterByRouteConsistency(t: Trig, segments: seq<Segment>, opts: Options)
    returns (result: RouteResult, ghost labels: seq<int>, ghost seeds: seq<nat>, ghost rank: seq<nat>)
    requires Sound(t)
    ensures |labels| == |segments|
    ensures forall j :: 0 <= j < |labels| ==> labels[j] == Noise || 0 <= labels[j] < result.clusterCount
    ensures forall c :: 0 <= c < result.clusterCount ==> |IndicesOf(labels, c)| > 0
    // the labels are the DBSCAN labelling, which DbscanLabellingUnique shows is unique
    ensures DbscanLabelling(t, segments, labels, seeds, rank, opts)
    ensures |seeds| == result.clusterCount
    ensures forall j :: 0 <= j < |labels| && Isolated(t, segments, j, opts) ==> labels[j] == Noise
    ensures result.clusterCount == 0 ==> result.dominant == [] && result.rejected == segments
    ensures result.clusterCount > 0 ==> exists c ::
      && 0 <= c < result.clusterCount
      && result.dominant == Pick(segments, IndicesOf(labels, c))
      && result.rejected == Pick(segments, IndicesNot(labels, c))
      && (forall e :: 0 <= e < result.clusterCount ==> CountOf(labels, e) <= |result.dominant|)
      && (forall e :: 0 <= e < c ==> CountOf(labels, e) < |result.dominant|)
    ensures |result.dominant| + |result.rejected| == |segments|
  {
    var clusters;
    labels, clusters, seeds, rank := Dbscan(t, segments, opts);
    var dominant := DominantCluster(clusters);
    var rejected := Outside(|segments|, dominant);
    LabelClustersAreIndexLists(labels, clusters);
    result := RouteResult(Pick(segments, dominant), Pick(segments, rejected), |clusters|);
    assert result == SelectRoute(segments, clusters);
    if |clusters| == 0 {
      SelectRouteNoClusters(segments);
    } else {
      ghost var c := SelectRouteByLabels(segments, labels, clusters);
      assert 0 <= c < result.clusterCount
        && result.dominant == Pick(segments, IndicesOf(labels, c))
        && result.rejected == Pick(segments, IndicesNot(labels, c));
    }
    SelectRouteSplits(segments, clusters, labels);
  }
}
