/** Small list operations the stages share: the "largest wins, first on ties" choice,
    the index lists of a labelling, concatenation of pieces, and subsequences. */
module Selection {

  /** The first index holding the largest count: `counts.indexOf(Math.max(...counts))`,
      and equally `reduce((best, x) => x > best ? x : best)` started at the first element. */
  function FirstMaxIndex(counts: seq<int>): (r: nat)
    requires |counts| > 0
    ensures r < |counts|
    ensures forall j :: 0 <= j < |counts| ==> counts[j] <= counts[r]
    ensures forall j :: 0 <= j < r ==> counts[j] < counts[r]
  {
    if |counts| == 1 then 0
    else
      var best := FirstMaxIndex(counts[..|counts| - 1]);
      if counts[|counts| - 1] > counts[best] then |counts| - 1 else best
  }

  /** The first index holding the smallest value: `dists.indexOf(Math.min(...dists))` */
  function FirstMinIndex(xs: seq<real>): (r: nat)
    requires |xs| > 0
    ensures r < |xs|
    ensures forall j :: 0 <= j < |xs| ==> xs[r] <= xs[j]
    ensures forall j :: 0 <= j < r ==> xs[r] < xs[j]
  {
    if |xs| == 1 then 0
    else
      var best := FirstMinIndex(xs[..|xs| - 1]);
      if xs[|xs| - 1] < xs[best] then |xs| - 1 else best
  }

  /** The positions, in ascending order, whose label is `c`:
      `labels.map((l, idx) => l === c ? idx : -1).filter(x => x >= 0)` */
  function IndicesOf(labels: seq<int>, c: int): (r: seq<nat>)
    ensures forall p :: p in r <==> 0 <= p < |labels| && labels[p] == c
    ensures forall i, j :: 0 <= i < j < |r| ==> r[i] < r[j]
    ensures forall i :: 0 <= i < |r| ==> r[i] < |labels|
  {
    if |labels| == 0 then []
    else
      var earlier := IndicesOf(labels[..|labels| - 1], c);
      if labels[|labels| - 1] == c then earlier + [|labels| - 1] else earlier
  }

  /** The positions, in ascending order, whose label is not `c` */
  function IndicesNot(labels: seq<int>, c: int): (r: seq<nat>)
    ensures forall p :: p in r <==> 0 <= p < |labels| && labels[p] != c
    ensures forall i, j :: 0 <= i < j < |r| ==> r[i] < r[j]
    ensures forall i :: 0 <= i < |r| ==> r[i] < |labels|
  {
    if |labels| == 0 then []
    else
      var earlier := IndicesNot(labels[..|labels| - 1], c);
      if labels[|labels| - 1] != c then earlier + [|labels| - 1] else earlier
  }

  /** A label splits the positions into those that carry it and those that do not. */
  lemma {:induction false} IndicesSplit(labels: seq<int>, c: int)
    ensures |IndicesOf(labels, c)| + |IndicesNot(labels, c)| == |labels|
  {
    if |labels| > 0 {
      IndicesSplit(labels[..|labels| - 1], c);
    }
  }

  /** The number of positions labelled `c` */
  function CountOf(labels: seq<int>, c: int): nat {
    if |labels| == 0 then 0
    else CountOf(labels[..|labels| - 1], c) + (if labels[|labels| - 1] == c then 1 else 0)
  }

  lemma {:induction false} IndicesOfCount(labels: seq<int>, c: int)
    ensures |IndicesOf(labels, c)| == CountOf(labels, c)
  {
    if |labels| > 0 {
      IndicesOfCount(labels[..|labels| - 1], c);
    }
  }

  lemma {:induction false} CountOfBound(labels: seq<int>, c: int)
    ensures CountOf(labels, c) <= |labels|
  {
    if |labels| > 0 {
      CountOfBound(labels[..|labels| - 1], c);
    }
  }

  /** The sizes of the classes 0 .. k-1 added up */
  function SumCounts(labels: seq<int>, k: nat): nat {
    if k == 0 then 0 else SumCounts(labels, k - 1) + CountOf(labels, k - 1)
  }

  lemma {:induction false} SumCountsStep(labels: seq<int>, l: int, k: nat)
    ensures SumCounts(labels + [l], k) == SumCounts(labels, k) + (if 0 <= l < k then 1 else 0)
  {
    assert (labels + [l])[..|labels|] == labels;
    if k > 0 {
      SumCountsStep(labels, l, k - 1);
    }
  }

  lemma {:induction false} SumCountsOfEmpty(labels: seq<int>, k: nat)
    requires |labels| == 0
    ensures SumCounts(labels, k) == 0
  {
    if k > 0 {
      SumCountsOfEmpty(labels, k - 1);
    }
  }

  /** When every label is one of 0 .. k-1, the classes together hold every position. */
  lemma {:induction false} SumCountsTotal(labels: seq<int>, k: nat)
    requires forall i :: 0 <= i < |labels| ==> 0 <= labels[i] < k
    ensures SumCounts(labels, k) == |labels|
  {
    if |labels| > 0 {
      var pre := labels[..|labels| - 1];
      SumCountsTotal(pre, k);
      var l := labels[|labels| - 1];
      SumCountsStep(pre, l, k);
      assert pre + [l] == labels;
      assert 0 <= l < k;
      assert SumCounts(labels, k) == SumCounts(pre, k) + 1;
    } else {
      SumCountsOfEmpty(labels, k);
    }
  }

  lemma {:induction false} SumCountsBound(labels: seq<int>, k: nat, m: int)
    requires forall c :: 0 <= c < k ==> CountOf(labels, c) <= m
    ensures SumCounts(labels, k) <= k * m
  {
    if k > 0 {
      SumCountsBound(labels, k - 1, m);
      assert (k - 1) * m + m == k * m;
    }
  }

  /** Pigeonhole: when every label is one of 0 .. k-1, the largest class holds at least a
      k-th of the positions. */
  lemma Pigeonhole(labels: seq<int>, k: nat, m: int)
    requires forall i :: 0 <= i < |labels| ==> 0 <= labels[i] < k
    requires forall c :: 0 <= c < k ==> CountOf(labels, c) <= m
    ensures |labels| <= k * m
  {
    SumCountsTotal(labels, k);
    SumCountsBound(labels, k, m);
  }

  /** Relabelling one position changes the counts of its old and its new label by one. */
  lemma {:induction false} CountOfUpdate(labels: seq<int>, k: nat, v: int, c: int)
    requires k < |labels|
    ensures CountOf(labels[k := v], c)
         == CountOf(labels, c) - (if labels[k] == c then 1 else 0) + (if v == c then 1 else 0)
  {
    var n := |labels|;
    if k < n - 1 {
      CountOfUpdate(labels[..n - 1], k, v, c);
      assert labels[k := v][..n - 1] == labels[..n - 1][k := v];
    } else {
      assert labels[k := v][..n - 1] == labels[..n - 1];
    }
  }

  /** The items at the given positions: `indices.map(i => items[i])` */
  function Pick<T>(items: seq<T>, indices: seq<nat>): (r: seq<T>)
    requires forall j :: 0 <= j < |indices| ==> indices[j] < |items|
    ensures |r| == |indices|
    ensures forall j :: 0 <= j < |r| ==> r[j] == items[indices[j]]
  {
    seq(|indices|, j requires 0 <= j < |indices| => items[indices[j]])
  }

  /** The pieces written one after the other */
  function Flatten<T>(pieces: seq<seq<T>>): seq<T> {
    if |pieces| == 0 then []
    else Flatten(pieces[..|pieces| - 1]) + pieces[|pieces| - 1]
  }

  lemma {:induction false} FlattenAppend<T>(pieces: seq<seq<T>>, more: seq<seq<T>>)
    ensures Flatten(pieces + more) == Flatten(pieces) + Flatten(more)
  {
    if |more| > 0 {
      var m := |more| - 1;
      FlattenAppend(pieces, more[..m]);
      assert (pieces + more)[..|pieces| + m] == pieces + more[..m];
    } else {
      assert pieces + more == pieces;
    }
  }

  /** Every element of every piece is in the concatenation. */
  lemma {:induction false} FlattenMembers<T>(pieces: seq<seq<T>>)
    ensures forall k, x :: 0 <= k < |pieces| && x in pieces[k] ==> x in Flatten(pieces)
  {
    if |pieces| > 0 {
      FlattenMembers(pieces[..|pieces| - 1]);
      forall k, x | 0 <= k < |pieces| - 1 && x in pieces[k] ensures x in Flatten(pieces) {
        assert pieces[..|pieces| - 1][k] == pieces[k];
      }
    }
  }

  /** `a` is `b` with some elements left out. */
  predicate IsSubsequence<T(==)>(a: seq<T>, b: seq<T>)
    decreases |b|
  {
    if |a| == 0 then true
    else if |b| == 0 then false
    else
      || (a[|a| - 1] == b[|b| - 1] && IsSubsequence(a[..|a| - 1], b[..|b| - 1]))
      || IsSubsequence(a, b[..|b| - 1])
  }

  lemma SubsequenceExtendBoth<T>(a: seq<T>, b: seq<T>, x: T)
    requires IsSubsequence(a, b)
    ensures IsSubsequence(a + [x], b + [x])
  {
    assert (a + [x])[..|a|] == a;
    assert (b + [x])[..|b|] == b;
  }

  lemma SubsequenceExtendRight<T>(a: seq<T>, b: seq<T>, y: T)
    requires IsSubsequence(a, b)
    ensures IsSubsequence(a, b + [y])
  {
    assert (b + [y])[..|b|] == b;
  }

  /** A subsequence is no longer than the list it is taken from. */
  lemma {:induction false} SubsequenceLength<T>(a: seq<T>, b: seq<T>)
    requires IsSubsequence(a, b)
    ensures |a| <= |b|
    decreases |b|
  {
    if |a| > 0 {
      if a[|a| - 1] == b[|b| - 1] && IsSubsequence(a[..|a| - 1], b[..|b| - 1]) {
        SubsequenceLength(a[..|a| - 1], b[..|b| - 1]);
      } else {
        SubsequenceLength(a, b[..|b| - 1]);
      }
    }
  }

  lemma {:induction false} SubsequenceReflexive<T>(s: seq<T>)
    ensures IsSubsequence(s, s)
  {
    if |s| > 0 {
      SubsequenceReflexive(s[..|s| - 1]);
      SubsequenceExtendBoth(s[..|s| - 1], s[..|s| - 1], s[|s| - 1]);
      assert s[..|s| - 1] + [s[|s| - 1]] == s;
    }
  }
  /** A subsequence of a prefix is a subsequence of the whole list. */
  lemma {:induction false} SubsequenceOfPrefix<T>(a: seq<T>, b: seq<T>, m: nat)
    requires m <= |b| && IsSubsequence(a, b[..m])
    ensures IsSubsequence(a, b)
    decreases |b| - m
  {
    if m < |b| {
      SubsequenceExtendRight(a, b[..m], b[m]);
      assert b[..m] + [b[m]] == b[..m + 1];
      SubsequenceOfPrefix(a, b, m + 1);
    } else {
      assert b[..m] == b;
    }
  }

  /** Picking one more position appends its item. */
  lemma PickSnoc<T>(items: seq<T>, indices: seq<nat>)
    requires |indices| > 0
    requires forall j :: 0 <= j < |indices| ==> indices[j] < |items|
    ensures Pick(items, indices) == Pick(items, indices[..|indices| - 1]) + [items[indices[|indices| - 1]]]
  {
  }

  /** Picking the positions and then one more */
  lemma PickAppend<T>(items: seq<T>, indices: seq<nat>, k: nat)
    requires forall j :: 0 <= j < |indices| ==> indices[j] < |items|
    requires k < |items|
    ensures Pick(items, indices + [k]) == Pick(items, indices) + [items[k]]
  {
    PickSnoc(items, indices + [k]);
    assert (indices + [k])[..|indices|] == indices;
  }

  /** Positions below `k` pick the same items from the first `k` items. */
  lemma PickFromPrefix<T>(items: seq<T>, k: nat, indices: seq<nat>)
    requires k <= |items|
    requires forall j :: 0 <= j < |indices| ==> indices[j] < k
    ensures Pick(items[..k], indices) == Pick(items, indices)
  {
  }

  /** The items at strictly ascending positions are a subsequence of the items. */
  lemma {:induction false} PickAscendingIsSubsequence<T>(items: seq<T>, indices: seq<nat>)
    requires forall j :: 0 <= j < |indices| ==> indices[j] < |items|
    requires forall i, j :: 0 <= i < j < |indices| ==> indices[i] < indices[j]
    ensures IsSubsequence(Pick(items, indices), items)
    decreases |indices|
  {
    if |indices| > 0 {
      var m := |indices| - 1;
      var k := indices[m];
      var front := indices[..m];
      PickAscendingIsSubsequence(items[..k], front);
      PickFromPrefix(items, k, front);
      PickSnoc(items, indices);
      SubsequenceExtendBoth(Pick(items, front), items[..k], items[k]);
      assert items[..k] + [items[k]] == items[..k + 1];
      SubsequenceOfPrefix(Pick(items, indices), items, k + 1);
    }
  }
}
