/** `Array.prototype.sort` with a comparator, as the pipeline uses it: a stable sort in
    place. `le(x, y)` stands for `compare(x, y) <= 0`, "x may stay before y". The result of
    a stable sort is determined by the comparator, so it is specified by a functional
    insertion sort, `SortSpec`; the in-place method is proved to compute it. */
module Sorting {

  /** What a consistent comparator gives: a total preorder. */
  ghost predicate TotalPreorder<T(!new)>(le: (T, T) -> bool) {
    && (forall x, y :: le(x, y) || le(y, x))
    && (forall x, y, z :: le(x, y) && le(y, z) ==> le(x, z))
  }

  ghost predicate Sorted<T>(le: (T, T) -> bool, s: seq<T>) {
    forall i, j :: 0 <= i < j < |s| ==> le(s[i], s[j])
  }

  /** Inserts `x` into `t` after the last element that may stay before it. */
  function Insert<T>(le: (T, T) -> bool, t: seq<T>, x: T): (r: seq<T>)
    ensures |r| == |t| + 1
  {
    if |t| == 0 then [x]
    else if le(t[|t| - 1], x) then t + [x]
    else Insert(le, t[..|t| - 1], x) + [t[|t| - 1]]
  }

  lemma {:induction false} InsertPermutes<T>(le: (T, T) -> bool, t: seq<T>, x: T)
    ensures multiset(Insert(le, t, x)) == multiset(t) + multiset{x}
  {
    if |t| > 0 && !le(t[|t| - 1], x) {
      InsertPermutes(le, t[..|t| - 1], x);
      assert t == t[..|t| - 1] + [t[|t| - 1]];
    }
  }

  /** The stable sort of `s` */
  function SortSpec<T>(le: (T, T) -> bool, s: seq<T>): seq<T>
  {
    if |s| == 0 then []
    else Insert(le, SortSpec(le, s[..|s| - 1]), s[|s| - 1])
  }

  /** The sort is a permutation. */
  lemma {:induction false} SortSpecPermutes<T>(le: (T, T) -> bool, s: seq<T>)
    ensures multiset(SortSpec(le, s)) == multiset(s)
    ensures |SortSpec(le, s)| == |s|
  {
    if |s| > 0 {
      var p, x := s[..|s| - 1], s[|s| - 1];
      SortSpecPermutes(le, p);
      InsertPermutes(le, SortSpec(le, p), x);
      assert s == p + [x];
      assert multiset(s) == multiset(p) + multiset{x};
    }
  }

  lemma {:induction false} InsertSorted<T(!new)>(le: (T, T) -> bool, t: seq<T>, x: T)
    requires TotalPreorder(le)
    requires Sorted(le, t)
    ensures Sorted(le, Insert(le, t, x))
  {
    if |t| > 0 && !le(t[|t| - 1], x) {
      var p := t[..|t| - 1];
      var e := t[|t| - 1];
      InsertSorted(le, p, x);
      InsertPermutes(le, p, x);
      var r := Insert(le, p, x);
      forall y | y in r ensures le(y, e) {
        assert y in multiset(r);
        assert y in multiset(p) || y == x;
        if y != x {
          var k :| 0 <= k < |p| && p[k] == y;
          assert le(t[k], t[|t| - 1]);
        }
      }
      forall i, j | 0 <= i < j < |r + [e]| ensures le((r + [e])[i], (r + [e])[j]) {
        if j == |r| {
          assert (r + [e])[i] in r;
        } else {
          assert (r + [e])[i] == r[i] && (r + [e])[j] == r[j];
        }
      }
    }
  }

  /** With a consistent comparator, the sort's result is sorted. */
  lemma {:induction false} SortSpecSorted<T(!new)>(le: (T, T) -> bool, s: seq<T>)
    requires TotalPreorder(le)
    ensures Sorted(le, SortSpec(le, s))
  {
    if |s| > 0 {
      SortSpecSorted(le, s[..|s| - 1]);
      InsertSorted(le, SortSpec(le, s[..|s| - 1]), s[|s| - 1]);
    }
  }

  /** Sorting a sorted list changes nothing (no comparator property is needed: a stable
      sort moves an element only past elements that must follow it). */
  lemma {:induction false} SortSpecOfSorted<T>(le: (T, T) -> bool, s: seq<T>)
    requires Sorted(le, s)
    ensures SortSpec(le, s) == s
  {
    if |s| > 0 {
      var p := s[..|s| - 1];
      assert Sorted(le, p) by {
        forall i, j | 0 <= i < j < |p| ensures le(p[i], p[j]) {
          assert p[i] == s[i] && p[j] == s[j];
        }
      }
      SortSpecOfSorted(le, p);
      if |p| > 0 {
        assert le(p[|p| - 1], s[|s| - 1]);
      }
      assert p + [s[|s| - 1]] == s;
    }
  }

  /** The in-place sort: insertion sort by adjacent swaps. */
  method InsertionSort<T>(a: array<T>, le: (T, T) -> bool)
    modifies a
    ensures a[..] == SortSpec(le, old(a[..]))
  {
    ghost var original := a[..];
    var i := 0;
    while i < a.Length
      invariant 0 <= i <= a.Length
      invariant a[..i] == SortSpec(le, original[..i])
      invariant a[i..] == original[i..]
    {
      SiftDown(a, i, le);
      assert original[..i + 1][..i] == original[..i];
      i := i + 1;
    }
    assert original[..a.Length] == original;
  }

  /** `x` moves past a last element that may not stay before it. */
  lemma InsertPastLarger<T>(le: (T, T) -> bool, front: seq<T>, y: T, x: T, mid: seq<T>)
    requires !le(y, x)
    ensures Insert(le, front + [y], x) + mid == Insert(le, front, x) + ([y] + mid)
  {
    assert (front + [y])[..|front|] == front;
  }

  /** Swapping `y` and `x` where they meet */
  lemma SwapAt<T>(front: seq<T>, y: T, x: T, mid: seq<T>, tail: seq<T>)
    ensures (front + [y] + [x] + mid + tail)[|front| := x][|front| + 1 := y]
         == (front + [x] + ([y] + mid) + tail)
  {
  }

  /** One step of the insertion sort: moves `a[i]` left into the prefix `a[..i]`. */
  method SiftDown<T>(a: array<T>, i: nat, le: (T, T) -> bool)
    requires i < a.Length
    modifies a
    ensures a[..i + 1] == Insert(le, old(a[..i]), old(a[i]))
    ensures a[i + 1..] == old(a[i + 1..])
  {
    ghost var done, tail := a[..i], a[i + 1..];
    var x := a[i];
    var j := i;
    ghost var mid: seq<T> := [];
    assert done[..j] == done;
    assert a[..] == done[..j] + [x] + mid + tail;
    while j > 0 && !le(a[j - 1], x)
      invariant 0 <= j <= i
      invariant a[..] == done[..j] + [x] + mid + tail
      invariant Insert(le, done, x) == Insert(le, done[..j], x) + mid
    {
      ghost var front, y := done[..j - 1], done[j - 1];
      assert a[j - 1] == y;
      assert done[..j] == front + [y];
      InsertPastLarger(le, front, y, x, mid);
      ghost var before := a[..];
      a[j - 1], a[j] := a[j], a[j - 1];
      assert a[..] == before[j - 1 := x][j := y];
      SwapAt(front, y, x, mid, tail);
      mid := [y] + mid;
      j := j - 1;
    }
    assert Insert(le, done[..j], x) == done[..j] + [x];
    assert a[..i + 1] == (done[..j] + [x] + mid + tail)[..i + 1];
  }

}
