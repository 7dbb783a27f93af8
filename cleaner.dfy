/** The Cleaner (public/pipeline/cleanGPS.js): rejects invalid records, counting one
    reason per record, and sorts the survivors by vehicle id, then time. */
module Cleaner {
  import opened JsValues
  import opened Sorting
  import opened Selection
  import Track

  /** A raw record as the ingestion layer hands it over. A timestamp that is missing, not
      a Date, or an invalid Date is `None`; coordinates and speed are JavaScript numbers. */
  datatype Record = Record(
    vehicleId: Option<string>,
    lat: JsNum,
    lon: JsNum,
    timestamp: Option<int>,
    speed: JsNum)

  datatype Reason = BadTimestamp | BadCoords | TooFast

  datatype Verdict = Keep | Reject(reason: Reason)

  /** The `rejected` counters */
  datatype Rejected = Rejected(speed: nat, coords: nat, timestamp: nat)

  datatype CleanResult = CleanResult(records: seq<Record>, rejected: Rejected)

  const NoRejects := Rejected(0, 0, 0)

  /** The three checks, in the order the loop makes them */
  function Classify(r: Record, maxSpeed: real): Verdict {
    if r.timestamp.None? then Reject(BadTimestamp)
    else if !r.lat.IsFinite() || !r.lon.IsFinite() then Reject(BadCoords)
    else if r.speed.GreaterThan(maxSpeed) then Reject(TooFast)
    else Keep
  }

  function Total(c: Rejected): nat { c.speed + c.coords + c.timestamp }

  /** Increments the one counter of a reason. */
  function Count(c: Rejected, reason: Reason): Rejected {
    match reason
    case BadTimestamp => c.(timestamp := c.timestamp + 1)
    case BadCoords => c.(coords := c.coords + 1)
    case TooFast => c.(speed := c.speed + 1)
  }

  lemma TallyTotal(c: Rejected, v: Verdict)
    ensures Total(Tally(c, v)) == Total(c) + (if v.Keep? then 0 else 1)
  { }

  /** The records the loop pushes onto `cleaned`, in input order */
  function Accepted(records: seq<Record>, maxSpeed: real): seq<Record> {
    if |records| == 0 then []
    else
      var r := records[|records| - 1];
      Accepted(records[..|records| - 1], maxSpeed) + (if Classify(r, maxSpeed) == Keep then [r] else [])
  }

  /** The counters after one more record with verdict `v` */
  function Tally(c: Rejected, v: Verdict): Rejected {
    match v
    case Keep => c
    case Reject(reason) => Count(c, reason)
  }

  /** The counters after the loop */
  function RejectCounts(records: seq<Record>, maxSpeed: real): Rejected {
    if |records| == 0 then NoRejects
    else Tally(RejectCounts(records[..|records| - 1], maxSpeed), Classify(records[|records| - 1], maxSpeed))
  }

  /** `localeCompare`: a consistent three-way comparison of strings, whose order the
      locale decides. */
  ghost predicate IsCollation(collate: (string, string) -> int) {
    && (forall a :: collate(a, a) == 0)
    && (forall a, b :: collate(a, b) < 0 <==> collate(b, a) > 0)
    && (forall a, b, c :: collate(a, b) <= 0 && collate(b, c) <= 0 ==> collate(a, c) <= 0)
  }

  /** `r.vehicleId || ''` */
  function SortKey(r: Record): string { OrDefault(r.vehicleId, "") }

  /** Only records with a timestamp reach the sort. */
  function Millis(r: Record): int {
    match r.timestamp
    case Some(ms) => ms
    case None => 0
  }

  /** The sort comparator: vehicle id by `localeCompare`, then `a.timestamp - b.timestamp` */
  predicate RecordLe(collate: (string, string) -> int, a: Record, b: Record) {
    var c := collate(SortKey(a), SortKey(b));
    c < 0 || (c == 0 && Millis(a) <= Millis(b))
  }

  function CleanOrder(collate: (string, string) -> int): (Record, Record) -> bool {
    (a: Record, b: Record) => RecordLe(collate, a, b)
  }

  /** The whole of `cleanGPS` as a function of its input */
  function Clean(records: seq<Record>, maxSpeed: real, collate: (string, string) -> int): CleanResult {
    CleanResult(SortSpec(CleanOrder(collate), Accepted(records, maxSpeed)), RejectCounts(records, maxSpeed))
  }

  /** Output size plus the three counters is the input size. */
  lemma {:induction false} CountsConserved(records: seq<Record>, maxSpeed: real)
    ensures |Accepted(records, maxSpeed)| + Total(RejectCounts(records, maxSpeed)) == |records|
  {
    if |records| > 0 {
      CountsConserved(records[..|records| - 1], maxSpeed);
      TallyTotal(RejectCounts(records[..|records| - 1], maxSpeed), Classify(records[|records| - 1], maxSpeed));
    }
  }

  /** A record whose timestamp is bad counts as a timestamp reject whatever else is wrong with
      it, and a record with bad coordinates counts as a coordinate reject whatever its speed. */
  lemma ReasonsCheckedInOrder(r: Record, maxSpeed: real)
    ensures RejectCounts([r], maxSpeed) ==
      if r.timestamp.None? then Rejected(0, 0, 1)
      else if !r.lat.IsFinite() || !r.lon.IsFinite() then Rejected(0, 1, 0)
      else if r.speed.GreaterThan(maxSpeed) then Rejected(1, 0, 0)
      else NoRejects
  {
    RejectCountsOne(r, maxSpeed);
  }

  lemma RejectCountsOne(r: Record, maxSpeed: real)
    ensures RejectCounts([r], maxSpeed) == Tally(NoRejects, Classify(r, maxSpeed))
  {
    assert [r][..0] == [];
  }

  /** A speed equal to the bound is kept, and so is a speed that is not a number. */
  lemma SpeedBoundInclusive(r: Record, maxSpeed: real)
    requires r.timestamp.Some? && r.lat.IsFinite() && r.lon.IsFinite()
    requires r.speed == Num(maxSpeed) || r.speed == NaN
    ensures Accepted([r], maxSpeed) == [r]
  {
    assert [r][..0] == [];
  }

  predicate Valid(r: Record, maxSpeed: real) {
    r.timestamp.Some? && r.lat.IsFinite() && r.lon.IsFinite() && !r.speed.GreaterThan(maxSpeed)
  }

  lemma {:induction false} AcceptedValid(records: seq<Record>, maxSpeed: real)
    ensures forall r :: r in Accepted(records, maxSpeed) ==> Valid(r, maxSpeed)
    ensures IsSubsequence(Accepted(records, maxSpeed), records)
  {
    if |records| > 0 {
      var pre, r := records[..|records| - 1], records[|records| - 1];
      AcceptedValid(pre, maxSpeed);
      assert records == pre + [r];
      if Classify(r, maxSpeed) == Keep {
        SubsequenceExtendBoth(Accepted(pre, maxSpeed), pre, r);
      } else {
        assert Accepted(records, maxSpeed) == Accepted(pre, maxSpeed) + [];
        assert Accepted(records, maxSpeed) == Accepted(pre, maxSpeed);
        SubsequenceExtendRight(Accepted(pre, maxSpeed), pre, r);
      }
    }
  }

  /** Records that are all valid are all accepted, with no rejects. */
  lemma {:induction false} AcceptedAllValid(records: seq<Record>, maxSpeed: real)
    requires forall r :: r in records ==> Valid(r, maxSpeed)
    ensures Accepted(records, maxSpeed) == records
    ensures RejectCounts(records, maxSpeed) == NoRejects
  {
    if |records| > 0 {
      var pre, r := records[..|records| - 1], records[|records| - 1];
      assert forall x :: x in pre ==> x in records;
      AcceptedAllValid(pre, maxSpeed);
      assert r in records;
      assert Classify(r, maxSpeed) == Keep;
      assert records == pre + [r];
    }
  }

  lemma CleanOrderIsTotalPreorder(collate: (string, string) -> int)
    requires IsCollation(collate)
    ensures TotalPreorder(CleanOrder(collate))
  {
    var le := CleanOrder(collate);
    forall x, y ensures le(x, y) || le(y, x) {
      var kx, ky := SortKey(x), SortKey(y);
      assert collate(kx, ky) < 0 <==> collate(ky, kx) > 0;
      assert collate(ky, kx) < 0 <==> collate(kx, ky) > 0;
    }
    forall x, y, z | le(x, y) && le(y, z) ensures le(x, z) {
      var kx, ky, kz := SortKey(x), SortKey(y), SortKey(z);
      assert collate(kx, ky) <= 0 && collate(ky, kz) <= 0;
      assert collate(kx, kz) <= 0;
      if collate(kx, kz) == 0 {
        // kz and kx compare equal, so kx <= ky <= kz = kx forces both steps to be ties
        assert collate(kz, kx) == 0;
        assert collate(kz, kx) <= 0 && collate(kx, ky) <= 0 ==> collate(kz, ky) <= 0;
        assert collate(ky, kx) <= 0 && collate(kx, kz) <= 0 ==> collate(ky, kz) <= 0;
        assert collate(ky, kz) <= 0 && collate(kz, kx) <= 0 ==> collate(ky, kx) <= 0;
        assert collate(kz, ky) <= 0 ==> !(collate(ky, kz) < 0);
        assert collate(ky, kx) <= 0 ==> !(collate(kx, ky) < 0);
      }
    }
  }

  /** The output is sorted: vehicle ids in collation order, and within one id by time. */
  lemma CleanSorted(records: seq<Record>, maxSpeed: real, collate: (string, string) -> int)
    requires IsCollation(collate)
    ensures var out := Clean(records, maxSpeed, collate).records;
      forall i :: 0 <= i < |out| - 1 ==>
        && collate(SortKey(out[i]), SortKey(out[i + 1])) <= 0
        && (SortKey(out[i]) == SortKey(out[i + 1]) ==>
              out[i].timestamp.Some? && out[i + 1].timestamp.Some? &&
              out[i].timestamp.value <= out[i + 1].timestamp.value)
  {
    var out := Clean(records, maxSpeed, collate).records;
    CleanOrderIsTotalPreorder(collate);
    SortSpecSorted(CleanOrder(collate), Accepted(records, maxSpeed));
    SortSpecPermutes(CleanOrder(collate), Accepted(records, maxSpeed));
    CleanPermutesAccepted(records, maxSpeed, collate);
    forall i | 0 <= i < |out| - 1
      ensures collate(SortKey(out[i]), SortKey(out[i + 1])) <= 0
      ensures SortKey(out[i]) == SortKey(out[i + 1]) ==>
                out[i].timestamp.Some? && out[i + 1].timestamp.Some? &&
                out[i].timestamp.value <= out[i + 1].timestamp.value
    {
      assert RecordLe(collate, out[i], out[i + 1]);
      assert out[i] in out && out[i + 1] in out;
    }
  }

  /** The output holds exactly the accepted records: nothing is added or duplicated. */
  lemma CleanPermutesAccepted(records: seq<Record>, maxSpeed: real, collate: (string, string) -> int)
    ensures multiset(Clean(records, maxSpeed, collate).records) == multiset(Accepted(records, maxSpeed))
    ensures multiset(Clean(records, maxSpeed, collate).records) <= multiset(records)
    ensures forall r :: r in Clean(records, maxSpeed, collate).records ==> Valid(r, maxSpeed)
  {
    SortSpecPermutes(CleanOrder(collate), Accepted(records, maxSpeed));
    AcceptedValid(records, maxSpeed);
    SubsequenceMultiset(Accepted(records, maxSpeed), records);
    forall r | r in Clean(records, maxSpeed, collate).records ensures Valid(r, maxSpeed) {
      assert r in multiset(Clean(records, maxSpeed, collate).records);
    }
  }

  lemma {:induction false} SubsequenceMultiset(a: seq<Record>, b: seq<Record>)
    requires IsSubsequence(a, b)
    ensures multiset(a) <= multiset(b)
    decreases |b|
  {
    if |a| > 0 {
      var a', b' := a[..|a| - 1], b[..|b| - 1];
      assert a == a' + [a[|a| - 1]];
      assert b == b' + [b[|b| - 1]];
      if a[|a| - 1] == b[|b| - 1] && IsSubsequence(a', b') {
        SubsequenceMultiset(a', b');
      } else {
        SubsequenceMultiset(a, b');
      }
    }
  }

  /** Cleaning the Cleaner's output rejects nothing and returns the same records. */
  lemma Idempotent(records: seq<Record>, maxSpeed: real, collate: (string, string) -> int)
    requires IsCollation(collate)
    ensures var once := Clean(records, maxSpeed, collate);
      Clean(once.records, maxSpeed, collate) == CleanResult(once.records, NoRejects)
  {
    var out := Clean(records, maxSpeed, collate).records;
    CleanPermutesAccepted(records, maxSpeed, collate);
    AcceptedAllValid(out, maxSpeed);
    CleanOrderIsTotalPreorder(collate);
    SortSpecSorted(CleanOrder(collate), Accepted(records, maxSpeed));
    SortSpecOfSorted(CleanOrder(collate), out);
  }

  /** One more record: accepted and counted by its verdict */
  lemma CleanStep(records: seq<Record>, i: nat, maxSpeed: real)
    requires i < |records|
    ensures var r, pre := records[i], records[..i];
      && Accepted(records[..i + 1], maxSpeed)
         == Accepted(pre, maxSpeed) + (if Classify(r, maxSpeed) == Keep then [r] else [])
      && RejectCounts(records[..i + 1], maxSpeed) == Tally(RejectCounts(pre, maxSpeed), Classify(r, maxSpeed))
  {
    assert records[..i + 1][..i] == records[..i];
  }

  /** `cleanGPS(records, { maxSpeed })` */
  method CleanGps(records: seq<Record>, maxSpeed: real, collate: (string, string) -> int)
    returns (result: CleanResult)
    ensures result == Clean(records, maxSpeed, collate)
    ensures |result.records| + Total(result.rejected) == |records|
    ensures forall r :: r in result.records ==> Valid(r, maxSpeed)
  {
    var rejected := NoRejects;
    var cleaned: seq<Record> := [];
    for i := 0 to |records|
      invariant cleaned == Accepted(records[..i], maxSpeed)
      invariant rejected == RejectCounts(records[..i], maxSpeed)
    {
      var r := records[i];
      CleanStep(records, i, maxSpeed);
      if r.timestamp.None? {
        assert Classify(r, maxSpeed) == Reject(BadTimestamp);
        rejected := rejected.(timestamp := rejected.timestamp + 1);
        continue;
      }
      if !r.lat.IsFinite() || !r.lon.IsFinite() {
        assert Classify(r, maxSpeed) == Reject(BadCoords);
        rejected := rejected.(coords := rejected.coords + 1);
        continue;
      }
      if r.speed.GreaterThan(maxSpeed) {
        assert Classify(r, maxSpeed) == Reject(TooFast);
        rejected := rejected.(speed := rejected.speed + 1);
        continue;
      }
      assert Classify(r, maxSpeed) == Keep;
      cleaned := cleaned + [r];
    }
    assert records[..|records|] == records;
    var a := new Record[|cleaned|](k requires 0 <= k < |cleaned| => cleaned[k]);
    assert a[..] == cleaned;
    InsertionSort(a, CleanOrder(collate));
    result := CleanResult(a[..], rejected);
    CountsConserved(records, maxSpeed);
    SortSpecPermutes(CleanOrder(collate), cleaned);
    CleanPermutesAccepted(records, maxSpeed, collate);
  }

  /** The point a valid record becomes for the later stages */
  function ToPoint(r: Record, maxSpeed: real): (p: Track.Point)
    requires Valid(r, maxSpeed)
    ensures p.vehicleId == r.vehicleId && p.timestamp == r.timestamp.value
    ensures Num(p.lat) == r.lat && Num(p.lon) == r.lon
  {
    Track.Point(r.vehicleId, r.lat.v, r.lon.v, r.timestamp.value)
  }

  /** The points the later stages receive for valid records, one per record, in order */
  function ToPoints(records: seq<Record>, maxSpeed: real): (ps: seq<Track.Point>)
    requires forall r :: r in records ==> Valid(r, maxSpeed)
    ensures |ps| == |records|
    ensures forall i :: 0 <= i < |ps| ==> ps[i] == ToPoint(records[i], maxSpeed)
  {
    seq(|records|, i requires 0 <= i < |records| => ToPoint(records[i], maxSpeed))
  }

  /** The hand-off to segmentation: every cleaned record becomes a point carrying its
      vehicle id, time and finite coordinates, and consecutive points of one vehicle are
      already in time order. */
  lemma HandOff(records: seq<Record>, maxSpeed: real, collate: (string, string) -> int)
    requires IsCollation(collate)
    ensures forall r :: r in Clean(records, maxSpeed, collate).records ==> Valid(r, maxSpeed)
    ensures var out := Clean(records, maxSpeed, collate).records;
      var ps := ToPoints(out, maxSpeed);
      && |ps| + Total(Clean(records, maxSpeed, collate).rejected) == |records|
      && (forall i :: 0 <= i < |ps| - 1 && ps[i].vehicleId == ps[i + 1].vehicleId ==>
            ps[i].timestamp <= ps[i + 1].timestamp)
  {
    var out := Clean(records, maxSpeed, collate).records;
    CleanPermutesAccepted(records, maxSpeed, collate);
    CleanSorted(records, maxSpeed, collate);
    CountsConserved(records, maxSpeed);
    assert |multiset(out)| == |multiset(Accepted(records, maxSpeed))|;
    var ps := ToPoints(out, maxSpeed);
    forall i | 0 <= i < |ps| - 1 && ps[i].vehicleId == ps[i + 1].vehicleId
      ensures ps[i].timestamp <= ps[i + 1].timestamp
    {
      assert SortKey(out[i]) == SortKey(out[i + 1]);
    }
  }
}
