// The requester's dashboard: four stat cards, a bar chart of this year's
// requests per month and a pie of statuses, all computed on the client
// from the caller's own requests (newest first, as the server sends them).
module UserDashboardPage {
  import opened Common
  import opened Calendar
  import opened Tally
  import opened RequestSchema

  /** The cards and the recent-requests table. */
  datatype Summary = Summary(total: nat, pending: nat, fulfilled: nat, livesImpacted: nat, recent: seq<BloodRequest>)

  function Dashboard(data: seq<BloodRequest>): (s: Summary)
    ensures s.total == |data|
    ensures s.pending == Count(data, StatusIs(Pending)) && s.fulfilled == Count(data, StatusIs(Fulfilled))
    ensures s.livesImpacted == s.fulfilled
    ensures s.recent == data[..if |data| < 5 then |data| else 5]
  {
    var fulfilled := Count(data, StatusIs(Fulfilled));
    Summary(|data|, Count(data, StatusIs(Pending)), fulfilled, fulfilled, Take(data, 5))
  }

  /** Pending and Fulfilled never overlap, so their cards add up to at most the total. */
  lemma CardsWithinTotal(data: seq<BloodRequest>)
    ensures Dashboard(data).pending + Dashboard(data).fulfilled <= Dashboard(data).total
  {
    var either := (r: BloodRequest) => LoadedStatus(r) == Pending || LoadedStatus(r) == Fulfilled;
    CountDisjoint(data, StatusIs(Pending), StatusIs(Fulfilled), either);
  }

  // ---------------------------------------------------------------------
  // Requests per month of the current year
  // ---------------------------------------------------------------------

  /** `months[d.getMonth()]` for the creation date of a request. */
  function MonthName(t: int): string
  {
    MonthNames[DateOf(t).month - 1]
  }

  /** The month name of a request created in year `y`; none for other years. */
  function CreatedMonth(y: int): BloodRequest -> Option<string>
  {
    (r: BloodRequest) => if DateOf(r.createdAt).year == y then Some(MonthName(r.createdAt)) else None
  }

  /** The keys of the month counter in the order they were first set. */
  function ActiveMonths(data: seq<BloodRequest>, y: int): seq<string>
  {
    Distinct(Keyed(data, CreatedMonth(y)))
  }

  /**
   * The `forEach` that counts this year's requests under their month name,
   * then `Object.keys(monthCounts)` in insertion order, or the single
   * 'No Data' bar when no request was created this year.
   */
  method MonthActivity(data: seq<BloodRequest>, now: int) returns (chart: seq<Bucket>)
    ensures var y := DateOf(now).year;
      var names := ActiveMonths(data, y);
      if names == [] then chart == [Bucket("No Data", 0)]
      else |chart| == |names|
           && forall k :: 0 <= k < |chart| ==> chart[k] == Bucket(names[k], Count(data, KeyIs(CreatedMonth(y), names[k])))
  {
    var currentYear := DateOf(now).year;
    var keys, monthCounts := CountByKey(data, CreatedMonth(currentYear));
    if |keys| == 0 {
      chart := [Bucket("No Data", 0)];
    } else {
      chart := seq(|keys|, k requires 0 <= k < |keys| => Bucket(keys[k], Get(monthCounts, keys[k])));
    }
  }

  /**
   * The bars are exactly the months of this year that have a request, each
   * a month name.
   */
  lemma ActiveMonthsExact(data: seq<BloodRequest>, y: int, name: string)
    ensures name in ActiveMonths(data, y) <==> Count(data, KeyIs(CreatedMonth(y), name)) > 0
    ensures name in ActiveMonths(data, y) ==> name in MonthNames
  {
    DistinctMember(Keyed(data, CreatedMonth(y)), name);
    KeyedMember(data, CreatedMonth(y), name);
    if name in ActiveMonths(data, y) {
      var k :| 0 <= k < |data| && KeyIs(CreatedMonth(y), name)(data[k]);
      assert name == MonthNames[DateOf(data[k].createdAt).month - 1];
    }
  }

  /** No month gets two bars. */
  lemma ActiveMonthsDistinct(data: seq<BloodRequest>, y: int)
    ensures forall i, j :: 0 <= i < j < |ActiveMonths(data, y)| ==> ActiveMonths(data, y)[i] != ActiveMonths(data, y)[j]
  {
    DistinctUnique(Keyed(data, CreatedMonth(y)));
  }

  // ---------------------------------------------------------------------
  // Status distribution
  // ---------------------------------------------------------------------

  /** The keys of `statusCounts`, in declaration order. */
  const PieStatuses: seq<Status> := [Pending, Fulfilled, Rejected, Cancelled]

  /** The four counters before zero entries are dropped. */
  function StatusSeries(data: seq<BloodRequest>): (r: seq<Bucket>)
    ensures |r| == 4
    ensures forall k :: 0 <= k < 4 ==> r[k] == Bucket(StatusName(PieStatuses[k]), Count(data, StatusIs(PieStatuses[k])))
  {
    seq(4, k requires 0 <= k < 4 => Bucket(StatusName(PieStatuses[k]), Count(data, StatusIs(PieStatuses[k]))))
  }

  /** `.filter(key => statusCounts[key] > 0)` */
  function NonZero(s: seq<Bucket>): seq<Bucket>
  {
    if |s| == 0 then []
    else
      NonZero(s[..|s| - 1]) + (if s[|s| - 1].count > 0 then [s[|s| - 1]] else [])
  }

  lemma {:induction false} NonZeroMember(s: seq<Bucket>, b: Bucket)
    ensures b in NonZero(s) <==> b in s && b.count > 0
  {
    if |s| > 0 {
      NonZeroMember(s[..|s| - 1], b);
      assert b in s <==> b in s[..|s| - 1] || b == s[|s| - 1];
    }
  }

  /**
   * The second `forEach`: a counter per key of `statusCounts`, bumped only
   * when the request's status is one of them; then the non-zero entries.
   */
  method StatusDistribution(data: seq<BloodRequest>) returns (pie: seq<Bucket>)
    ensures pie == NonZero(StatusSeries(data))
  {
    var statusCounts: map<Status, nat> := map[Pending := 0, Fulfilled := 0, Rejected := 0, Cancelled := 0];
    for i := 0 to |data|
      invariant Tallied(statusCounts, data[..i])
    {
      statusCounts := BumpStatus(data, i, statusCounts);
    }
    assert data[..|data|] == data;
    var series := seq(4, k requires 0 <= k < 4 => Bucket(StatusName(PieStatuses[k]), statusCounts[PieStatuses[k]]));
    SeriesOfTally(data, statusCounts, series);
    pie := NonZero(series);
  }

  /** `statusCounts` holds the four pie keys, each with its count over `prefix`. */
  predicate Tallied(counts: map<Status, nat>, prefix: seq<BloodRequest>)
  {
    (forall s :: s in counts <==> s != Scheduled)
    && (forall s :: s in counts ==> counts[s] == Count(prefix, StatusIs(s)))
  }

  /** One iteration of the `forEach`: the request's status is bumped when it is a key. */
  method BumpStatus(data: seq<BloodRequest>, i: nat, counts: map<Status, nat>) returns (next: map<Status, nat>)
    requires i < |data| && Tallied(counts, data[..i])
    ensures Tallied(next, data[..i + 1])
  {
    assert data[..i + 1] == data[..i] + [data[i]];
    forall s {
      CountAppendOne(data[..i], data[i], StatusIs(s));
    }
    var s := LoadedStatus(data[i]);
    next := counts;
    if s in counts {
      next := counts[s := counts[s] + 1];
    }
  }

  lemma SeriesOfTally(data: seq<BloodRequest>, counts: map<Status, nat>, series: seq<Bucket>)
    requires Tallied(counts, data)
    requires |series| == 4
    requires forall k :: 0 <= k < 4 ==> (PieStatuses[k] in counts
      && series[k] == Bucket(StatusName(PieStatuses[k]), counts[PieStatuses[k]]))
    ensures series == StatusSeries(data)
  {
  }

  lemma {:induction false} NonZeroTotal(s: seq<Bucket>)
    ensures BucketTotal(NonZero(s)) == BucketTotal(s)
  {
    if |s| > 0 {
      NonZeroTotal(s[..|s| - 1]);
      var t := NonZero(s[..|s| - 1]);
      if s[|s| - 1].count > 0 {
        assert (t + [s[|s| - 1]])[..|t|] == t;
      } else {
        assert t + [] == t;
      }
    }
  }

  /** Every request has exactly one status. */
  lemma {:induction false} StatusesPartition(data: seq<BloodRequest>)
    ensures Count(data, StatusIs(Pending)) + Count(data, StatusIs(Fulfilled)) + Count(data, StatusIs(Rejected))
            + Count(data, StatusIs(Cancelled)) + Count(data, StatusIs(Scheduled)) == |data|
  {
    if |data| > 0 {
      StatusesPartition(data[1..]);
    }
  }

  lemma BucketTotalFour(s: seq<Bucket>)
    requires |s| == 4
    ensures BucketTotal(s) == s[0].count + s[1].count + s[2].count + s[3].count
  {
    assert s[..1][..0] == [] && s[..2][..1] == s[..1] && s[..3][..2] == s[..2];
    assert BucketTotal(s[..1]) == s[0].count;
    assert BucketTotal(s[..2]) == BucketTotal(s[..1]) + s[1].count;
    assert BucketTotal(s[..3]) == BucketTotal(s[..2]) + s[2].count;
    assert BucketTotal(s) == BucketTotal(s[..3]) + s[3].count;
  }

  /** The pie covers every request except the Scheduled ones. */
  lemma PieLeavesOutScheduled(data: seq<BloodRequest>)
    ensures BucketTotal(NonZero(StatusSeries(data))) == |data| - Count(data, StatusIs(Scheduled))
  {
    var s := StatusSeries(data);
    NonZeroTotal(s);
    BucketTotalFour(s);
    StatusesPartition(data);
  }
}
