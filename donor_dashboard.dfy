// The donor's dashboard: the four stat cards (donations, lives saved, last
// donation, next eligible date) and the twelve-month donation chart, built
// from the donor's profile and history. The next eligible date counts in
// calendar months, where the booking dialog counts in days.
module DonorDashboardPage {
  import opened Common
  import opened Calendar
  import opened Tally
  import opened RequestSchema
  import DonateNowPage

  /** `h.status === 'Fulfilled'` on a history entry as the server sends it. */
  function IsDonation(r: BloodRequest): bool
  {
    LoadedStatus(r) == Fulfilled
  }

  /** `months[new Date(item.updatedAt).getMonth()]`, as an index. */
  function UpdatedMonth(r: BloodRequest): (m: int)
    ensures 0 <= m < 12
  {
    DateOf(r.updatedAt).month - 1
  }

  /** The wait in calendar months: four for female donors, three otherwise. */
  function GapMonths(g: Gender): int
  {
    if g == Female then 4 else 3
  }

  /** `next.setMonth(next.getMonth() + gapMonths)` on a copy of the last donation date. */
  function NextEligible(last: int, g: Gender): int
  {
    AddMonths(last, GapMonths(g))
  }

  /**
   * The cards. `None` for the last donation stands for 'Never' and for the
   * next date for 'Available Now'; dates are shown as calendar dates.
   */
  datatype Stats = Stats(totalDonations: nat, livesSaved: nat, lastDonation: Option<Date>, nextEligible: Option<Date>)

  function DashboardStats(info: DonateNowPage.DonorInfo, history: seq<BloodRequest>, now: int): (s: Stats)
    ensures s.totalDonations == Count(history, IsDonation) && s.livesSaved == 3 * s.totalDonations
    ensures info.lastDonationDate.None? ==> s.lastDonation.None? && s.nextEligible.None?
    ensures info.lastDonationDate.Some? ==>
      (s.lastDonation == Some(DateOf(info.lastDonationDate.value))
       && (s.nextEligible.Some? <==> NextEligible(info.lastDonationDate.value, info.gender) > now))
  {
    var total := Count(history, IsDonation);
    match info.lastDonationDate
    case None => Stats(total, total * 3, None, None)
    case Some(last) =>
      var next := NextEligible(last, info.gender);
      Stats(total, total * 3, Some(DateOf(last)), if next > now then Some(DateOf(next)) else None)
  }

  // ---------------------------------------------------------------------
  // The chart
  // ---------------------------------------------------------------------

  /** The position of a month name in the list. */
  function MonthIndexOf(name: string): int
  {
    if name == "Jan" then 0 else if name == "Feb" then 1 else if name == "Mar" then 2
    else if name == "Apr" then 3 else if name == "May" then 4 else if name == "Jun" then 5
    else if name == "Jul" then 6 else if name == "Aug" then 7 else if name == "Sep" then 8
    else if name == "Oct" then 9 else if name == "Nov" then 10 else if name == "Dec" then 11 else -1
  }

  lemma MonthIndexOfName(k: int)
    requires 0 <= k < 12
    ensures MonthIndexOf(MonthNames[k]) == k
  {
    if k == 0 {} else if k == 1 {} else if k == 2 {} else if k == 3 {} else if k == 4 {} else if k == 5 {}
    else if k == 6 {} else if k == 7 {} else if k == 8 {} else if k == 9 {} else if k == 10 {} else {}
  }

  lemma MonthNamesDistinct(j: int, k: int)
    requires 0 <= j < 12 && 0 <= k < 12 && j != k
    ensures MonthNames[j] != MonthNames[k]
  {
    MonthIndexOfName(j);
    MonthIndexOfName(k);
  }

  /**
   * The `forEach` over the history that counts each Fulfilled entry under
   * the name of its update month, then the twelve months Jan..Dec with
   * their count, zero when none.
   */
  method MonthChart(history: seq<BloodRequest>) returns (chart: seq<Bucket>)
    ensures |chart| == 12
    ensures forall k :: 0 <= k < 12 ==>
      chart[k] == Bucket(MonthNames[k], Buckets(history, IsDonation, UpdatedMonth, 12)[k])
  {
    var monthCounts: map<string, nat> := map[];
    for i := 0 to |history|
      invariant forall k :: 0 <= k < 12 ==>
        Get(monthCounts, MonthNames[k]) == Count(history[..i], InBucket(IsDonation, UpdatedMonth, k))
    {
      assert history[..i + 1] == history[..i] + [history[i]];
      forall k | 0 <= k < 12 {
        CountAppendOne(history[..i], history[i], InBucket(IsDonation, UpdatedMonth, k));
      }
      if IsDonation(history[i]) {
        var u := UpdatedMonth(history[i]);
        var m := MonthNames[u];
        forall k | 0 <= k < 12 && k != u ensures MonthNames[k] != m {
          MonthNamesDistinct(k, u);
        }
        monthCounts := monthCounts[m := Get(monthCounts, m) + 1];
      }
    }
    assert history[..|history|] == history;
    chart := seq(12, k requires 0 <= k < 12 => Bucket(MonthNames[k], Get(monthCounts, MonthNames[k])));
  }

  /** The chart adds up to the donations card: every Fulfilled entry falls in exactly one month. */
  lemma ChartMatchesTotal(info: DonateNowPage.DonorInfo, history: seq<BloodRequest>, now: int, chart: seq<Bucket>)
    requires |chart| == 12
    requires forall k :: 0 <= k < 12 ==> chart[k].count == Buckets(history, IsDonation, UpdatedMonth, 12)[k]
    ensures BucketTotal(chart) == DashboardStats(info, history, now).totalDonations
  {
    BucketTotalIsSum(chart, Buckets(history, IsDonation, UpdatedMonth, 12));
    BucketsSum(history, IsDonation, UpdatedMonth, 12);
    CountSame(history, InBuckets(IsDonation, UpdatedMonth, 12), IsDonation);
  }

  // ---------------------------------------------------------------------
  // Months against days
  // ---------------------------------------------------------------------

  /** The first of May of a common year is 89 days after the first of February. */
  lemma FebruaryToMay(y: int)
    requires !Leap(y)
    ensures StartOf(Date(y, 5, 1)) == StartOf(Date(y, 2, 1)) + 89 * DayMs
  {
    assert DaysBeforeMonth(y, 5) - DaysBeforeMonth(y, 2) == 89;
  }

  /** The first of October is 92 days after the first of July. */
  lemma JulyToOctober(y: int)
    ensures StartOf(Date(y, 10, 1)) == StartOf(Date(y, 7, 1)) + 92 * DayMs
  {
    assert DaysBeforeMonth(y, 10) - DaysBeforeMonth(y, 7) == 92;
  }

  /** Whole days later, the dialog counts exactly those days. */
  lemma ElapsedWholeDays(last: int, n: nat)
    ensures DonateNowPage.ElapsedDays(last + n * DayMs, last) == n
  {
  }

  /** The date check of a donor with a last donation, given the day count. */
  lemma DialogVerdict(info: DonateNowPage.DonorInfo, reason: DonateNowPage.Reason, now: int, last: int)
    requires info.lastDonationDate == Some(last)
    ensures var days := DonateNowPage.ElapsedDays(now, last);
      var gap := DonateNowPage.RequiredGap(info.gender);
      DonateNowPage.DateCheck(info, reason, now)
        == if days < gap then (DonateNowPage.Deferred, DonateNowPage.Wait(days, gap - days))
           else (DonateNowPage.Booking, reason)
  {
  }

  /** Three months after the first of February of a common year is 89 days later. */
  lemma FebruaryPlusThree(y: int)
    requires !Leap(y)
    ensures NextEligible(StartOf(Date(y, 2, 1)), Male) == StartOf(Date(y, 2, 1)) + 89 * DayMs
  {
    AddMonthsFromFirst(y, 2, 3);
    FebruaryToMay(y);
  }

  /** Three months after the first of July is the first of October. */
  lemma JulyPlusThree(y: int)
    ensures NextEligible(StartOf(Date(y, 7, 1)), Male) == StartOf(Date(y, 10, 1))
  {
    AddMonthsFromFirst(y, 7, 3);
  }

  /** ... which is 92 days later. */
  lemma JulyPlusNinetyTwo(y: int)
    ensures NextEligible(StartOf(Date(y, 7, 1)), Male) == StartOf(Date(y, 7, 1)) + 92 * DayMs
  {
    JulyPlusThree(y);
    JulyToOctober(y);
  }

  /** The two screens on a male donor `n` whole days after a donation, the months ending `m` days after it. */
  lemma Verdicts(last: int, n: nat, m: nat, history: seq<BloodRequest>, reason: DonateNowPage.Reason)
    requires NextEligible(last, Male) == last + m * DayMs
    ensures var info := DonateNowPage.DonorInfo(Male, Some(last));
      var now := last + n * DayMs;
      (DashboardStats(info, history, now).nextEligible.Some? <==> m > n)
      && DonateNowPage.DateCheck(info, reason, now)
         == if n < 90 then (DonateNowPage.Deferred, DonateNowPage.Wait(n, 90 - n)) else (DonateNowPage.Booking, reason)
  {
    ElapsedWholeDays(last, n);
  }

  /**
   * A male donor whose last donation was the first of February of a common
   * year sees 'Available Now' on the first of May, 89 days later, while the
   * booking dialog asks for one more day.
   */
  lemma DashboardAheadOfDialog(y: int, history: seq<BloodRequest>, reason: DonateNowPage.Reason)
    requires !Leap(y)
    ensures var last := StartOf(Date(y, 2, 1));
      var info := DonateNowPage.DonorInfo(Male, Some(last));
      var now := last + 89 * DayMs;
      now == NextEligible(last, Male)
      && DashboardStats(info, history, now).nextEligible.None?
      && DonateNowPage.DateCheck(info, reason, now) == (DonateNowPage.Deferred, DonateNowPage.Wait(89, 1))
  {
    FebruaryPlusThree(y);
    Verdicts(StartOf(Date(y, 2, 1)), 89, 89, history, reason);
  }

  /**
   * A male donor whose last donation was the first of July may book 90 days
   * later, while the dashboard still shows a next eligible date, the first
   * of October.
   */
  lemma DialogAheadOfDashboard(y: int, history: seq<BloodRequest>, reason: DonateNowPage.Reason)
    ensures var last := StartOf(Date(y, 7, 1));
      var info := DonateNowPage.DonorInfo(Male, Some(last));
      var now := last + 90 * DayMs;
      DateOf(NextEligible(last, Male)) == Date(y, 10, 1)
      && DashboardStats(info, history, now).nextEligible.Some?
      && DonateNowPage.DateCheck(info, reason, now).0 == DonateNowPage.Booking
  {
    JulyPlusThree(y);
    JulyPlusNinetyTwo(y);
    FirstIsValid(y, 10);
    StartOfDate(Date(y, 10, 1));
    Verdicts(StartOf(Date(y, 7, 1)), 90, 92, history, reason);
  }
}
