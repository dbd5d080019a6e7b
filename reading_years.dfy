/**
 * The reading statistics per year: for every year with records, its totals,
 * longest streak, a breakdown by month and by ISO week number, the best and
 * worst month and the average reading days per week and per month; and the
 * figures of the current month and the current year.
 *
 * Weeks are grouped by ISO week number within the calendar year, so the
 * bucket of week 1 can hold the first days of January together with the
 * last days of December (see `WeekOneSpansTheYear`).
 */
module ReadingYears {

  import opened Wrappers
  import opened Arith
  import opened Rounding
  import opened Calendar
  import opened DayRuns
  import opened Lists
  import opened Reading
  import opened ReadingStats

  datatype MonthStats = MonthStats(
    month: int, year: int, daysRead: nat, daysMissed: nat, daysTotal: nat,
    percentage: nat, bestStreak: nat)

  datatype WeekStats = WeekStats(
    weekNumber: int, year: int, daysRead: nat, daysMissed: nat, daysTotal: nat, percentage: nat)

  datatype YearStats = YearStats(
    year: int, totalDaysRead: nat, totalDaysMissed: nat, totalDaysMarked: nat, percentage: nat,
    bestMonth: Option<MonthStats>, worstMonth: Option<MonthStats>, longestStreak: nat,
    averagePerWeekTenths: nat, averagePerMonthTenths: nat,
    monthlyBreakdown: seq<MonthStats>, weeklyBreakdown: seq<WeekStats>)

  function Count(records: ReadingRecords, st: ReadingStatus, scope: Scope): nat {
    |DaysMarked(records, st, scope)|
  }

  // ---------------------------------------------------------------------
  // Months
  // ---------------------------------------------------------------------

  function MonthStatsOf(records: ReadingRecords, y: int, m: int): MonthStats {
    var read := Count(records, Done, InMonth(y, m));
    var missed := Count(records, Missed, InMonth(y, m));
    MonthStats(m, y, read, missed, read + missed, PercentOrZero(read, read + missed),
      LongestRun(DoneDates(records, InMonth(y, m))))
  }

  function MonthlyBreakdown(records: ReadingRecords, y: int): (ms: seq<MonthStats>)
    ensures |ms| == 12
  {
    seq(12, m => MonthStatsOf(records, y, m))
  }

  /** The twelve months of a year, January first. */
  method MonthlyBreakdownFor(records: ReadingRecords, y: int) returns (ms: seq<MonthStats>)
    ensures ms == MonthlyBreakdown(records, y)
  {
    ms := [];
    var month := 0;
    while month < 12
      invariant 0 <= month <= 12 && |ms| == month
      invariant forall k :: 0 <= k < month ==> ms[k] == MonthStatsOf(records, y, k)
    {
      var s := MonthFor(records, y, month);
      ms := ms + [s];
      month := month + 1;
    }
  }

  /** One month's figures, its best streak found by the streak loop. */
  method MonthFor(records: ReadingRecords, y: int, month: int) returns (s: MonthStats)
    ensures s == MonthStatsOf(records, y, month)
  {
    var best := CalculateStreak(DoneDates(records, InMonth(y, month)));
    s := MonthStats(month, y, Count(records, Done, InMonth(y, month)), Count(records, Missed, InMonth(y, month)),
      Count(records, Done, InMonth(y, month)) + Count(records, Missed, InMonth(y, month)),
      PercentOrZero(Count(records, Done, InMonth(y, month)), Count(records, Done, InMonth(y, month)) + Count(records, Missed, InMonth(y, month))),
      best);
  }

  /** Marked days of year y with status st that fall in its first m months. */
  function EarlyMonths(records: ReadingRecords, st: ReadingStatus, y: int, m: int): set<int> {
    set d | d in records && Counted(records, st, InYear(y), d) && MonthOf(d) < m
  }

  function SumRead(ms: seq<MonthStats>): nat {
    if ms == [] then 0 else SumRead(ms[..|ms| - 1]) + ms[|ms| - 1].daysRead
  }

  function SumMissed(ms: seq<MonthStats>): nat {
    if ms == [] then 0 else SumMissed(ms[..|ms| - 1]) + ms[|ms| - 1].daysMissed
  }

  lemma EarlyMonthsStep(records: ReadingRecords, st: ReadingStatus, y: int, m: int)
    requires 0 <= m < 12
    ensures |EarlyMonths(records, st, y, m + 1)| == |EarlyMonths(records, st, y, m)| + Count(records, st, InMonth(y, m))
  {
    EarlyMonthsSplit(records, st, y, m);
  }

  /** Month m's days are added to the first m months, and none of them was there before. */
  lemma EarlyMonthsSplit(records: ReadingRecords, st: ReadingStatus, y: int, m: int)
    ensures EarlyMonths(records, st, y, m + 1) == EarlyMonths(records, st, y, m) + DaysMarked(records, st, InMonth(y, m))
    ensures EarlyMonths(records, st, y, m) * DaysMarked(records, st, InMonth(y, m)) == {}
  {
  }

  /** The first m months of the breakdown account for the year's days in those months. */
  lemma {:induction false} MonthPrefixSums(records: ReadingRecords, y: int, m: nat)
    requires m <= 12
    ensures SumRead(MonthlyBreakdown(records, y)[..m]) == |EarlyMonths(records, Done, y, m)|
    ensures SumMissed(MonthlyBreakdown(records, y)[..m]) == |EarlyMonths(records, Missed, y, m)|
  {
    var ms := MonthlyBreakdown(records, y);
    if m == 0 {
      assert EarlyMonths(records, Done, y, 0) == {};
      assert EarlyMonths(records, Missed, y, 0) == {};
    } else {
      MonthPrefixSums(records, y, m - 1);
      PrefixOfLongerPrefix(ms, m - 1);
      EarlyMonthsStep(records, Done, y, m - 1);
      EarlyMonthsStep(records, Missed, y, m - 1);
    }
  }

  /** The months of the breakdown add up to the year: every day of it is in exactly one month. */
  lemma MonthsSumToYear(records: ReadingRecords, y: int)
    ensures SumRead(MonthlyBreakdown(records, y)) == Count(records, Done, InYear(y))
    ensures SumMissed(MonthlyBreakdown(records, y)) == Count(records, Missed, InYear(y))
  {
    var ms := MonthlyBreakdown(records, y);
    MonthPrefixSums(records, y, 12);
    WholePrefix(ms);
    assert EarlyMonths(records, Done, y, 12) == DaysMarked(records, Done, InYear(y));
    assert EarlyMonths(records, Missed, y, 12) == DaysMarked(records, Missed, InYear(y));
  }

  // ---------------------------------------------------------------------
  // Weeks
  // ---------------------------------------------------------------------

  /** The ISO week numbers of the marked days of year y. */
  function WeekSet(records: ReadingRecords, y: int): set<int> {
    set d | d in records && YearOf(d) == y :: IsoWeek(d)
  }

  /** The ISO week numbers of the marked days of year y, ascending. */
  function WeekNumbers(records: ReadingRecords, y: int): (ws: seq<int>)
    ensures Increasing(ws)
    ensures forall w :: w in ws <==> w in WeekSet(records, y)
  {
    SortedDays(WeekSet(records, y))
  }

  function WeekStatsOf(records: ReadingRecords, y: int, w: int): WeekStats {
    WeekRecord(w, y, Count(records, Done, InIsoWeek(y, w)), Count(records, Missed, InIsoWeek(y, w)))
  }

  /** A week's entry from its read and missed days. */
  function WeekRecord(w: int, y: int, read: nat, missed: nat): WeekStats {
    WeekStats(w, y, read, missed, read + missed, PercentOrZero(read, read + missed))
  }

  /** The figures of each of the given weeks of year y, in the same order. */
  function WeeksOf(records: ReadingRecords, y: int, numbers: seq<int>): (ws: seq<WeekStats>)
    ensures |ws| == |numbers|
  {
    seq(|numbers|, k requires 0 <= k < |numbers| => WeekStatsOf(records, y, numbers[k]))
  }

  function WeeklyBreakdown(records: ReadingRecords, y: int): seq<WeekStats> {
    WeeksOf(records, y, WeekNumbers(records, y))
  }

  /** One entry per week number that occurs, in ascending order. */
  method WeeklyBreakdownFor(records: ReadingRecords, y: int) returns (ws: seq<WeekStats>)
    ensures ws == WeeklyBreakdown(records, y)
  {
    ws := WeeksFor(records, y, WeekNumbers(records, y));
  }

  /** `weeks.forEach(weekNumber => weeklyBreakdown.push(...))`. */
  method WeeksFor(records: ReadingRecords, y: int, numbers: seq<int>) returns (ws: seq<WeekStats>)
    ensures ws == WeeksOf(records, y, numbers)
  {
    ws := [];
    var k := 0;
    while k < |numbers|
      invariant 0 <= k <= |numbers| && |ws| == k
      invariant forall j :: 0 <= j < k ==> ws[j] == WeekStatsOf(records, y, numbers[j])
    {
      var s := WeekFor(records, y, numbers[k]);
      ws := ws + [s];
      k := k + 1;
    }
  }

  /**
   * One week's figures: a pass over the marked days counting those of year y
   * and week w that are read and those that are missed.
   */
  method WeekFor(records: ReadingRecords, y: int, w: int) returns (s: WeekStats)
    ensures s == WeekStatsOf(records, y, w)
  {
    var read, missed := TallyIn(records, SortedDays(records.Keys), InIsoWeek(y, w));
    TallyOfRecords(records, Done, InIsoWeek(y, w));
    TallyOfRecords(records, Missed, InIsoWeek(y, w));
    s := WeekRecord(w, y, read, missed);
  }

  /**
   * The weekly breakdown lists week numbers 1..53 in ascending order, each
   * with at least one marked day.
   */
  lemma WeeksHaveData(records: ReadingRecords, y: int)
    ensures var ws := WeeklyBreakdown(records, y);
      forall k :: 0 <= k < |ws| ==>
        && 1 <= ws[k].weekNumber <= 53
        && ws[k].daysTotal > 0
        && (k > 0 ==> ws[k - 1].weekNumber < ws[k].weekNumber)
  {
    var ws := WeeklyBreakdown(records, y);
    var numbers := WeekNumbers(records, y);
    forall k | 0 <= k < |ws|
      ensures 1 <= ws[k].weekNumber <= 53 && ws[k].daysTotal > 0
    {
      var w := numbers[k];
      assert w in WeekSet(records, y);
      var d :| d in records && YearOf(d) == y && IsoWeek(d) == w;
      DayIsCounted(records, d, InIsoWeek(y, w));
    }
  }

  /** A marked day in scope counts as read or as missed there. */
  lemma DayIsCounted(records: ReadingRecords, d: int, scope: Scope)
    requires d in records && InScope(d, scope)
    ensures Count(records, Done, scope) + Count(records, Missed, scope) > 0
  {
    if records[d] == Done {
      assert d in DaysMarked(records, Done, scope);
    } else {
      assert d in DaysMarked(records, Missed, scope);
    }
  }

  /** 2024-01-01 (a Monday) and 2024-12-30 (a Monday) are both in ISO week 1 and in the year 2024. */
  lemma WeekOneSpansTheYear()
    ensures YearOf(19723) == 2024 && YearOf(20087) == 2024
    ensures IsoWeek(19723) == 1 && IsoWeek(20087) == 1
  {
    assert Jan1(2024) == 19723;
    assert Jan1(2025) == 20089;
    assert Jan1(2026) == 20454;
    YearOfUnique(19723, 2024);
    YearOfUnique(20087, 2024);
    YearOfUnique(19726, 2024);
    YearOfUnique(20090, 2025);
  }

  // ---------------------------------------------------------------------
  // Best and worst month
  // ---------------------------------------------------------------------

  function MonthsWithData(ms: seq<MonthStats>): (r: seq<MonthStats>)
    ensures forall m :: m in r <==> m in ms && m.daysTotal > 0
  {
    if ms == [] then []
    else
      var rest := MonthsWithData(ms[..|ms| - 1]);
      assert ms == ms[..|ms| - 1] + [ms[|ms| - 1]];
      if ms[|ms| - 1].daysTotal > 0 then rest + [ms[|ms| - 1]] else rest
  }

  function WeeksWithData(ws: seq<WeekStats>): (r: seq<WeekStats>)
    ensures |r| <= |ws|
  {
    if ws == [] then []
    else
      var rest := WeeksWithData(ws[..|ws| - 1]);
      if ws[|ws| - 1].daysTotal > 0 then rest + [ws[|ws| - 1]] else rest
  }

  /**
   * `reduce((a, b) => a.percentage > b.percentage ? a : b)`: the month with
   * the highest percentage, the last one among equals.
   */
  function BestMonthIn(ms: seq<MonthStats>): (r: MonthStats)
    requires ms != []
    ensures exists i :: (0 <= i < |ms| && ms[i] == r
      && (forall j :: 0 <= j < |ms| ==> ms[j].percentage <= r.percentage)
      && (forall j :: i < j < |ms| ==> ms[j].percentage < r.percentage))
  {
    if |ms| == 1 then ms[0]
    else
      var n := |ms| - 1;
      var a := BestMonthIn(ms[..n]);
      if a.percentage > ms[n].percentage then
        var i :| 0 <= i < n && ms[..n][i] == a
          && (forall j :: 0 <= j < n ==> ms[..n][j].percentage <= a.percentage)
          && (forall j :: i < j < n ==> ms[..n][j].percentage < a.percentage);
        assert ms[i] == a;
        a
      else
        assert forall j :: 0 <= j < n ==> ms[..n][j] == ms[j];
        ms[n]
  }

  /**
   * `reduce((a, b) => a.percentage < b.percentage ? a : b)`: the month with
   * the lowest percentage, the last one among equals.
   */
  function WorstMonthIn(ms: seq<MonthStats>): (r: MonthStats)
    requires ms != []
    ensures exists i :: (0 <= i < |ms| && ms[i] == r
      && (forall j :: 0 <= j < |ms| ==> r.percentage <= ms[j].percentage)
      && (forall j :: i < j < |ms| ==> r.percentage < ms[j].percentage))
  {
    if |ms| == 1 then ms[0]
    else
      var n := |ms| - 1;
      var a := WorstMonthIn(ms[..n]);
      if a.percentage < ms[n].percentage then
        var i :| 0 <= i < n && ms[..n][i] == a
          && (forall j :: 0 <= j < n ==> a.percentage <= ms[..n][j].percentage)
          && (forall j :: i < j < n ==> a.percentage < ms[..n][j].percentage);
        assert ms[i] == a;
        a
      else
        assert forall j :: 0 <= j < n ==> ms[..n][j] == ms[j];
        ms[n]
  }

  // ---------------------------------------------------------------------
  // Years
  // ---------------------------------------------------------------------

  /** The month with the highest percentage among those with data, if any. */
  function BestMonthOf(ms: seq<MonthStats>): Option<MonthStats> {
    if MonthsWithData(ms) != [] then Some(BestMonthIn(MonthsWithData(ms))) else None
  }

  /** The month with the lowest percentage among those with data, if any. */
  function WorstMonthOf(ms: seq<MonthStats>): Option<MonthStats> {
    if MonthsWithData(ms) != [] then Some(WorstMonthIn(MonthsWithData(ms))) else None
  }

  /** Reading days per period in tenths, rounded half up; 0 without periods. */
  function AverageTenths(read: nat, periods: nat): nat {
    if periods > 0 then RoundDiv(10 * read, periods) else 0
  }

  /** A year's figures from its counts, its longest streak and its breakdowns. */
  function YearRecord(y: int, read: nat, missed: nat, longest: nat, months: seq<MonthStats>, weeks: seq<WeekStats>): YearStats {
    YearStats(y, read, missed, read + missed, PercentOrZero(read, read + missed),
      BestMonthOf(months), WorstMonthOf(months), longest,
      AverageTenths(read, |WeeksWithData(weeks)|), AverageTenths(read, |MonthsWithData(months)|),
      months, weeks)
  }

  function YearStatsOf(records: ReadingRecords, y: int): YearStats {
    YearRecord(y, Count(records, Done, InYear(y)), Count(records, Missed, InYear(y)),
      LongestRun(DoneDates(records, InYear(y))), MonthlyBreakdown(records, y), WeeklyBreakdown(records, y))
  }

  /** The years that have records. */
  function YearSet(records: ReadingRecords): set<int> {
    set d | d in records :: YearOf(d)
  }

  /** The years that have records, ascending. */
  function Years(records: ReadingRecords): (ys: seq<int>)
    ensures Increasing(ys)
    ensures forall y :: y in ys <==> y in YearSet(records)
  {
    SortedDays(YearSet(records))
  }

  /** The figures of each of the given years, in the same order. */
  function StatsOfYears(records: ReadingRecords, ys: seq<int>): (r: seq<YearStats>)
    ensures |r| == |ys|
  {
    if ys == [] then [] else StatsOfYears(records, ys[..|ys| - 1]) + [YearStatsOf(records, ys[|ys| - 1])]
  }

  function YearlyStats(records: ReadingRecords): seq<YearStats> {
    StatsOfYears(records, Years(records))
  }

  /** `find(y => y.year === year)`: the first entry for the year, if any. */
  function FindYear(stats: seq<YearStats>, year: int): (r: Option<YearStats>)
    ensures r.None? <==> forall k :: 0 <= k < |stats| ==> stats[k].year != year
    ensures r.Some? ==> r.value.year == year && r.value in stats
  {
    if stats == [] then None
    else if stats[0].year == year then Some(stats[0])
    else
      var r := FindYear(stats[1..], year);
      assert forall k :: 1 <= k < |stats| ==> stats[k] == stats[1..][k - 1];
      r
  }

  function CurrentYearStats(records: ReadingRecords, today: int): Option<YearStats> {
    FindYear(YearlyStats(records), YearOf(today))
  }

  function CurrentMonthStats(records: ReadingRecords, today: int): MonthStats {
    MonthStatsOf(records, YearOf(today), MonthOf(today))
  }

  /**
   * The current year's figures exist exactly when some record falls in that
   * year, and are then that year's figures.
   */
  lemma CurrentYearFound(records: ReadingRecords, today: int)
    ensures CurrentYearStats(records, today).Some? <==> exists d :: d in records && YearOf(d) == YearOf(today)
    ensures CurrentYearStats(records, today).Some? ==>
      CurrentYearStats(records, today).value == YearStatsOf(records, YearOf(today))
  {
    FindInStatsOfYears(records, Years(records), YearOf(today));
    if exists d :: d in records && YearOf(d) == YearOf(today) {
      assert YearOf(today) in YearSet(records);
    }
  }

  lemma YearStatsOfYear(records: ReadingRecords, y: int)
    ensures YearStatsOf(records, y).year == y
  {
  }

  /** Looking a year up in the figures of a list of years finds it exactly when it is listed. */
  lemma {:induction false} FindInStatsOfYears(records: ReadingRecords, ys: seq<int>, y: int)
    ensures FindYear(StatsOfYears(records, ys), y).Some? <==> y in ys
    ensures FindYear(StatsOfYears(records, ys), y).Some? ==> FindYear(StatsOfYears(records, ys), y).value == YearStatsOf(records, y)
  {
    if ys != [] {
      var n := |ys| - 1;
      FindInStatsOfYears(records, ys[..n], y);
      YearStatsOfYear(records, ys[n]);
      FindYearSnoc(StatsOfYears(records, ys[..n]), YearStatsOf(records, ys[n]), y);
      InPrefixOrLast(ys, y);
      if FindYear(StatsOfYears(records, ys[..n]), y).None? && YearStatsOf(records, ys[n]).year == y {
        assert ys[n] == y;
      }
    }
  }

  lemma InPrefixOrLast(ys: seq<int>, y: int)
    requires ys != []
    ensures y in ys <==> y in ys[..|ys| - 1] || y == ys[|ys| - 1]
  {
    assert ys == ys[..|ys| - 1] + [ys[|ys| - 1]];
  }

  lemma {:induction false} FindYearSnoc(stats: seq<YearStats>, s: YearStats, y: int)
    ensures FindYear(stats + [s], y) ==
      if FindYear(stats, y).Some? then FindYear(stats, y) else if s.year == y then Some(s) else None
  {
    if stats != [] {
      assert (stats + [s])[1..] == stats[1..] + [s];
      FindYearSnoc(stats[1..], s, y);
    } else {
      assert [s][1..] == [];
    }
  }

  /**
   * A year with records has a best and a worst month, the best at least as
   * good as the worst, both months with data; the year's percentage is at
   * most 100; its longest streak is within its reading days and no month's
   * best streak exceeds it, nor does it exceed the all-time longest streak.
   */
  lemma YearStatsFacts(records: ReadingRecords, y: int)
    requires exists d :: d in records && YearOf(d) == y
    ensures var s := YearStatsOf(records, y);
      && s.bestMonth.Some? && s.worstMonth.Some?
      && s.bestMonth.value.daysTotal > 0 && s.worstMonth.value.daysTotal > 0
      && s.worstMonth.value.percentage <= s.bestMonth.value.percentage
      && s.totalDaysMarked > 0 && s.percentage <= 100
      && s.longestStreak <= s.totalDaysRead
      && (forall m :: 0 <= m < 12 ==> s.monthlyBreakdown[m].bestStreak <= s.longestStreak)
      && s.longestStreak <= LongestRun(DoneDates(records, Everywhere))
  {
    var d :| d in records && YearOf(d) == y;
    DayIsCounted(records, d, InYear(y));
    BestAndWorstMonth(records, y);
    YearStreaks(records, y);
  }

  /** A year with records has a best and a worst month with data, the best at least as good. */
  lemma BestAndWorstMonth(records: ReadingRecords, y: int)
    requires exists d :: d in records && YearOf(d) == y
    ensures var best := BestMonthOf(MonthlyBreakdown(records, y));
      var worst := WorstMonthOf(MonthlyBreakdown(records, y));
      && best.Some? && worst.Some?
      && best.value.daysTotal > 0 && worst.value.daysTotal > 0
      && worst.value.percentage <= best.value.percentage
  {
    var d :| d in records && YearOf(d) == y;
    var months := MonthlyBreakdown(records, y);
    DayIsCounted(records, d, InMonth(y, MonthOf(d)));
    assert months[MonthOf(d)] in MonthsWithData(months);
    var withData := MonthsWithData(months);
    var best := BestMonthIn(withData);
    var worst := WorstMonthIn(withData);
    assert best in withData && worst in withData;
    assert worst.percentage <= best.percentage by {
      var i :| 0 <= i < |withData| && withData[i] == best;
    }
  }

  /**
   * A year's longest streak is within its reading days, no month's best
   * streak exceeds it, and it does not exceed the all-time longest streak.
   */
  lemma YearStreaks(records: ReadingRecords, y: int)
    ensures LongestRun(DoneDates(records, InYear(y))) <= Count(records, Done, InYear(y))
    ensures forall m :: 0 <= m < 12 ==> MonthlyBreakdown(records, y)[m].bestStreak <= LongestRun(DoneDates(records, InYear(y)))
    ensures LongestRun(DoneDates(records, InYear(y))) <= LongestRun(DoneDates(records, Everywhere))
  {
    LongestRunBounds(records, InYear(y));
    forall m | 0 <= m < 12 ensures MonthlyBreakdown(records, y)[m].bestStreak <= LongestRun(DoneDates(records, InYear(y))) {
      MonthStreakWithinYear(records, y, m);
    }
    YearStreakWithinAll(records, y);
  }

  lemma MonthStreakWithinYear(records: ReadingRecords, y: int, m: int)
    requires 0 <= m < 12
    ensures MonthlyBreakdown(records, y)[m].bestStreak <= LongestRun(DoneDates(records, InYear(y)))
  {
    assert MonthlyBreakdown(records, y)[m].bestStreak == LongestRun(DoneDates(records, InMonth(y, m)));
    NarrowerScopeShorterRun(records, InMonth(y, m), InYear(y));
  }

  lemma YearStreakWithinAll(records: ReadingRecords, y: int)
    ensures LongestRun(DoneDates(records, InYear(y))) <= LongestRun(DoneDates(records, Everywhere))
  {
    NarrowerScopeShorterRun(records, InYear(y), Everywhere);
  }

  /** A scope whose days all lie in another has no longer run of done days. */
  lemma NarrowerScopeShorterRun(records: ReadingRecords, narrow: Scope, wide: Scope)
    requires forall d :: InScope(d, narrow) ==> InScope(d, wide)
    ensures LongestRun(DoneDates(records, narrow)) <= LongestRun(DoneDates(records, wide))
  {
    assert DaysMarked(records, Done, narrow) <= DaysMarked(records, Done, wide);
    SubsetLongestRun(DaysMarked(records, Done, narrow), DaysMarked(records, Done, wide));
  }

  /**
   * Every week listed has data, so the weekly average divides by the number
   * of weeks listed; every month with data is counted for the monthly one.
   */
  lemma AveragesDivideByListedWeeks(records: ReadingRecords, y: int)
    ensures WeeksWithData(WeeklyBreakdown(records, y)) == WeeklyBreakdown(records, y)
  {
    WeeksHaveData(records, y);
    AllWeeksKept(WeeklyBreakdown(records, y));
  }

  lemma {:induction false} AllWeeksKept(ws: seq<WeekStats>)
    requires forall k :: 0 <= k < |ws| ==> ws[k].daysTotal > 0
    ensures WeeksWithData(ws) == ws
  {
    if ws != [] {
      AllWeeksKept(ws[..|ws| - 1]);
      assert ws[..|ws| - 1] + [ws[|ws| - 1]] == ws;
    }
  }

  /** The current month's figures: a true percentage, at most as many reading days as the month has days. */
  lemma CurrentMonthFacts(records: ReadingRecords, today: int)
    ensures var s := CurrentMonthStats(records, today);
      && s.daysTotal == s.daysRead + s.daysMissed
      && s.percentage <= 100
      && s.daysRead <= DaysInMonth(YearOf(today), MonthOf(today))
      && s.bestStreak <= s.daysRead
  {
    MonthCountAtMostDays(records, YearOf(today), MonthOf(today));
    LongestRunBounds(records, MonthScope(today));
  }

  /**
   * The tracker's summary and the statistics page agree: the same done and
   * missed totals, the same month figures and the same streaks.
   */
  lemma TrackerAgreesWithStats(records: ReadingRecords, today: int)
    ensures var summary := SummaryOf(records, today);
      var overall := OverallOf(records, today);
      var month := CurrentMonthStats(records, today);
      && summary.totalDone == overall.totalDaysRead
      && summary.totalMissed == overall.totalDaysMissed
      && summary.monthDone == month.daysRead
      && summary.monthMissed == month.daysMissed
      && summary.currentStreak == overall.currentStreak
      && summary.longestStreak == overall.longestStreak
  {
    TallyOfRecords(records, Done, Everywhere);
    TallyOfRecords(records, Missed, Everywhere);
    TallyOfRecords(records, Done, MonthScope(today));
    TallyOfRecords(records, Missed, MonthScope(today));
  }

  /** Every year with records, ascending, each with its figures. */
  method YearlyStatsFor(records: ReadingRecords) returns (stats: seq<YearStats>)
    ensures stats == YearlyStats(records)
  {
    stats := StatsForYears(records, Years(records));
  }

  /** `years.map(year => ...)`. */
  method StatsForYears(records: ReadingRecords, ys: seq<int>) returns (stats: seq<YearStats>)
    ensures stats == StatsOfYears(records, ys)
  {
    stats := [];
    var k := 0;
    while k < |ys|
      invariant 0 <= k <= |ys|
      invariant stats == StatsOfYears(records, ys[..k])
    {
      var s := YearStatsFor(records, ys[k]);
      StatsOfYearsStep(records, ys, k);
      stats := stats + [s];
      k := k + 1;
    }
    WholePrefix(ys);
  }

  lemma StatsOfYearsStep(records: ReadingRecords, ys: seq<int>, k: nat)
    requires k < |ys|
    ensures StatsOfYears(records, ys[..k + 1]) == StatsOfYears(records, ys[..k]) + [YearStatsOf(records, ys[k])]
  {
    PrefixOfLongerPrefix(ys, k);
  }

  /** One year's figures, its breakdowns built month by month and week by week. */
  method YearStatsFor(records: ReadingRecords, y: int) returns (s: YearStats)
    ensures s == YearStatsOf(records, y)
  {
    var months := MonthlyBreakdownFor(records, y);
    var weeks := WeeklyBreakdownFor(records, y);
    var longest := CalculateStreak(DoneDates(records, InYear(y)));
    s := YearRecord(y, Count(records, Done, InYear(y)), Count(records, Missed, InYear(y)), longest, months, weeks);
  }
}
