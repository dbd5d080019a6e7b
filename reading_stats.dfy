/**
 * The overall reading statistics: totals and percentage, the current and
 * longest streaks, the first and last record, how consistently days get
 * marked, the best and worst weekday, the average gap between reading days,
 * the month-end projection and the trend of the last four weeks.
 */
module ReadingStats {

  import opened Wrappers
  import opened Arith
  import opened Rounding
  import opened Calendar
  import opened DayRuns
  import opened Lists
  import opened Reading

  /** `Math.round((part / whole) * 100)` guarded by `whole > 0`, else 0. */
  function PercentOrZero(part: nat, whole: nat): (r: nat)
    ensures whole == 0 ==> r == 0
    ensures whole > 0 ==> r == Percent(part, whole)
    ensures part <= whole ==> r <= 100
  {
    if whole > 0 then Percent(part, whole) else 0
  }

  // ---------------------------------------------------------------------
  // Streaks
  // ---------------------------------------------------------------------

  /**
   * The longest run of dates one day apart in an ascending list. The best
   * run is only compared when a run grows, which gives the same answer.
   */
  method CalculateStreak(ds: seq<int>) returns (maxStreak: nat)
    ensures maxStreak == LongestRun(ds)
  {
    if |ds| == 0 {
      return 0;
    }
    maxStreak := 1;
    var current := 1;
    var i := 1;
    while i < |ds|
      invariant 1 <= i <= |ds|
      invariant maxStreak == LongestUpTo(ds, i)
      invariant current == RunEndingAt(ds, i - 1)
    {
      if ds[i] - ds[i - 1] == 1 {
        current := current + 1;
        maxStreak := Max(maxStreak, current);
      } else {
        LongestUpToBounds(ds, i);
        current := 1;
      }
      i := i + 1;
    }
  }

  /**
   * The current streak: 0 when today is missed; otherwise walk back while
   * days are done, from today, or from yesterday when today is unmarked.
   */
  method CurrentStreakFrom(records: ReadingRecords, today: int) returns (streak: nat)
    ensures streak == CurrentStreakOf(records, today)
  {
    streak := 0;
    if today in records && records[today] == Missed {
      return;
    }
    var check := today;
    if today !in records {
      check := today - 1;
    }
    while true
      invariant streak + RunBack(records, check) == CurrentStreakOf(records, today)
      decreases |DoneUpTo(records, check)|
    {
      if check in records && records[check] == Done {
        assert check in DoneUpTo(records, check);
        ProperSubsetSmaller(DoneUpTo(records, check - 1), DoneUpTo(records, check));
        streak := streak + 1;
        check := check - 1;
      } else {
        break;
      }
    }
  }

  // ---------------------------------------------------------------------
  // First and last record, consistency
  // ---------------------------------------------------------------------

  function FirstRecord(records: ReadingRecords): (r: Option<int>)
    ensures r.None? <==> records == map[]
    ensures r.Some? ==> r.value in records && forall d :: d in records ==> r.value <= d
  {
    var ks := SortedDays(records.Keys);
    if |ks| > 0 then
      assert ks[0] in records.Keys;
      Some(ks[0])
    else
      assert records.Keys == {};
      None
  }

  function LastRecord(records: ReadingRecords): (r: Option<int>)
    ensures r.None? <==> records == map[]
    ensures r.Some? ==> r.value in records && forall d :: d in records ==> d <= r.value
  {
    var ks := SortedDays(records.Keys);
    if |ks| > 0 then
      assert ks[|ks| - 1] in records.Keys;
      assert forall d :: d in records ==> d in ks;
      Some(ks[|ks| - 1])
    else
      assert records.Keys == {};
      None
  }

  /** Days from the first record through today, both included (0 without records). */
  function DaysSinceStart(records: ReadingRecords, today: int): int {
    match FirstRecord(records)
    case None => 0
    case Some(first) => today - first + 1
  }

  /** Marked days as a percentage of the days since the first record. */
  function ConsistencyScore(records: ReadingRecords, today: int): nat {
    var span := DaysSinceStart(records, today);
    if span > 0 then Percent(|records|, span) else 0
  }

  /**
   * When no day after today is marked, the marked days fit in the days since
   * the first record, so the score is a true percentage, 100 exactly when
   * every one of those days is marked.
   */
  lemma ConsistencyAtMostHundred(records: ReadingRecords, today: int)
    requires forall d :: d in records ==> d <= today
    ensures records != map[] ==> DaysSinceStart(records, today) >= 1
    ensures ConsistencyScore(records, today) <= 100
    ensures records != map[] && |records| == DaysSinceStart(records, today) ==> ConsistencyScore(records, today) == 100
  {
    var first := FirstRecord(records);
    if first.Some? {
      DaysInRangeBound(records.Keys, first.value, today);
    }
  }

  // ---------------------------------------------------------------------
  // Weekdays
  // ---------------------------------------------------------------------

  datatype WeekdayScore = WeekdayScore(weekday: int, percentage: nat)

  function WeekdayDone(records: ReadingRecords, w: int): nat {
    |DaysMarked(records, Done, OnWeekday(w))|
  }

  function WeekdayTotal(records: ReadingRecords, w: int): nat {
    |DaysMarked(records, Done, OnWeekday(w))| + |DaysMarked(records, Missed, OnWeekday(w))|
  }

  /** Each weekday's reading percentage, -1 for a weekday with no records. */
  function WeekdayPercents(records: ReadingRecords): (p: seq<int>)
    ensures |p| == 7
    ensures forall w :: 0 <= w < 7 ==> -1 <= p[w] <= 100
  {
    seq(7, w => if WeekdayTotal(records, w) > 0 then Percent(WeekdayDone(records, w), WeekdayTotal(records, w)) else -1)
  }

  /** The first weekday among the first n with the highest percentage, -1 if none has records. */
  function BestAmong(p: seq<int>, n: nat): (b: int)
    requires n <= |p| && forall w :: 0 <= w < |p| ==> -1 <= p[w]
    ensures -1 <= b < n
    ensures b == -1 <==> forall v :: 0 <= v < n ==> p[v] == -1
    ensures b >= 0 ==> (p[b] >= 0 && (forall v :: 0 <= v < n ==> p[v] <= p[b])
                        && (forall v :: 0 <= v < b ==> p[v] < p[b]))
  {
    if n == 0 then -1
    else
      var b := BestAmong(p, n - 1);
      if p[n - 1] > (if b < 0 then -1 else p[b]) then n - 1 else b
  }

  /** The first weekday among the first n with the lowest percentage, -1 if none has records. */
  function WorstAmong(p: seq<int>, n: nat): (b: int)
    requires n <= |p| && forall w :: 0 <= w < |p| ==> -1 <= p[w] <= 100
    ensures -1 <= b < n
    ensures b == -1 <==> forall v :: 0 <= v < n ==> p[v] == -1
    ensures b >= 0 ==> (p[b] >= 0 && (forall v :: 0 <= v < n && p[v] >= 0 ==> p[b] <= p[v])
                        && (forall v :: 0 <= v < b && p[v] >= 0 ==> p[b] < p[v]))
  {
    if n == 0 then -1
    else
      var b := WorstAmong(p, n - 1);
      if p[n - 1] >= 0 && p[n - 1] < (if b < 0 then 101 else p[b]) then n - 1 else b
  }

  function BestDayOf(records: ReadingRecords): Option<WeekdayScore> {
    var p := WeekdayPercents(records);
    var b := BestAmong(p, 7);
    if b < 0 then None else Some(WeekdayScore(b, p[b]))
  }

  /** The worst weekday, left out when it is the best one. */
  function WorstDayOf(records: ReadingRecords): Option<WeekdayScore> {
    var p := WeekdayPercents(records);
    var b := BestAmong(p, 7);
    var w := WorstAmong(p, 7);
    if w < 0 || w == b then None else Some(WeekdayScore(w, p[w]))
  }

  /**
   * The best day is missing only without records; when both are shown the
   * worst day is a different weekday with a strictly lower percentage.
   */
  lemma BestAndWorstDays(records: ReadingRecords)
    ensures BestDayOf(records).None? <==> records == map[]
    ensures WorstDayOf(records).Some? ==>
      BestDayOf(records).Some? && WorstDayOf(records).value.weekday != BestDayOf(records).value.weekday
      && WorstDayOf(records).value.percentage < BestDayOf(records).value.percentage
  {
    var p := WeekdayPercents(records);
    if records.Keys != {} {
      NonEmptyHasElement(records.Keys);
      var d :| d in records;
      var w := JsWeekday(d);
      if records[d] == Done {
        assert d in DaysMarked(records, Done, OnWeekday(w));
      } else {
        assert d in DaysMarked(records, Missed, OnWeekday(w));
      }
      assert p[w] >= 0;
    } else {
      assert records == map[];
      forall w | 0 <= w < 7 ensures p[w] == -1 {
        assert DaysMarked(records, Done, OnWeekday(w)) == {};
        assert DaysMarked(records, Missed, OnWeekday(w)) == {};
      }
    }
    var b := BestAmong(p, 7);
    var w := WorstAmong(p, 7);
    assert w >= 0 && w < b ==> p[w] < p[b];
    assert w >= 0 && b < w ==> p[w] < p[b];
  }

  /** One pass over the records counting done and total days per weekday. */
  method WeekdayBuckets(records: ReadingRecords) returns (done: seq<nat>, total: seq<nat>)
    ensures |done| == 7 && |total| == 7
    ensures forall w :: 0 <= w < 7 ==> done[w] == WeekdayDone(records, w) && total[w] == WeekdayTotal(records, w)
  {
    var ks := SortedDays(records.Keys);
    var missed;
    done, missed := TallyWeekdays(records, ks);
    WeekdayTallies(records, done, missed);
    total := SumPairs(done, missed);
  }

  /** Each weekday's done count plus its missed count. */
  function SumPairs(a: seq<nat>, b: seq<nat>): (c: seq<nat>)
    requires |a| == |b|
    ensures |c| == |a| && forall i :: 0 <= i < |c| ==> c[i] == a[i] + b[i]
  {
    seq(|a|, i requires 0 <= i < |a| => a[i] + b[i])
  }

  lemma WeekdayTallies(records: ReadingRecords, done: seq<nat>, missed: seq<nat>)
    requires |done| == 7 && |missed| == 7
    requires forall w :: 0 <= w < 7 ==> done[w] == Tally(records, SortedDays(records.Keys), Done, OnWeekday(w))
    requires forall w :: 0 <= w < 7 ==> missed[w] == Tally(records, SortedDays(records.Keys), Missed, OnWeekday(w))
    ensures forall w :: 0 <= w < 7 ==> done[w] == WeekdayDone(records, w) && done[w] + missed[w] == WeekdayTotal(records, w)
  {
    forall w | 0 <= w < 7
      ensures done[w] == WeekdayDone(records, w) && done[w] + missed[w] == WeekdayTotal(records, w)
    {
      TallyOfRecords(records, Done, OnWeekday(w));
      TallyOfRecords(records, Missed, OnWeekday(w));
    }
  }

  /** The pass itself: done and missed days of ks per weekday, Sunday first. */
  method TallyWeekdays(records: ReadingRecords, ks: seq<int>) returns (done: seq<nat>, missed: seq<nat>)
    requires forall i :: 0 <= i < |ks| ==> ks[i] in records
    ensures |done| == 7 && |missed| == 7
    ensures forall w :: 0 <= w < 7 ==> done[w] == Tally(records, ks, Done, OnWeekday(w))
    ensures forall w :: 0 <= w < 7 ==> missed[w] == Tally(records, ks, Missed, OnWeekday(w))
  {
    done := seq(7, w => 0);
    missed := seq(7, w => 0);
    var i := 0;
    while i < |ks|
      invariant i <= |ks|
      invariant |done| == 7 && |missed| == 7
      invariant forall w :: 0 <= w < 7 ==> done[w] == Tally(records, ks[..i], Done, OnWeekday(w))
      invariant forall w :: 0 <= w < 7 ==> missed[w] == Tally(records, ks[..i], Missed, OnWeekday(w))
    {
      var day := ks[i];
      var w := JsWeekday(day);
      forall v | 0 <= v < 7
        ensures Tally(records, ks[..i + 1], Done, OnWeekday(v))
             == Tally(records, ks[..i], Done, OnWeekday(v)) + (if Counted(records, Done, OnWeekday(v), day) then 1 else 0)
        ensures Tally(records, ks[..i + 1], Missed, OnWeekday(v))
             == Tally(records, ks[..i], Missed, OnWeekday(v)) + (if Counted(records, Missed, OnWeekday(v), day) then 1 else 0)
      {
        TallyStep(records, ks, i, Done, OnWeekday(v));
        TallyStep(records, ks, i, Missed, OnWeekday(v));
      }
      if records[day] == Done {
        done := done[w := done[w] + 1];
      } else {
        missed := missed[w := missed[w] + 1];
      }
      i := i + 1;
    }
    WholePrefix(ks);
  }

  lemma PercentsOfBuckets(records: ReadingRecords, done: seq<nat>, total: seq<nat>)
    requires |done| == 7 && |total| == 7
    requires forall w :: 0 <= w < 7 ==> done[w] == WeekdayDone(records, w) && total[w] == WeekdayTotal(records, w)
    ensures forall w :: 0 <= w < 7 ==>
      WeekdayPercents(records)[w] == if total[w] > 0 then Percent(done[w], total[w]) else -1
  {
  }

  /** Scans the weekdays in order keeping the first best and the first worst. */
  method BestAndWorstWeekday(records: ReadingRecords) returns (best: Option<WeekdayScore>, worst: Option<WeekdayScore>)
    ensures best == BestDayOf(records) && worst == WorstDayOf(records)
  {
    var done, total := WeekdayBuckets(records);
    ghost var p := WeekdayPercents(records);
    PercentsOfBuckets(records, done, total);
    var bestPct: int, worstPct: int, bestNum: int, worstNum: int := -1, 101, -1, -1;
    best, worst := None, None;
    var w := 0;
    while w < 7
      invariant w <= 7
      invariant bestNum == BestAmong(p, w) && worstNum == WorstAmong(p, w)
      invariant bestPct == (if bestNum < 0 then -1 else p[bestNum])
      invariant worstPct == (if worstNum < 0 then 101 else p[worstNum])
      invariant best == (if bestNum < 0 then None else Some(WeekdayScore(bestNum, p[bestNum])))
      invariant worst == (if worstNum < 0 then None else Some(WeekdayScore(worstNum, p[worstNum])))
    {
      if total[w] > 0 {
        var pct := Percent(done[w], total[w]);
        if pct > bestPct {
          bestPct, bestNum := pct, w;
          best := Some(WeekdayScore(w, pct));
        }
        if pct < worstPct {
          worstPct, worstNum := pct, w;
          worst := Some(WeekdayScore(w, pct));
        }
      }
      w := w + 1;
    }
    if bestNum == worstNum {
      worst := None;
    }
  }

  // ---------------------------------------------------------------------
  // Average gap between reading days
  // ---------------------------------------------------------------------

  /**
   * The mean gap in days between consecutive reading days, in tenths of a
   * day (`Math.round(x * 10) / 10` keeps one decimal); none with fewer than
   * two reading days.
   */
  function AverageGapOf(ds: seq<int>): (r: Option<nat>)
    requires Increasing(ds)
    ensures r.None? <==> |ds| < 2
  {
    if |ds| >= 2 then
      assert ds[0] < ds[|ds| - 1];
      Some(RoundDiv(10 * (ds[|ds| - 1] - ds[0]), |ds| - 1))
    else None
  }

  /** Sums the gaps one by one; they add up to the span from first to last. */
  method AverageGap(ds: seq<int>) returns (r: Option<nat>)
    requires Increasing(ds)
    ensures r == AverageGapOf(ds)
  {
    if |ds| < 2 {
      return None;
    }
    assert ds[0] < ds[|ds| - 1];
    var totalGaps := 0;
    var i := 1;
    while i < |ds|
      invariant 1 <= i <= |ds|
      invariant totalGaps == ds[i - 1] - ds[0]
    {
      totalGaps := totalGaps + (ds[i] - ds[i - 1]);
      i := i + 1;
    }
    r := Some(RoundDiv(10 * totalGaps, |ds| - 1));
  }

  /** Reading days are distinct, so the average gap is at least one day. */
  lemma AverageGapAtLeastOneDay(ds: seq<int>)
    requires Increasing(ds) && |ds| >= 2
    ensures AverageGapOf(ds).value >= 10
    ensures ds[|ds| - 1] - ds[0] == |ds| - 1 ==> AverageGapOf(ds).value == 10
  {
    var n := |ds| - 1;
    IncreasingSpread(ds, n);
    var r := AverageGapOf(ds).value;
    var span := ds[n] - ds[0];
    assert 2 * n * r <= 20 * span + n < 2 * n * (r + 1);
    if r < 10 {
      MulMonotone(2 * n, r + 1, 10);
    }
    if span == n && r > 10 {
      MulMonotone(2 * n, 11, r);
    }
  }

  lemma {:induction false} IncreasingSpread(ds: seq<int>, i: nat)
    requires Increasing(ds) && i < |ds|
    ensures ds[i] - ds[0] >= i
  {
    if i > 0 {
      IncreasingSpread(ds, i - 1);
    }
  }

  // ---------------------------------------------------------------------
  // Month-end projection
  // ---------------------------------------------------------------------

  datatype Prediction = Prediction(predictedDays: nat, onTrack: bool, daysNeeded: int)

  /**
   * Reading days this month projected to the month's end at the rate so far;
   * on track at a rate of at least 70%; the days still needed to read every
   * day of the month.
   */
  function PredictionOf(records: ReadingRecords, today: int): Option<Prediction> {
    var count := |DaysMarked(records, Done, MonthScope(today))|;
    var dim := DaysInMonth(YearOf(today), MonthOf(today));
    var elapsed := DayOfMonth(today);
    if elapsed > 0 then
      Some(Prediction(RoundDiv(count * dim, elapsed), 10 * count >= 7 * elapsed, dim - count))
    else None
  }

  /** Reading days of a month are days of that month, so there are no more of them than it has days. */
  lemma MonthCountAtMostDays(records: ReadingRecords, y: int, m: int)
    requires 0 <= m < 12
    ensures |DaysMarked(records, Done, InMonth(y, m))| <= DaysInMonth(y, m)
  {
    var s := DaysMarked(records, Done, InMonth(y, m));
    MonthLengths(y, m);
    forall d | d in s ensures MonthStart(y, m) <= d <= MonthStart(y, m) + DaysInMonth(y, m) - 1 {
      assert YearOf(d) == y && MonthOf(d) == m;
    }
    DaysInRangeBound(s, MonthStart(y, m), MonthStart(y, m) + DaysInMonth(y, m) - 1);
  }

  /**
   * The projection always exists; it is never below the days already read,
   * the days needed are never negative, and while no day after today is
   * counted the projection does not exceed the month's length.
   */
  lemma PredictionFacts(records: ReadingRecords, today: int)
    ensures PredictionOf(records, today).Some?
    ensures PredictionOf(records, today).value.predictedDays >= |DaysMarked(records, Done, MonthScope(today))|
    ensures PredictionOf(records, today).value.daysNeeded >= 0
    ensures |DaysMarked(records, Done, MonthScope(today))| <= DayOfMonth(today) ==>
      PredictionOf(records, today).value.predictedDays <= DaysInMonth(YearOf(today), MonthOf(today))
  {
    MonthCountAtMostDays(records, YearOf(today), MonthOf(today));
    ProjectionBounds(|DaysMarked(records, Done, MonthScope(today))|,
      DaysInMonth(YearOf(today), MonthOf(today)), DayOfMonth(today));
  }

  /** count * dim / elapsed, rounded, lies between count and dim when count <= elapsed <= dim. */
  lemma ProjectionBounds(count: nat, dim: nat, elapsed: nat)
    requires 0 < elapsed <= dim
    ensures RoundDiv(count * dim, elapsed) >= count
    ensures count <= elapsed ==> RoundDiv(count * dim, elapsed) <= dim
  {
    var r := RoundDiv(count * dim, elapsed);
    if r < count {
      MulMonotone(2 * elapsed, r + 1, count);
      MulMonotone(count, elapsed, dim);
    }
    if count <= elapsed && r > dim {
      MulMonotone(2 * elapsed, dim + 1, r);
      MulMonotone(dim, count, elapsed);
    }
  }

  // ---------------------------------------------------------------------
  // Weekly trend
  // ---------------------------------------------------------------------

  datatype Trend = Up | Down | Stable

  /** A week of the trend; weeksAgo is 0 for this week (it picks the label). */
  datatype WeekTrend = WeekTrend(weekNumber: int, weeksAgo: nat, daysRead: nat, percentage: nat, trend: Trend)

  /** The Sunday that starts the week i weeks before today's. */
  function WeekStart(today: int, i: nat): int {
    today - JsWeekday(today) - 7 * i
  }

  /** The days of that week counted: through Saturday, but not past today. */
  function WeekDaysCounted(today: int, i: nat): (n: nat)
    ensures 1 <= n <= 7
  {
    Min(WeekStart(today, i) + 6, today) - WeekStart(today, i) + 1
  }

  /** Done days between lo and hi, both included. */
  function DoneInRange(records: ReadingRecords, lo: int, hi: int): (n: nat)
    ensures n <= Max(0, hi - lo + 1)
    decreases hi - lo
  {
    if hi < lo then 0
    else DoneInRange(records, lo, hi - 1) + (if Marked(records, hi, Done) then 1 else 0)
  }

  function WeekPointOf(records: ReadingRecords, today: int, i: nat): WeekTrend {
    var start := WeekStart(today, i);
    var read := DoneInRange(records, start, start + WeekDaysCounted(today, i) - 1);
    WeekTrend(IsoWeek(start), i, read, Percent(read, WeekDaysCounted(today, i)), Stable)
  }

  function TrendBetween(previous: nat, current: nat): Trend {
    if current - previous > 10 then Up
    else if current - previous < -10 then Down
    else Stable
  }

  /** The n oldest of the last four weeks, oldest first. */
  function OldestWeeks(records: ReadingRecords, today: int, n: nat): (ws: seq<WeekTrend>)
    requires n <= 4
    ensures |ws| == n
    ensures forall j :: 0 <= j < n ==> ws[j].trend == Stable
  {
    if n == 0 then [] else OldestWeeks(records, today, n - 1) + [WeekPointOf(records, today, 4 - n)]
  }

  lemma OldestWeeksStep(records: ReadingRecords, today: int, i: nat)
    requires i <= 3
    ensures OldestWeeks(records, today, 3 - (i - 1)) == OldestWeeks(records, today, 3 - i) + [WeekPointOf(records, today, i)]
  {
  }

  /** The last four weeks, oldest first, before the trends are marked. */
  function RawWeeks(records: ReadingRecords, today: int): (raw: seq<WeekTrend>)
    ensures |raw| == 4
  {
    OldestWeeks(records, today, 4)
  }

  /** Each week after the first compared with the week before it. */
  function WithTrends(raw: seq<WeekTrend>): (t: seq<WeekTrend>)
    ensures |t| == |raw|
  {
    seq(|raw|, j requires 0 <= j < |raw| =>
      if j == 0 then raw[0]
      else raw[j].(trend := TrendBetween(raw[j - 1].percentage, raw[j].percentage)))
  }

  function WeeklyTrendOf(records: ReadingRecords, today: int): (t: seq<WeekTrend>)
    ensures |t| == 4
  {
    WithTrends(RawWeeks(records, today))
  }

  /**
   * The week i weeks back starts on a Sunday; a past week counts all seven
   * days and this week the days through today; the reading days counted are
   * within them and the percentage is at most 100.
   */
  lemma WeekPointFacts(records: ReadingRecords, today: int, i: nat)
    ensures JsWeekday(WeekStart(today, i)) == 0
    ensures WeekDaysCounted(today, i) == (if i == 0 then JsWeekday(today) + 1 else 7)
    ensures WeekPointOf(records, today, i).daysRead <= WeekDaysCounted(today, i)
    ensures WeekPointOf(records, today, i).percentage <= 100
    ensures WeekPointOf(records, today, i).weeksAgo == i
  {
    StartIsSunday(today, i);
  }

  /**
   * The oldest week is stable; every other one is up or down exactly when
   * its percentage moved by more than 10 points from the week before.
   */
  lemma TrendsCompareNeighbours(raw: seq<WeekTrend>)
    requires raw != [] && raw[0].trend == Stable
    ensures var t := WithTrends(raw);
      && t[0].trend == Stable
      && forall j :: 0 < j < |t| ==>
           && t[j].percentage == raw[j].percentage
           && (t[j].trend == Up <==> t[j].percentage > t[j - 1].percentage + 10)
           && (t[j].trend == Down <==> t[j].percentage + 10 < t[j - 1].percentage)
  {
    var t := WithTrends(raw);
    forall j | 0 < j < |t|
      ensures t[j].percentage == raw[j].percentage
      ensures t[j].trend == Up <==> t[j].percentage > t[j - 1].percentage + 10
      ensures t[j].trend == Down <==> t[j].percentage + 10 < t[j - 1].percentage
    {
      TrendAt(raw, j);
    }
  }

  lemma TrendAt(raw: seq<WeekTrend>, j: nat)
    requires 0 < j < |raw|
    ensures WithTrends(raw)[j].percentage == raw[j].percentage
    ensures WithTrends(raw)[j - 1].percentage == raw[j - 1].percentage
    ensures WithTrends(raw)[j].trend == TrendBetween(raw[j - 1].percentage, raw[j].percentage)
  {
  }

  lemma StartIsSunday(today: int, i: nat)
    ensures JsWeekday(WeekStart(today, i)) == 0
  {
    var w := JsWeekday(today);
    var q := (today + 4) / 7;
    assert today + 4 == 7 * q + w;
    DivUnique(WeekStart(today, i) + 4, 7, q - i, 0);
  }

  /** Counts the days of one week, through Saturday but not past today, and the reading days among them. */
  method CountWeek(records: ReadingRecords, today: int, start: int) returns (daysRead: nat, daysInWeek: nat)
    requires start <= today
    ensures daysInWeek == Min(start + 6, today) - start + 1
    ensures daysRead == DoneInRange(records, start, start + daysInWeek - 1)
  {
    var end := start + 6;
    daysRead, daysInWeek := 0, 0;
    var d := start;
    while d <= end && d <= today
      invariant start <= d <= Min(end, today) + 1
      invariant daysInWeek == d - start
      invariant daysRead == DoneInRange(records, start, d - 1)
    {
      daysInWeek := daysInWeek + 1;
      if d in records && records[d] == Done {
        daysRead := daysRead + 1;
      }
      d := d + 1;
    }
  }

  /** Marks each week after the first up, down or stable against the week before. */
  method MarkTrends(raw: seq<WeekTrend>) returns (trend: seq<WeekTrend>)
    requires raw != [] && raw[0].trend == Stable
    requires forall j :: 0 <= j < |raw| ==> raw[j].trend == Stable
    ensures trend == WithTrends(raw)
  {
    trend := raw;
    var k := 1;
    while k < |trend|
      invariant 1 <= k <= |raw| && |trend| == |raw|
      invariant forall j :: 0 <= j < |raw| ==> trend[j] == (if j < k then WithTrends(raw)[j] else raw[j])
    {
      var diff := trend[k].percentage - trend[k - 1].percentage;
      if diff > 10 {
        trend := trend[k := trend[k].(trend := Up)];
      } else if diff < -10 {
        trend := trend[k := trend[k].(trend := Down)];
      }
      k := k + 1;
    }
  }

  /** One week of the trend, i weeks back. */
  method WeekPoint(records: ReadingRecords, today: int, i: nat) returns (point: WeekTrend)
    ensures point == WeekPointOf(records, today, i)
  {
    var start := today - JsWeekday(today) - 7 * i;
    var daysRead, daysInWeek := CountWeek(records, today, start);
    var pct := if daysInWeek > 0 then Percent(daysRead, daysInWeek) else 0;
    point := WeekTrend(IsoWeek(start), i, daysRead, pct, Stable);
  }

  /** Counts each of the last four weeks day by day, oldest first, then marks the trends. */
  method WeeklyTrend(records: ReadingRecords, today: int) returns (trend: seq<WeekTrend>)
    ensures trend == WeeklyTrendOf(records, today)
  {
    var raw: seq<WeekTrend> := [];
    var i := 3;
    while i >= 0
      invariant -1 <= i <= 3
      invariant |raw| == 3 - i
      invariant raw == OldestWeeks(records, today, 3 - i)
    {
      var point := WeekPoint(records, today, i);
      OldestWeeksStep(records, today, i);
      raw := raw + [point];
      i := i - 1;
    }
    trend := MarkTrends(raw);
  }

  // ---------------------------------------------------------------------
  // The overall figures
  // ---------------------------------------------------------------------

  datatype OverallStats = OverallStats(
    totalDaysRead: nat, totalDaysMissed: nat, totalDaysMarked: nat, percentage: nat,
    currentStreak: nat, longestStreak: nat,
    firstRecordDate: Option<int>, lastRecordDate: Option<int>,
    daysSinceStart: int, consistencyScore: nat,
    bestDayOfWeek: Option<WeekdayScore>, worstDayOfWeek: Option<WeekdayScore>,
    averageGapTenths: Option<nat>, monthlyGoalPrediction: Option<Prediction>,
    weeklyTrend: seq<WeekTrend>)

  function ReadCount(records: ReadingRecords): nat {
    |DaysMarked(records, Done, Everywhere)|
  }

  function MissedCount(records: ReadingRecords): nat {
    |DaysMarked(records, Missed, Everywhere)|
  }

  function OverallOf(records: ReadingRecords, today: int): OverallStats {
    OverallStats(
      ReadCount(records), MissedCount(records), ReadCount(records) + MissedCount(records),
      PercentOrZero(ReadCount(records), ReadCount(records) + MissedCount(records)),
      CurrentStreakOf(records, today), LongestRun(DoneDates(records, Everywhere)),
      FirstRecord(records), LastRecord(records),
      DaysSinceStart(records, today), ConsistencyScore(records, today),
      BestDayOf(records), WorstDayOf(records),
      AverageGapOf(DoneDates(records, Everywhere)), PredictionOf(records, today),
      WeeklyTrendOf(records, today))
  }

  /**
   * The headline figures: every record is read or missed, the percentage is
   * at most 100, the current streak is within the longest, which is within
   * the reading days and 0 exactly when there are none.
   */
  lemma OverallHeadline(records: ReadingRecords, today: int)
    ensures var o := OverallOf(records, today);
      && o.totalDaysMarked == |records|
      && o.percentage <= 100
      && o.currentStreak <= o.longestStreak <= o.totalDaysRead
      && (o.longestStreak == 0 <==> o.totalDaysRead == 0)
      && (o.firstRecordDate.Some? <==> o.totalDaysMarked > 0)
      && (o.firstRecordDate.Some? ==> o.firstRecordDate.value <= o.lastRecordDate.value)
  {
    DoneAndMissedAreAll(records, Everywhere);
    assert (set d | d in records && InScope(d, Everywhere)) == records.Keys;
    LongestRunBounds(records, Everywhere);
    CurrentAtMostLongest(records, today);
  }

  /** The overall figures unfolded once, so that the method below need not unfold them itself. */
  lemma OverallOfUnfolds(records: ReadingRecords, today: int)
    ensures OverallOf(records, today) == OverallStats(
      ReadCount(records), MissedCount(records), ReadCount(records) + MissedCount(records),
      PercentOrZero(ReadCount(records), ReadCount(records) + MissedCount(records)),
      CurrentStreakOf(records, today), LongestRun(DoneDates(records, Everywhere)),
      FirstRecord(records), LastRecord(records),
      DaysSinceStart(records, today), ConsistencyScore(records, today),
      BestDayOf(records), WorstDayOf(records),
      AverageGapOf(DoneDates(records, Everywhere)), PredictionOf(records, today),
      WeeklyTrendOf(records, today))
  {
  }

  /** Computes every overall figure. */
  method OverallStatsFor(records: ReadingRecords, today: int) returns (o: OverallStats)
    ensures o == OverallOf(records, today)
  {
    var readDates := DoneDates(records, Everywhere);
    var longest := CalculateStreak(readDates);
    var current := CurrentStreakFrom(records, today);
    var best, worst := BestAndWorstWeekday(records);
    var gap := AverageGap(readDates);
    var trend := WeeklyTrend(records, today);
    OverallOfUnfolds(records, today);
    o := OverallStats(
      ReadCount(records), MissedCount(records), ReadCount(records) + MissedCount(records),
      PercentOrZero(ReadCount(records), ReadCount(records) + MissedCount(records)),
      current, longest, FirstRecord(records), LastRecord(records),
      DaysSinceStart(records, today), ConsistencyScore(records, today),
      best, worst, gap, PredictionOf(records, today), trend);
  }
}
