/**
 * `useHabitStats`: per-habit streaks and 30-day completion rate, the 366-day
 * activity heatmap, the 7-day trend and the global figures shown on the
 * statistics page. `today` is a day number; logs are read through `StatusOn`.
 */
module HabitStats {

  import opened Wrappers
  import opened Arith
  import opened Rounding
  import opened Runs
  import opened Habits
  import opened Calendar

  datatype HabitStat = HabitStat(
    id: HabitId, title: string, color: string,
    currentStreak: nat, longestStreak: nat, totalDays: nat, completionRate: nat)

  /** `Math.max(0, differenceInCalendarDays(today, start) + 1)`. */
  function DaysSinceStart(start: int, today: int): nat {
    if today - start + 1 > 0 then today - start + 1 else 0
  }

  // ---------------------------------------------------------------- streaks

  /** The longest-streak pass: done counts, skipped freezes, missed or unmarked resets. */
  function StreakStep(s: Option<Status>): Step {
    match s
    case Some(Done) => Inc
    case Some(Skipped) => Hold
    case _ => Reset
  }

  /** The days the longest-streak pass visits, today first and the start date last. */
  function BackSteps(logs: GoalLogs, id: HabitId, start: int, today: int): (s: seq<Step>)
    ensures |s| == DaysSinceStart(start, today)
  {
    seq(DaysSinceStart(start, today), i => StreakStep(StatusOn(logs, today - i, id)))
  }

  /**
   * The backward walk from day d: a done day counts, a skipped day is passed over,
   * a missed or unmarked day ends the walk, and so does reaching the start date.
   */
  function WalkBack(logs: GoalLogs, id: HabitId, start: int, d: int): nat
    decreases d - start
  {
    if d < start then 0
    else
      match StatusOn(logs, d, id)
      case Some(Done) => 1 + WalkBack(logs, id, start, d - 1)
      case Some(Skipped) => WalkBack(logs, id, start, d - 1)
      case _ => 0
  }

  /** The current streak: today done counts, today missed is no streak, otherwise the walk starts yesterday. */
  function CurrentStreakOf(logs: GoalLogs, id: HabitId, start: int, today: int): nat {
    match StatusOn(logs, today, id)
    case Some(Done) => 1 + WalkBack(logs, id, start, today - 1)
    case Some(Missed) => 0
    case _ => WalkBack(logs, id, start, today - 1)
  }

  method CurrentStreak(logs: GoalLogs, goal: Goal, today: int) returns (streak: nat)
    ensures streak == CurrentStreakOf(logs, goal.id, goal.startDate, today)
  {
    var id, start := goal.id, goal.startDate;
    streak := 0;
    var active := true;
    var todayStatus := StatusOn(logs, today, id);
    if todayStatus == Some(Done) {
      streak := streak + 1;
    } else if todayStatus == Some(Missed) {
      active := false;
    }
    var daysBack := 1;
    while true
      invariant daysBack >= 1
      invariant active ==> streak + WalkBack(logs, id, start, today - daysBack) == CurrentStreakOf(logs, id, start, today)
      invariant !active ==> streak == CurrentStreakOf(logs, id, start, today)
      decreases today - daysBack - start + 1
    {
      var past := today - daysBack;
      if past < start {
        break;
      }
      var status := StatusOn(logs, past, id);
      if status == Some(Done) {
        if active {
          streak := streak + 1;
        }
      } else if status == Some(Skipped) {
        // a skipped day neither counts nor breaks the walk
      } else {
        // missed or unmarked (the source's "pending yesterday" case ends the walk the same way)
        active := false;
      }
      if !active {
        break;
      }
      daysBack := daysBack + 1;
    }
  }

  method LongestStreakAndTotal(logs: GoalLogs, goal: Goal, today: int) returns (longest: nat, totalDone: nat)
    ensures longest == Best(BackSteps(logs, goal.id, goal.startDate, today))
    ensures totalDone == Incs(BackSteps(logs, goal.id, goal.startDate, today))
  {
    ghost var steps := BackSteps(logs, goal.id, goal.startDate, today);
    var n := DaysSinceStart(goal.startDate, today);
    longest, totalDone := 0, 0;
    var temp := 0;
    if n > 0 {
      for i := 0 to n
        invariant temp == Tail(steps[..i])
        invariant Max(longest, temp) == Best(steps[..i])
        invariant totalDone == Incs(steps[..i])
      {
        assert steps[..i + 1][..i] == steps[..i];
        var status := StatusOn(logs, today - i, goal.id);
        if status == Some(Done) {
          totalDone := totalDone + 1;
          temp := temp + 1;
        } else if status == Some(Skipped) {
          // frozen
        } else {
          longest := Max(longest, temp);
          temp := 0;
        }
      }
      longest := Max(longest, temp);
      assert steps[..n] == steps;
    }
  }

  // ------------------------------------------------------ completion rate

  /** First day of the rate window: the later of the start date and 29 days before today. */
  function RateWindowStart(start: int, today: int): int {
    Max(start, today - 29)
  }

  /** Done days of habit id in [lo, hi]. */
  function DoneDaysIn(logs: GoalLogs, id: HabitId, lo: int, hi: int): (n: nat)
    ensures n <= (if hi >= lo then hi - lo + 1 else 0)
    decreases hi - lo
  {
    if hi < lo then 0
    else DoneDaysIn(logs, id, lo, hi - 1) + (if StatusOn(logs, hi, id) == Some(Done) then 1 else 0)
  }

  /** The 30-day completion rate: percentage of done days in [RateWindowStart, today]. */
  function RecentRateOf(logs: GoalLogs, id: HabitId, start: int, today: int): nat {
    var from := RateWindowStart(start, today);
    if from > today then 0 else Percent(DoneDaysIn(logs, id, from, today), today - from + 1)
  }

  method RecentCompletionRate(logs: GoalLogs, goal: Goal, today: int) returns (rate: nat)
    ensures rate == RecentRateOf(logs, goal.id, goal.startDate, today)
  {
    var rateDays, rateDone := 0, 0;
    var from := RateWindowStart(goal.startDate, today);
    if from <= today {
      var day := from;
      while day <= today
        invariant from <= day <= today + 1
        invariant rateDays == day - from
        invariant rateDone == DoneDaysIn(logs, goal.id, from, day - 1)
      {
        rateDays := rateDays + 1;
        if StatusOn(logs, day, goal.id) == Some(Done) {
          rateDone := rateDone + 1;
        }
        day := day + 1;
      }
    }
    rate := if rateDays > 0 then Percent(rateDone, rateDays) else 0;
  }

  function HabitStatOf(goal: Goal, logs: GoalLogs, today: int): HabitStat {
    var steps := BackSteps(logs, goal.id, goal.startDate, today);
    HabitStat(goal.id, goal.title, goal.color,
              CurrentStreakOf(logs, goal.id, goal.startDate, today),
              Best(steps), Incs(steps),
              RecentRateOf(logs, goal.id, goal.startDate, today))
  }

  method ComputeHabitStat(goal: Goal, logs: GoalLogs, today: int) returns (h: HabitStat)
    ensures h == HabitStatOf(goal, logs, today)
  {
    var current := CurrentStreak(logs, goal, today);
    var longest, totalDone := LongestStreakAndTotal(logs, goal, today);
    var rate := RecentCompletionRate(logs, goal, today);
    h := HabitStat(goal.id, goal.title, goal.color, current, longest, totalDone, rate);
  }

  // ---------------------------------------------------- streak properties

  /** A habit whose start date is after today has no days, no streak and no rate. */
  lemma NotYetStarted(logs: GoalLogs, goal: Goal, today: int)
    requires goal.startDate > today
    ensures DaysSinceStart(goal.startDate, today) == 0
    ensures HabitStatOf(goal, logs, today).longestStreak == 0
    ensures HabitStatOf(goal, logs, today).totalDays == 0
    ensures HabitStatOf(goal, logs, today).completionRate == 0
  {
  }

  /** Today missed means no current streak; today done means a streak of at least one. */
  lemma TodayDecides(logs: GoalLogs, id: HabitId, start: int, today: int)
    ensures StatusOn(logs, today, id) == Some(Missed) ==> CurrentStreakOf(logs, id, start, today) == 0
    ensures StatusOn(logs, today, id) == Some(Done) ==> CurrentStreakOf(logs, id, start, today) >= 1
  {
  }

  /** The walk reads no day before the start date and no day after d. */
  lemma {:induction false} WalkBackReadsOnlyValidDays(logs1: GoalLogs, logs2: GoalLogs, id: HabitId, start: int, d: int)
    requires forall day :: start <= day <= d ==> StatusOn(logs1, day, id) == StatusOn(logs2, day, id)
    ensures WalkBack(logs1, id, start, d) == WalkBack(logs2, id, start, d)
    decreases d - start
  {
    if d >= start {
      WalkBackReadsOnlyValidDays(logs1, logs2, id, start, d - 1);
    }
  }

  /** A skipped day is passed over; a missed or unmarked day ends the walk. */
  lemma WalkBackSteps(logs: GoalLogs, id: HabitId, start: int, d: int)
    requires start <= d
    ensures StatusOn(logs, d, id) == Some(Skipped) ==> WalkBack(logs, id, start, d) == WalkBack(logs, id, start, d - 1)
    ensures StatusOn(logs, d, id) == Some(Done) ==> WalkBack(logs, id, start, d) == WalkBack(logs, id, start, d - 1) + 1
    ensures StatusOn(logs, d, id) in {None, Some(Missed)} ==> WalkBack(logs, id, start, d) == 0
  {
  }

  lemma BackStepsShift(logs: GoalLogs, id: HabitId, start: int, today: int)
    requires start <= today
    ensures BackSteps(logs, id, start, today)[1..] == BackSteps(logs, id, start, today - 1)
    ensures BackSteps(logs, id, start, today)[0] == StreakStep(StatusOn(logs, today, id))
  {
    var s, t := BackSteps(logs, id, start, today), BackSteps(logs, id, start, today - 1);
    assert |s[1..]| == |t|;
    forall k | 0 <= k < |t| ensures s[1..][k] == t[k] {
      assert s[1..][k] == s[k + 1];
    }
  }

  /** The backward walk is the run read from the front of the longest-streak pass. */
  lemma {:induction false} WalkBackIsLeadRun(logs: GoalLogs, id: HabitId, start: int, d: int)
    ensures WalkBack(logs, id, start, d) == LeadRun(BackSteps(logs, id, start, d))
    decreases d - start
  {
    if d >= start {
      BackStepsShift(logs, id, start, d);
      WalkBackIsLeadRun(logs, id, start, d - 1);
    }
  }

  /** With the habit started, current <= longest <= total done <= days since start. */
  lemma StreakOrder(logs: GoalLogs, goal: Goal, today: int)
    requires goal.startDate <= today
    ensures var h := HabitStatOf(goal, logs, today);
      h.currentStreak <= h.longestStreak <= h.totalDays <= DaysSinceStart(goal.startDate, today)
  {
    var id, start := goal.id, goal.startDate;
    var s := BackSteps(logs, id, start, today);
    BackStepsShift(logs, id, start, today);
    WalkBackIsLeadRun(logs, id, start, today - 1);
    LeadRunAtMostBest(s, 0);
    LeadRunAtMostBest(s, 1);
    assert s[0..] == s;
    BestAtMostIncs(s);
  }

  /** The rate counts the window [max(start, today - 29), today], is 0 when it is empty and lies in [0, 100]. */
  lemma RecentRateBounds(logs: GoalLogs, id: HabitId, start: int, today: int)
    ensures RecentRateOf(logs, id, start, today) <= 100
    ensures start > today ==> RecentRateOf(logs, id, start, today) == 0
    ensures RateWindowStart(start, today) <= today ==> today - RateWindowStart(start, today) + 1 <= 30
  {
  }

  // ---------------------------------------------------- all habits at once

  method ComputeHabitStats(goals: seq<Goal>, logs: GoalLogs, today: int) returns (stats: seq<HabitStat>)
    ensures |stats| == |goals|
    ensures forall i :: 0 <= i < |goals| ==> stats[i] == HabitStatOf(goals[i], logs, today)
  {
    stats := [];
    for i := 0 to |goals|
      invariant |stats| == i
      invariant forall k :: 0 <= k < i ==> stats[k] == HabitStatOf(goals[k], logs, today)
    {
      var h := ComputeHabitStat(goals[i], logs, today);
      stats := stats + [h];
    }
  }

  // --------------------------------------------------------------- heatmap

  datatype DayActivity = DayActivity(date: int, count: nat, intensity: nat)

  /** Goals whose start date is on or before day (the goals the day could count). */
  function StartedOn(goals: seq<Goal>, day: int): (n: nat)
    ensures n <= |goals|
  {
    if goals == [] then 0
    else StartedOn(goals[..|goals| - 1], day) + (if goals[|goals| - 1].startDate <= day then 1 else 0)
  }

  /** Started goals marked done on day. */
  function DoneOn(goals: seq<Goal>, logs: GoalLogs, day: int): (n: nat)
    ensures n <= StartedOn(goals, day)
  {
    if goals == [] then 0
    else
      var g := goals[|goals| - 1];
      DoneOn(goals[..|goals| - 1], logs, day)
        + (if g.startDate <= day && StatusOn(logs, day, g.id) == Some(Done) then 1 else 0)
  }

  /**
   * Heatmap shade 0..4 of done out of possible: 0 when nothing is possible or nothing
   * is done, otherwise the quarter of [0, 1] the ratio done/possible falls in, each
   * quarter closed at its top.
   */
  function Intensity(done: nat, possible: nat): (r: nat)
    ensures r <= 4
    ensures r == 0 <==> done == 0 || possible == 0
    ensures r > 0 ==> (r - 1) * possible < 4 * done
    ensures r > 0 ==> r == 4 || 4 * done <= r * possible
  {
    if possible > 0 && done > 0 then
      if 4 * done <= possible then 1
      else if 4 * done <= 2 * possible then 2
      else if 4 * done <= 3 * possible then 3
      else 4
    else 0
  }

  /** A higher completed share never yields a lighter shade. */
  lemma IntensityMonotone(d1: nat, d2: nat, possible: nat)
    requires d1 <= d2
    ensures Intensity(d1, possible) <= Intensity(d2, possible)
  {
  }

  function ActivityOf(goals: seq<Goal>, logs: GoalLogs, day: int): DayActivity {
    DayActivity(day, DoneOn(goals, logs, day), Intensity(DoneOn(goals, logs, day), StartedOn(goals, day)))
  }

  method CountGoalsOn(goals: seq<Goal>, logs: GoalLogs, day: int) returns (possible: nat, done: nat)
    ensures possible == StartedOn(goals, day)
    ensures done == DoneOn(goals, logs, day)
  {
    possible, done := 0, 0;
    for i := 0 to |goals|
      invariant possible == StartedOn(goals[..i], day)
      invariant done == DoneOn(goals[..i], logs, day)
    {
      assert goals[..i + 1][..i] == goals[..i];
      var g := goals[i];
      if g.startDate <= day {
        possible := possible + 1;
        if StatusOn(logs, day, g.id) == Some(Done) {
          done := done + 1;
        }
      }
    }
    assert goals[..|goals|] == goals;
  }

  /** The 366 days from 365 days ago to today, oldest first. */
  method Heatmap(goals: seq<Goal>, logs: GoalLogs, today: int) returns (cells: seq<DayActivity>)
    ensures |cells| == 366
    ensures forall i :: 0 <= i < 366 ==> cells[i] == ActivityOf(goals, logs, today - 365 + i)
  {
    cells := [];
    var day := today - 365;
    while day <= today
      invariant today - 365 <= day <= today + 1
      invariant |cells| == day - (today - 365)
      invariant forall i :: 0 <= i < |cells| ==> cells[i] == ActivityOf(goals, logs, today - 365 + i)
    {
      var possible, done := CountGoalsOn(goals, logs, day);
      var intensity := 0;
      if possible > 0 && done > 0 {
        if 4 * done <= possible {
          intensity := 1;
        } else if 4 * done <= 2 * possible {
          intensity := 2;
        } else if 4 * done <= 3 * possible {
          intensity := 3;
        } else {
          intensity := 4;
        }
      }
      cells := cells + [DayActivity(day, done, intensity)];
      day := day + 1;
    }
  }

  /** A day before every start date is blank; a day with every started goal done is darkest. */
  lemma HeatmapExtremes(goals: seq<Goal>, logs: GoalLogs, day: int)
    ensures StartedOn(goals, day) == 0 ==> ActivityOf(goals, logs, day).intensity == 0
    ensures 0 < StartedOn(goals, day) == DoneOn(goals, logs, day) ==> ActivityOf(goals, logs, day).intensity == 4
  {
  }

  // ----------------------------------------------------------------- trend

  /** One point of the 7-day trend: the weekday shown, a 0/100 score per goal and the day's overall percentage. */
  datatype TrendPoint = TrendPoint(weekday: nat, perGoal: seq<nat>, overall: nat)

  /** A goal scores 100 on a day it was started and done, 0 otherwise. */
  function GoalScore(g: Goal, logs: GoalLogs, day: int): (r: nat)
    ensures r == 0 || r == 100
    ensures r == 100 <==> g.startDate <= day && StatusOn(logs, day, g.id) == Some(Done)
  {
    if day < g.startDate then 0
    else if StatusOn(logs, day, g.id) == Some(Done) then 100 else 0
  }

  function Scores(goals: seq<Goal>, logs: GoalLogs, day: int): (r: seq<nat>)
    ensures |r| == |goals|
    ensures forall i :: 0 <= i < |goals| ==> r[i] == GoalScore(goals[i], logs, day)
  {
    seq(|goals|, i requires 0 <= i < |goals| => GoalScore(goals[i], logs, day))
  }

  function Sum(xs: seq<nat>): nat {
    if xs == [] then 0 else Sum(xs[..|xs| - 1]) + xs[|xs| - 1]
  }

  function TrendPointOf(goals: seq<Goal>, logs: GoalLogs, day: int): TrendPoint {
    var active := StartedOn(goals, day);
    TrendPoint(JsWeekday(day), Scores(goals, logs, day),
               if active > 0 then Percent(DoneOn(goals, logs, day), active) else 0)
  }

  /** The per-goal scores add up to 100 per started goal done that day. */
  lemma {:induction false} ScoresSum(goals: seq<Goal>, logs: GoalLogs, day: int)
    ensures Sum(Scores(goals, logs, day)) == 100 * DoneOn(goals, logs, day)
  {
    if goals != [] {
      var n := |goals| - 1;
      ScoresSum(goals[..n], logs, day);
      assert Scores(goals, logs, day)[..n] == Scores(goals[..n], logs, day);
    }
  }

  /**
   * The overall figure is the per-goal score averaged over the started goals,
   * rounded to the nearest integer, and lies in [0, 100].
   */
  lemma TrendOverallIsMeanScore(goals: seq<Goal>, logs: GoalLogs, day: int)
    requires StartedOn(goals, day) > 0
    ensures var p := TrendPointOf(goals, logs, day);
      p.overall == RoundDiv(Sum(p.perGoal), StartedOn(goals, day)) && p.overall <= 100
  {
    ScoresSum(goals, logs, day);
  }

  method TrendPointFor(goals: seq<Goal>, logs: GoalLogs, day: int) returns (p: TrendPoint)
    ensures p == TrendPointOf(goals, logs, day)
  {
    var perGoal: seq<nat> := [];
    var dailyDone, dailyActive := 0, 0;
    for i := 0 to |goals|
      invariant |perGoal| == i
      invariant forall k :: 0 <= k < i ==> perGoal[k] == GoalScore(goals[k], logs, day)
      invariant dailyActive == StartedOn(goals[..i], day)
      invariant dailyDone == DoneOn(goals[..i], logs, day)
    {
      assert goals[..i + 1][..i] == goals[..i];
      var g := goals[i];
      if day < g.startDate {
        perGoal := perGoal + [0];
      } else {
        dailyActive := dailyActive + 1;
        var isDone := StatusOn(logs, day, g.id) == Some(Done);
        if isDone {
          dailyDone := dailyDone + 1;
        }
        perGoal := perGoal + [if isDone then 100 else 0];
      }
    }
    assert goals[..|goals|] == goals;
    var overall := if dailyActive > 0 then Percent(dailyDone, dailyActive) else 0;
    p := TrendPoint(JsWeekday(day), perGoal, overall);
  }

  /** The 7 days from six days ago to today, oldest first. */
  method Trend(goals: seq<Goal>, logs: GoalLogs, today: int) returns (points: seq<TrendPoint>)
    ensures |points| == 7
    ensures forall i :: 0 <= i < 7 ==> points[i] == TrendPointOf(goals, logs, today - 6 + i)
  {
    points := [];
    var day := today - 6;
    while day <= today
      invariant today - 6 <= day <= today + 1
      invariant |points| == day - (today - 6)
      invariant forall i :: 0 <= i < |points| ==> points[i] == TrendPointOf(goals, logs, today - 6 + i)
    {
      var p := TrendPointFor(goals, logs, day);
      points := points + [p];
      day := day + 1;
    }
  }

  // ---------------------------------------------------------- global stats

  datatype GlobalStats = GlobalStats(totalActiveDays: nat, globalSuccessRate: nat, bestStreak: nat)

  function SumRates(stats: seq<HabitStat>): nat {
    if stats == [] then 0 else SumRates(stats[..|stats| - 1]) + stats[|stats| - 1].completionRate
  }

  /** `Math.max(...longest streaks, 0)`: the largest longest streak, 0 with no habits. */
  function BestStreak(stats: seq<HabitStat>): (r: nat)
    ensures forall i :: 0 <= i < |stats| ==> stats[i].longestStreak <= r
    ensures r == 0 || exists i :: 0 <= i < |stats| && stats[i].longestStreak == r
  {
    if stats == [] then 0
    else
      var rest := BestStreak(stats[..|stats| - 1]);
      assert forall i :: 0 <= i < |stats| - 1 ==> stats[..|stats| - 1][i] == stats[i];
      Max(rest, stats[|stats| - 1].longestStreak)
  }

  /** Days with any log entry, the rounded mean 30-day rate, the best longest streak. */
  function GlobalStatsOf(stats: seq<HabitStat>, logs: GoalLogs): GlobalStats {
    GlobalStats(|logs|, if |stats| > 0 then RoundDiv(SumRates(stats), |stats|) else 0, BestStreak(stats))
  }

  lemma {:induction false} SumRatesBound(stats: seq<HabitStat>)
    requires forall i :: 0 <= i < |stats| ==> stats[i].completionRate <= 100
    ensures SumRates(stats) <= 100 * |stats|
  {
    if stats != [] {
      var n := |stats| - 1;
      assert forall i :: 0 <= i < n ==> stats[..n][i] == stats[i];
      SumRatesBound(stats[..n]);
    }
  }

  /** The global success rate of rates in [0, 100] is itself in [0, 100]. */
  lemma GlobalRateBound(stats: seq<HabitStat>, logs: GoalLogs)
    requires forall i :: 0 <= i < |stats| ==> stats[i].completionRate <= 100
    ensures GlobalStatsOf(stats, logs).globalSuccessRate <= 100
  {
    SumRatesBound(stats);
    if |stats| > 0 {
      var r := RoundDiv(SumRates(stats), |stats|);
      MulMonotone(2 * |stats|, 101, r);
    }
  }

  /** Everything `useHabitStats` returns. */
  datatype HabitStatsResult = HabitStatsResult(
    habitStats: seq<HabitStat>, heatmapData: seq<DayActivity>, trendData: seq<TrendPoint>, globalStats: GlobalStats)

  method UseHabitStats(goals: seq<Goal>, logs: GoalLogs, today: int) returns (r: HabitStatsResult)
    ensures |r.habitStats| == |goals|
    ensures forall i :: 0 <= i < |goals| ==> r.habitStats[i] == HabitStatOf(goals[i], logs, today)
    ensures |r.heatmapData| == 366
    ensures forall i :: 0 <= i < 366 ==> r.heatmapData[i] == ActivityOf(goals, logs, today - 365 + i)
    ensures |r.trendData| == 7
    ensures forall i :: 0 <= i < 7 ==> r.trendData[i] == TrendPointOf(goals, logs, today - 6 + i)
    ensures r.globalStats == GlobalStatsOf(r.habitStats, logs)
    ensures r.globalStats.globalSuccessRate <= 100
  {
    var stats := ComputeHabitStats(goals, logs, today);
    var heat := Heatmap(goals, logs, today);
    var trend := Trend(goals, logs, today);
    forall i | 0 <= i < |stats| ensures stats[i].completionRate <= 100 {
      RecentRateBounds(logs, goals[i].id, goals[i].startDate, today);
    }
    GlobalRateBound(stats, logs);
    r := HabitStatsResult(stats, heat, trend, GlobalStatsOf(stats, logs));
  }
}
