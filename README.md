# Habit and reading statistics engine — a verified model

This project models, in Dafny, the client-side statistics of a personal habit
and reading tracker: the streaks, completion rates, heatmap and trend computed
for each habit; the per-habit analysis of the statistics page (window, best and
current streak, worst negative streak, broken streaks, weekday breakdown, habit
ranking); the reading tracker (its record map, status toggling and monthly
figures) and the full reading statistics (streaks, weekday extremes, the gap
between sessions, the four-week trend and the per-year, per-month breakdown);
the month grids of the habit and reading calendars; the worst-streak panel; the
long-term goal statistics page; the mood/energy matrix; the dashboard's monthly
reading card; and the monthly reading goal.

How the model is put together:

- **Dates** are integer day numbers counted from 1970-01-01. A small calendar
  module (year and month boundaries, leap years, weekdays, the week numbering
  of ISO 8601) gives them meaning; the JavaScript weekday of day `d` is
  `(d + 4) % 7`, Monday-first indices are `(d + 3) % 7`.
- **Logs** are maps from days to statuses (`Done | Missed | Skipped` for habits,
  `Done | Missed` for reading); an absent key is the source's missing entry.
- **Rounding**: the source's percentages are `Math.round((a / b) * 100)` on
  double-precision numbers. The model rounds the exact ratio instead:
  `(200a + b) / (2b)` in integer arithmetic, with the usual half-unit bracket
  proved for it. The two agree except where the exact percentage ends in .5
  and the double product falls just below it (see "Left out").
- **Streaks** are described once, in a shared module over sequences of steps
  (`Inc`, `Hold`, `Reset`): the longest streak is the longest unbroken run and
  the current streak is the trailing run. The loops of each hook are methods
  proved equal to these specifications.
- **State that the source keeps in React hooks** (the reading records, the
  monthly goal) is a class whose methods update fields and state the whole
  new state.
- The weekly reading breakdown groups days by ISO week number within the
  calendar year, as the source does; the lemma `ReadingYears.WeekOneSpansTheYear`
  records that week number 1 of a year can then hold days from both its first
  and its last week.

## Model

| member | source | states |
|---|---|---|
| Habits.StatusOn | src/hooks/useHabitStats.ts:58 | `logs[day]?.[id]` is present exactly when the day has an entry for the habit, and then it is that entry |
| Rounding.RoundDiv | src/hooks/useHabitStats.ts:234 | `Math.round(num / den)` for non-negative operands: the result is within half a unit of the exact quotient, halves rounding up |
| Rounding.Percent | src/hooks/useHabitStats.ts:151 | `Math.round(part / whole * 100)`: at most 100 when the part is within the whole, 0 for no part, 100 for the whole |
| Rounding.PercentBracket | src/hooks/useHabitStats.ts:151 | the rounded percentage is within half a point of the exact one |
| Rounding.PercentMonotone | src/hooks/useHabitStats.ts:151 | a larger part of the same whole never gives a lower percentage |
| Rounding.PercentCrossMonotone | src/hooks/useHabitStats.ts:151 | a larger exact ratio never gives a lower rounded percentage, whatever the wholes |
| Runs.Incs | src/hooks/useHabitStats.ts:120-121 | the done days counted by a pass are at most the days it visits |
| Runs.IncsAppend | src/hooks/useHabitStats.ts:115-130 | done days of two consecutive stretches add up |
| Runs.StepPrefix | src/hooks/useHabitStats.ts:120-129 | one step of the streak pass: done extends the running streak, skipped keeps it, missed or unmarked records the best so far and resets to 0 |
| Runs.BestIsLongestStreak | src/hooks/useHabitStats.ts:112-132 | the longest streak bounds the done days of every stretch without a reset and equals that of some such stretch |
| Runs.TailAtMostBest | src/hooks/useHabitStats.ts:131 | the streak still running at the end of the pass is at most the longest streak |
| Runs.BestAtMostIncs | src/hooks/useHabitStats.ts:112-132 | the longest streak is at most the total number of done days |
| Runs.LeadRunIsPrefix | src/hooks/useHabitStats.ts:79-110 | a run counted from the start of the pass is the done days of an unbroken prefix |
| Runs.LeadRunAtMostBest | src/hooks/useHabitStats.ts:79-132 | a run counted from any point of the pass is at most the longest streak |
| Runs.LeadRunUntilReset | src/hooks/useHabitStats.ts:97-108 | the run from the start stops at the first reset and counts the done days before it |
| HabitStats.CurrentStreak | src/hooks/useHabitStats.ts:53-110 | (about `CurrentStreakOf`) the backward walk returns the current streak: today done adds one, today missed gives 0, today unmarked defers to yesterday; before the start date, a missed or unmarked day ends the walk, skipped days neither count nor break |
| HabitStats.LongestStreakAndTotal | src/hooks/useHabitStats.ts:112-132 | the pass from today back to the start date returns the longest run of done days (skipped freezes, missed or unmarked resets) and the number of done days |
| HabitStats.BackSteps | src/hooks/useHabitStats.ts:114-115 | the pass visits exactly `max(0, today - start + 1)` days |
| HabitStats.RecentCompletionRate | src/hooks/useHabitStats.ts:134-151 | (about `RecentRateOf`) the rate is the rounded percentage of done days in the window from the later of the start date and 29 days ago up to today, 0 when that window is empty |
| HabitStats.DoneDaysIn | src/hooks/useHabitStats.ts:144-148 | done days counted in an interval never exceed its length |
| HabitStats.ComputeHabitStat | src/hooks/useHabitStats.ts:34-162 | one habit's record carries its id, title, colour, current streak, longest streak, total done days and recent rate |
| HabitStats.ComputeHabitStats | src/hooks/useHabitStats.ts:34 | one record per goal, in the goals' order |
| HabitStats.NotYetStarted | src/hooks/useHabitStats.ts:44-45 | a goal starting after today has no valid days, no longest streak, no done days and rate 0 |
| HabitStats.TodayDecides | src/hooks/useHabitStats.ts:60-64 | a missed today makes the current streak 0; a done today makes it at least 1 |
| HabitStats.WalkBackReadsOnlyValidDays | src/hooks/useHabitStats.ts:83 | the backward walk depends only on the logs from the start date onward |
| HabitStats.WalkBackSteps | src/hooks/useHabitStats.ts:88-108 | one day of the walk: skipped keeps the count, done adds one, missed or unmarked stops at 0 |
| HabitStats.BackStepsShift | src/hooks/useHabitStats.ts:115-118 | the pass from today is today's step followed by the pass from yesterday |
| HabitStats.WalkBackIsLeadRun | src/hooks/useHabitStats.ts:79-110 | (about `WalkBack`) the backward walk counts exactly the leading unbroken run of the longest-streak pass |
| HabitStats.StreakOrder | src/hooks/useHabitStats.ts:38-132 | current streak <= longest streak <= total done days <= days since start |
| HabitStats.RecentRateBounds | src/hooks/useHabitStats.ts:136-151 | (about `RecentRateOf`) the rate is at most 100, is 0 for a goal that has not started, and its window spans at most 30 days |
| HabitStats.StartedOn | src/hooks/useHabitStats.ts:174-180 | the goals active on a day are at most all goals |
| HabitStats.DoneOn | src/hooks/useHabitStats.ts:181 | the goals done on a day are among those active that day |
| HabitStats.Intensity | src/hooks/useHabitStats.ts:184-191 | heat level 0..4; 0 exactly when nothing was done or no goal was active; otherwise level r means a done share in ((r-1)/4, r/4], 4 above three quarters |
| HabitStats.IntensityMonotone | src/hooks/useHabitStats.ts:184-191 | more done goals never lower the heat level |
| HabitStats.CountGoalsOn | src/hooks/useHabitStats.ts:171-182 | the loop counts the goals active on the day and those done |
| HabitStats.Heatmap | src/hooks/useHabitStats.ts:164-198 | 366 cells, one per day from 365 days ago up to today, each with that day's done count and heat level |
| HabitStats.HeatmapExtremes | src/hooks/useHabitStats.ts:184-191 | no active goal gives level 0; all active goals done gives level 4 |
| HabitStats.GoalScore | src/hooks/useHabitStats.ts:213-223 | a goal scores 100 on a day exactly when it has started and is done, else 0 |
| HabitStats.Scores | src/hooks/useHabitStats.ts:211-224 | one score per goal, in the goals' order |
| HabitStats.ScoresSum | src/hooks/useHabitStats.ts:218-223 | the per-goal scores add up to 100 per goal done that day |
| HabitStats.TrendOverallIsMeanScore | src/hooks/useHabitStats.ts:226 | the overall figure is the rounded mean of the active goals' scores, at most 100 |
| HabitStats.TrendPointFor | src/hooks/useHabitStats.ts:204-229 | the loop builds one day's trend point: weekday, per-goal scores and overall percentage |
| HabitStats.Trend | src/hooks/useHabitStats.ts:200-229 | seven points, one per day from six days ago up to today |
| HabitStats.BestStreak | src/hooks/useHabitStats.ts:244 | the best streak bounds every habit's longest streak and is one of them (0 with no habits) |
| HabitStats.SumRatesBound | src/hooks/useHabitStats.ts:234 | the summed rates are at most 100 per habit |
| HabitStats.GlobalRateBound | src/hooks/useHabitStats.ts:233-235 | (about `GlobalStatsOf`) the global success rate is at most 100 |
| HabitStats.UseHabitStats | src/hooks/useHabitStats.ts:27-249 | the hook's result: per-habit records, 366 heatmap cells, 7 trend points and the global figures (active days = logged dates, rounded mean rate at most 100, best streak) |
| SingleGoal.RangeEnd | src/pages/Stats.tsx:73-74 | the range ends at the goal's end date when it has one and it is not later than today, and at today otherwise |
| SingleGoal.Window | src/pages/Stats.tsx:76-83 | one entry per day of the range, start and end included |
| SingleGoal.TalliesFit | src/pages/Stats.tsx:86-88 | done days plus missed days never exceed the days of the range |
| SingleGoal.BrokenListFacts | src/pages/Stats.tsx:119-124 | every recorded broken streak is dated on a not-done day of the range, is longer than two days, equals the run of done days just before that day, and entries are in date order |
| SingleGoal.LastFiveNewestFirst | src/pages/Stats.tsx:208 | at most five entries: the last five broken streaks, newest first |
| SingleGoal.ScanStreaks | src/pages/Stats.tsx:106-138 | the scan yields the best done streak, the broken-streak list, the worst run of missed or unmarked days (skipped days neither extend nor end it) and its start: a missed or unmarked day, the first of the first longest run, since only a strictly longer run replaces it |
| SingleGoal.WorstRunUnique | src/pages/Stats.tsx:113-138 | the recorded start of the worst run is determined: two days that both meet its description are the same day |
| SingleGoal.DoneScanStep | src/pages/Stats.tsx:109-124 | one step of the done-streak half of the scan keeps its invariant for each of the four cases |
| SingleGoal.NegScanStep | src/pages/Stats.tsx:113-130 | one step of the negative-streak half: a done day closes the run and records it when it is the worst so far, a missed or unmarked day opens or extends it, a skipped day leaves it alone |
| SingleGoal.ScanEnd | src/pages/Stats.tsx:134-138 | the final check records the run still open at the end when it is the worst |
| SingleGoal.TrailingDone | src/pages/Stats.tsx:140-144 | the current streak is the number of done days at the end of the range, stopping at the first day that is not done |
| SingleGoal.TrailingAtMostBest | src/pages/Stats.tsx:140-144 | the current streak never exceeds the best streak |
| SingleGoal.MondayIndex | src/pages/Stats.tsx:151-152 | Monday is bucket 0 and Sunday bucket 6 |
| SingleGoal.WeekdayBucketsPartition | src/pages/Stats.tsx:147-155 | the seven totals add up to the days of the range, the seven done counts to the done days, and each done count is within its total |
| SingleGoal.WeekdayBuckets | src/pages/Stats.tsx:147-155 | the two seven-slot arrays hold, per weekday, the done days and all days of the range |
| SingleGoal.Performance | src/pages/Stats.tsx:157-162 | one entry per weekday with its total, its done count, and a rate at most 100 that is 0 for a weekday without days |
| SingleGoal.WorstDay | src/pages/Stats.tsx:164-168 | the worst day, if any, has more than two days and a rate below 100; no weekday with more than two days has a lower rate; among equal rates the first one wins; none means the 'N/A' placeholder |
| SingleGoal.YearCellOf | src/pages/Stats.tsx:176-182 | count 1 for a done day, -1 for a missed one, 0 otherwise; intensity 1, 0.5 or 0 accordingly |
| SingleGoal.YearHeatmapCoversYear | src/pages/Stats.tsx:170-183 | (about `YearHeatmap`) the heatmap has one cell per consecutive day of today's year, January 1 to December 31, today included |
| SingleGoal.Trend31 | src/pages/Stats.tsx:185-199 | 31 points, from 30 days ago up to today |
| SingleGoal.Trend31Sum | src/pages/Stats.tsx:191-199 | the trend values add up to 100 per done day of the last 31 days |
| SingleGoal.DoneStepsCount | src/pages/Stats.tsx:109-110 | the done-streak steps count exactly the done days |
| SingleGoal.StreakFigures | src/pages/Stats.tsx:91-144 | current <= best <= done days; the current streak is the trailing done run; the worst negative run is the longest, has no start exactly when it is 0, and otherwise starts on the first missed or unmarked day of the first longest run |
| SingleGoal.WeekdayFigures | src/pages/Stats.tsx:146-162 | seven weekday entries with their bucket counts and rates at most 100 |
| SingleGoal.SingleGoalStatsFor | src/pages/Stats.tsx:67-216 | the single-goal panel: totals, rate at most 100, streak figures, last five broken streaks, worst negative streak with the first day of the first longest run, weekday performance, worst day, year heatmap and 31-day trend, each tied to its definition above |
| HabitRanking.TitleLeTotal | src/pages/Stats.tsx:60 | any two titles are ordered one way or the other |
| HabitRanking.TitleLeTransitive | src/pages/Stats.tsx:60 | the title order is transitive |
| HabitRanking.PrecedesTotal | src/pages/Stats.tsx:50-60 | each sort criterion orders any two habits |
| HabitRanking.PrecedesTransitive | src/pages/Stats.tsx:50-60 | each sort criterion is transitive |
| HabitRanking.SortedHabits | src/pages/Stats.tsx:48-64 | the sorted list is a permutation of the habit records |
| HabitRanking.SortedHabitsOrdered | src/pages/Stats.tsx:51-60 | the list is ordered by the criterion: highest rate, best streak or current streak first, or titles ascending |
| HabitRanking.SortedHabitsStable | src/pages/Stats.tsx:49-60 | habits that tie on the criterion keep their original relative order |
| HabitRanking.WorstKeepsOrder | src/pages/Stats.tsx:55-56 | sorting by worst streak, a field the records lack, leaves the list as it was |
| HabitRanking.BestHabit | src/pages/Stats.tsx:218-221 | none for no habits; otherwise a habit with the highest completion rate, the last one among equals |
| Reading.StatusOf | src/hooks/useReadingTracker.ts:41-43 | a day reads as unmarked exactly when it has no record, and otherwise as its recorded status |
| Reading.SetStatusIn | src/hooks/useReadingTracker.ts:49-55 | after setting, the day reads as the new status (unmarked removes the entry) and every other day is unchanged |
| Reading.NextStatus | src/hooks/useReadingTracker.ts:86-92 | a toggle always changes the status: unmarked to done, done to missed, missed to unmarked |
| Reading.ThreeTogglesRestoreStatus | src/hooks/useReadingTracker.ts:82-95 | three toggles bring a status back to where it was |
| Reading.ToggleIn | src/hooks/useReadingTracker.ts:82-95 | a toggle moves the day one step along the cycle and leaves every other day alone |
| Reading.SameStatusesSameRecords | src/hooks/useReadingTracker.ts:41-43 | two record maps that read the same on every day are equal |
| Reading.ThreeTogglesRestoreRecords | src/hooks/useReadingTracker.ts:45-95 | toggling one day three times restores the records exactly |
| Reading.ReadingTracker.constructor | src/hooks/useReadingTracker.ts:11-12 | the tracker starts with no records and loading in progress |
| Reading.ReadingTracker.SetStatus | src/hooks/useReadingTracker.ts:45-55 | the records become the old ones with that day set (or removed) |
| Reading.ReadingTracker.ToggleStatus | src/hooks/useReadingTracker.ts:82-95 | the records become the old ones with that day toggled |
| Reading.ReadingTracker.GetStats | src/hooks/useReadingTracker.ts:97-175 | the figures equal the summary of the current records |
| Reading.ReadingTracker.CurrentStreak | src/hooks/useReadingTracker.ts:150-165 | (about `CurrentStreakOf`) the walk counts done days back from today, stepping over an unmarked today |
| Reading.Tally | src/hooks/useReadingTracker.ts:111-125 | a count over the listed days never exceeds their number |
| Reading.TallyAppend | src/hooks/useReadingTracker.ts:111-125 | counts over two lists of days add up |
| Reading.TallyOfRecords | src/hooks/useReadingTracker.ts:111-125 | counting over all recorded days gives the number of days with that status in scope |
| Reading.ScopedAtMostAll | src/hooks/useReadingTracker.ts:116-123 | a month (or any narrower scope) count is at most the overall count |
| Reading.DoneAndMissedAreAll | src/hooks/useReadingTracker.ts:114-124 | done days plus missed days in a scope are all recorded days in that scope |
| Reading.TallyStatuses | src/hooks/useReadingTracker.ts:111-125 | one pass counts done and missed days, overall and in the current month |
| Reading.RunBackAllDone | src/hooks/useReadingTracker.ts:154-165 | (about `RunBack`) every day the walk counted is done, and the day where it stopped is not |
| Reading.DoneDates | src/hooks/useReadingTracker.ts:128-130 | the done days in ascending order: exactly the done days in scope, each once |
| Reading.LongestRunBounds | src/hooks/useReadingTracker.ts:132-148 | the longest run is 0 exactly when nothing is done and at most the done count |
| Reading.CurrentAtMostLongest | src/hooks/useReadingTracker.ts:132-165 | the current streak never exceeds the longest run |
| Reading.SummaryFacts | src/hooks/useReadingTracker.ts:97-175 | (about `SummaryOf`) done and missed totals count those days and together every record; month figures are within the totals; the longest run is 0 iff nothing is done, at most the done total and at least the current streak |
| Reading.LongestRunOf | src/hooks/useReadingTracker.ts:132-148 | the pass over the sorted done dates returns the longest run, a one-day gap extending the run and any other gap restarting it |
| DayRuns.SortedDays | src/hooks/useReadingTracker.ts:128-130 | the days of a set in ascending order, each once |
| DayRuns.RunEndingAt | src/hooks/useReadingTracker.ts:136-145 | the run ending at an entry is at least 1 and at most the entries so far |
| DayRuns.LongestRunIsLongestWindow | src/hooks/useReadingTracker.ts:132-148 | the longest run is 0 only for no dates, is at most their number, bounds every window of consecutive dates and equals the length of one |
| DayRuns.DaysInARowAtMostLongest | src/hooks/useReadingTracker.ts:132-148 | k done days in a row are at most the longest run |
| DayRuns.SubsetLongestRun | src/hooks/useReadingTracker.ts:132-148 | fewer done days never give a longer run |
| ReadingStats.PercentOrZero | src/hooks/useReadingStats.ts:139 | 0 for an empty whole, otherwise the rounded percentage, at most 100 when the part is within the whole |
| ReadingStats.CalculateStreak | src/hooks/useReadingStats.ts:89-109 | the pass over sorted reading days returns the longest run of consecutive days (0 for none) |
| ReadingStats.CurrentStreakFrom | src/hooks/useReadingStats.ts:142-167 | a missed today gives 0; otherwise the done days counted back from today, or from yesterday when today is unmarked |
| ReadingStats.FirstRecord | src/hooks/useReadingStats.ts:170-171 | none exactly without records; otherwise the earliest recorded day |
| ReadingStats.LastRecord | src/hooks/useReadingStats.ts:170-172 | none exactly without records; otherwise the latest recorded day |
| ReadingStats.ConsistencyAtMostHundred | src/hooks/useReadingStats.ts:173-180 | with no record after today, at least one day has passed since the first record, the score is at most 100, and it is 100 when every day since then is marked |
| ReadingStats.WeekdayPercents | src/hooks/useReadingStats.ts:183-203 | seven figures, each a percentage or -1 for a weekday without records |
| ReadingStats.BestAmong | src/hooks/useReadingStats.ts:196-209 | the best weekday has the highest percentage, the first one among equals; none only when no weekday has records |
| ReadingStats.WorstAmong | src/hooks/useReadingStats.ts:197-214 | the worst weekday has the lowest percentage among weekdays with records, the first one among equals |
| ReadingStats.BestAndWorstDays | src/hooks/useReadingStats.ts:194-221 | the best day is missing only without records; a worst day that is shown is another weekday with a strictly lower percentage |
| ReadingStats.WeekdayBuckets | src/hooks/useReadingStats.ts:183-192 | the seven buckets hold each weekday's done days and recorded days |
| ReadingStats.TallyWeekdays | src/hooks/useReadingStats.ts:187-192 | one pass counts done and missed days per weekday |
| ReadingStats.WeekdayTallies | src/hooks/useReadingStats.ts:187-192 | a weekday's done and missed counts give its bucket's done count and total |
| ReadingStats.BestAndWorstWeekday | src/hooks/useReadingStats.ts:194-221 | the scan yields the best and worst weekday as specified |
| ReadingStats.AverageGapOf | src/hooks/useReadingStats.ts:223-234 | no average with fewer than two reading days; otherwise the mean gap, in tenths of a day |
| ReadingStats.AverageGap | src/hooks/useReadingStats.ts:224-234 | the loop summing the gaps yields that average |
| ReadingStats.AverageGapAtLeastOneDay | src/hooks/useReadingStats.ts:225-234 | the mean gap is at least one day, and exactly one day when the reading days are consecutive |
| ReadingStats.MonthCountAtMostDays | src/hooks/useReadingStats.ts:239-242 | a month has no more reading days than days |
| ReadingStats.PredictionFacts | src/hooks/useReadingStats.ts:236-251 | (about `PredictionOf`) the prediction always exists, is never below the days already read, needs no negative days, and does not exceed the month's length while no later day is counted |
| ReadingStats.ProjectionBounds | src/hooks/useReadingStats.ts:246-247 | projecting the reading rate to the month's end lies between the days read and the month's length |
| ReadingStats.WeekDaysCounted | src/hooks/useReadingStats.ts:267-273 | a week counts between one and seven days |
| ReadingStats.DoneInRange | src/hooks/useReadingStats.ts:267-273 | reading days in a range are at most its length |
| ReadingStats.WeekPointFacts | src/hooks/useReadingStats.ts:255-285 | each week starts on a Sunday, the current week counts only up to today, days read are within the days counted, the percentage is at most 100 |
| ReadingStats.StartIsSunday | src/hooks/useReadingStats.ts:257 | the week start is a Sunday |
| ReadingStats.RawWeeks | src/hooks/useReadingStats.ts:255 | four weeks, oldest first |
| ReadingStats.TrendsCompareNeighbours | src/hooks/useReadingStats.ts:287-295 | the oldest week is stable; another week is up exactly when its percentage rose by more than 10 points, down exactly when it fell by more than 10 |
| ReadingStats.TrendAt | src/hooks/useReadingStats.ts:288-294 | each week's trend compares its percentage with the week before |
| ReadingStats.CountWeek | src/hooks/useReadingStats.ts:264-273 | the loop counts the week's days up to today and the reading days among them |
| ReadingStats.MarkTrends | src/hooks/useReadingStats.ts:287-295 | the loop marks the trends as specified |
| ReadingStats.WeekPoint | src/hooks/useReadingStats.ts:256-284 | one week's point as specified |
| ReadingStats.WeeklyTrend | src/hooks/useReadingStats.ts:253-295 | the four weeks with their trends |
| ReadingStats.WeeklyTrendOf | src/hooks/useReadingStats.ts:253-295 | four points |
| ReadingStats.OverallHeadline | src/hooks/useReadingStats.ts:135-313 | (about `OverallOf`) every record is read or missed, the percentage is at most 100, current <= longest <= days read, longest is 0 exactly without reading days, and first <= last record |
| ReadingStats.OverallStatsFor | src/hooks/useReadingStats.ts:135-313 | the overall figures as specified |
| ReadingYears.MonthlyBreakdown | src/hooks/useReadingStats.ts:328-350 | twelve months, January to December |
| ReadingYears.MonthlyBreakdownFor | src/hooks/useReadingStats.ts:329-350 | the loop builds the twelve months' figures |
| ReadingYears.MonthFor | src/hooks/useReadingStats.ts:331-349 | one month's reading days, missed days, total, percentage and longest run |
| ReadingYears.EarlyMonthsStep | src/hooks/useReadingStats.ts:330-337 | adding a month adds exactly that month's days |
| ReadingYears.MonthPrefixSums | src/hooks/useReadingStats.ts:330-337 | the first m months' counts add up to the days of those months |
| ReadingYears.MonthsSumToYear | src/hooks/useReadingStats.ts:318-337 | the twelve months' reading and missed days add up to the year's |
| ReadingYears.WeekNumbers | src/hooks/useReadingStats.ts:353 | the distinct week numbers of the year's records, ascending |
| ReadingYears.WeeksOf | src/hooks/useReadingStats.ts:354-368 | one entry per listed week number |
| ReadingYears.WeeklyBreakdownFor | src/hooks/useReadingStats.ts:352-368 | (about `WeeklyBreakdown`) the loop builds the weekly breakdown |
| ReadingYears.WeeksFor | src/hooks/useReadingStats.ts:354-368 | the loop builds one entry per week number |
| ReadingYears.WeekFor | src/hooks/useReadingStats.ts:355-367 | the pass over the marked days counting the week's read and missed days gives the week's entry: the days read and missed in that ISO week of the year, their total and percentage |
| ReadingYears.WeeksHaveData | src/hooks/useReadingStats.ts:352-368 | every listed week has a number in 1..53, has data, and the numbers ascend |
| ReadingYears.DayIsCounted | src/hooks/useReadingStats.ts:318-324 | a recorded day makes its period's total positive |
| ReadingYears.WeekOneSpansTheYear | src/hooks/useReadingStats.ts:353-355 | 2024-01-01 and 2024-12-30 both fall in 2024 and in week 1, so the weekly breakdown of 2024 puts them in the same bucket |
| ReadingYears.MonthsWithData | src/hooks/useReadingStats.ts:370 | exactly the months with marked days |
| ReadingYears.WeeksWithData | src/hooks/useReadingStats.ts:378 | the weeks with data are a sub-list of the weeks |
| ReadingYears.BestMonthIn | src/hooks/useReadingStats.ts:371-373 | a month with the highest percentage, the last one among equals |
| ReadingYears.WorstMonthIn | src/hooks/useReadingStats.ts:374-376 | a month with the lowest percentage, the last one among equals |
| ReadingYears.Years | src/hooks/useReadingStats.ts:316 | the distinct years of the records, ascending |
| ReadingYears.StatsOfYears | src/hooks/useReadingStats.ts:317 | one entry per year |
| ReadingYears.FindYear | src/hooks/useReadingStats.ts:425 | none exactly when no entry has that year; otherwise an entry of that year |
| ReadingYears.CurrentYearFound | src/hooks/useReadingStats.ts:425 | this year's figures exist exactly when some record falls in this year, and then they are its figures |
| ReadingYears.FindInStatsOfYears | src/hooks/useReadingStats.ts:425 | a year is found exactly when listed, with its own figures |
| ReadingYears.YearStatsFacts | src/hooks/useReadingStats.ts:317-400 | a year with records has a best and a worst month with data, the worst no better than the best, a positive total, a percentage at most 100, a longest run within its reading days, above every month's and within the overall longest run |
| ReadingYears.BestAndWorstMonth | src/hooks/useReadingStats.ts:370-376 | a year with records has best and worst months with data, the best at least as good |
| ReadingYears.YearStreaks | src/hooks/useReadingStats.ts:326-339 | a year's longest run is within its reading days, at least each month's and at most the overall longest run |
| ReadingYears.MonthStreakWithinYear | src/hooks/useReadingStats.ts:326-339 | a month's longest run is at most its year's |
| ReadingYears.YearStreakWithinAll | src/hooks/useReadingStats.ts:326 | a year's longest run is at most the overall longest run |
| ReadingYears.NarrowerScopeShorterRun | src/hooks/useReadingStats.ts:326 | a narrower period never has a longer run |
| ReadingYears.AveragesDivideByListedWeeks | src/hooks/useReadingStats.ts:378-381 | every listed week has data, so the weekly average divides by all listed weeks |
| ReadingYears.CurrentMonthFacts | src/hooks/useReadingStats.ts:402-419 | the current month's total is its reading plus missed days, the percentage is at most 100, reading days fit in the month and the longest run within them |
| ReadingYears.TrackerAgreesWithStats | src/hooks/useReadingStats.ts:402-419 | the tracker's summary and the statistics agree on totals, month figures and streaks |
| ReadingYears.YearlyStatsFor | src/hooks/useReadingStats.ts:315-400 | (about `YearlyStats`) the loop builds the yearly figures |
| ReadingYears.StatsForYears | src/hooks/useReadingStats.ts:317-400 | the loop builds one entry per listed year |
| ReadingYears.StatsOfYearsStep | src/hooks/useReadingStats.ts:317 | the list of years grows one year at a time |
| ReadingYears.YearStatsFor | src/hooks/useReadingStats.ts:317-400 | one year's figures |
| Calendar.DaysInYear | src/components/HabitCalendar.tsx:30-36 | a year has 366 days exactly when it is a leap year, 365 otherwise |
| Calendar.Jan1Next | src/components/HabitCalendar.tsx:29-30 | January 1 of the next year comes a year's length later |
| Calendar.YearOf | src/hooks/useReadingStats.ts:121 | `getFullYear`: the year whose January 1 is on or before the day and whose next January 1 is after it |
| Calendar.YearOfUnique | src/hooks/useReadingStats.ts:121 | a day within a year's bounds belongs to that year |
| Calendar.DaysInMonth | src/components/HabitCalendar.tsx:30-36 | `new Date(year, month + 1, 0).getDate()`: a month has 28 to 31 days |
| Calendar.MonthLengths | src/components/HabitCalendar.tsx:29-36 | the months of a year follow each other and add up to the year |
| Calendar.DateOf | src/components/HabitCalendar.tsx:71 | `new Date(year, month, day)` lies within its month |
| Calendar.MonthOf | src/hooks/useReadingStats.ts:120 | `getMonth`: 0..11, the month whose bounds contain the day |
| Calendar.DayOfMonth | src/hooks/useReadingStats.ts:240 | `getDate`: 1 up to the month's length |
| Calendar.JsWeekday | src/hooks/useReadingStats.ts:118 | `getDay`: 0 (Sunday) to 6 |
| Calendar.IsoWeekday | src/hooks/useReadingStats.ts:83 | `getUTCDay() \|\| 7`: 1 (Monday) to 7 (Sunday) |
| Calendar.IsoWeek | src/hooks/useReadingStats.ts:81-87 | the week number, counted from the Thursday of the day's Monday-to-Sunday week, lies in 1..53 |
| Calendar.IsoWeekSharedByWeek | src/hooks/useReadingStats.ts:81-87 | the seven days from a Monday share one week number |
| CalendarGrid.StartDay | src/components/ReadingCalendar.tsx:28-30 | the blanks before day 1 are the first day's Monday-based weekday index, 0..6 |
| CalendarGrid.ColumnIsWeekday | src/components/HabitCalendar.tsx:64-71 | every day of the month lands in the column of its weekday, Monday first |
| CalendarGrid.NumRows | src/components/HabitCalendar.tsx:57-59 | `Math.ceil(totalSlots / 7)`: the fewest rows that hold all slots |
| CalendarGrid.MonthRows | src/components/HabitCalendar.tsx:57-59 | a month needs four to six rows |
| CalendarGrid.CellsFitRows | src/components/HabitCalendar.tsx:57-59 | the slots fit the rows with less than a row to spare |
| CalendarGrid.LayOut | src/components/ReadingCalendar.tsx:71-117 | `startDay` blanks, then one cell per day 1..daysInMonth with that date's content |
| CalendarGrid.IsTodayIsToday | src/components/ReadingCalendar.tsx:57-63 | day, month and year equal today's exactly when the cell's date is today |
| CalendarGrid.DateInItsMonth | src/components/ReadingCalendar.tsx:80-81 | a cell's date has the grid's year, month and day number |
| CalendarGrid.MonthOfUnique | src/hooks/useReadingStats.ts:120 | a day within a month's bounds belongs to that month |
| CalendarGrid.MonthStartMonotone | src/components/HabitCalendar.tsx:29-30 | later months start later |
| HabitCalendar.ValidHabits | src/components/HabitCalendar.tsx:76-81 | (about `ValidOn`) exactly the habits started on or before the day and not ended before it |
| HabitCalendar.ProgressOn | src/components/HabitCalendar.tsx:83-96 | completed plus missed make the marked count, at most the valid habits |
| HabitCalendar.FilterExclusive | src/components/HabitCalendar.tsx:84-86 | two exclusive filters together pick at most all elements |
| HabitCalendar.ProgressFacts | src/components/HabitCalendar.tsx:89-105 | a day without valid habits has no activity; a fully completed day has no missed habit |
| HabitCalendar.DoneHabitCounted | src/components/HabitCalendar.tsx:84 | a valid habit done that day makes the completed count positive |
| HabitCalendar.RenderDays | src/components/HabitCalendar.tsx:61-152 | blanks then one cell per day, with that day's progress and future flag, within the rows of the grid |
| HabitCalendar.EditableDays | src/components/HabitCalendar.tsx:118 | (about `Editable`) an editable day is today or, before noon, yesterday; never a future day |
| HabitCalendar.ReadOnly | src/components/HabitCalendar.tsx:202 | the details dialog is editable exactly when a day is selected and that day is editable |
| HabitCalendar.Click | src/components/HabitCalendar.tsx:110-111 | (about `CalendarGrid.IsFuture`) a click on a future day keeps the selection; any other click selects that day |
| HabitCalendar.ClicksNeverSelectFuture | src/components/HabitCalendar.tsx:110-111 | no series of clicks selects a future day |
| ReadingCalendar.RenderDays | src/components/ReadingCalendar.tsx:71-117 | blanks then one cell per day with its reading status and future flag |
| ReadingCalendar.ClickDay | src/components/ReadingCalendar.tsx:47-55 | a click on a future day changes nothing; any other click toggles that day's status |
| ReadingCalendar.FutureDaysUntouched | src/components/ReadingCalendar.tsx:90-91 | no series of clicks changes the status of a future day |
| Dashboard.MonthPercentage | src/components/Dashboard.tsx:16-19 | the month's reading percentage is the rounded share of read days among marked days, 0 with nothing marked and 100 with no missed day |
| Dashboard.MonthPercentageGrowsWithReading | src/components/Dashboard.tsx:16-19 | one more read day never lowers the month's percentage |
| Dashboard.VariantFor | src/components/Dashboard.tsx:73 | the card is a success exactly from 70%, neutral exactly in [40, 70), destructive exactly below 40 |
| Dashboard.VariantExtremes | src/components/Dashboard.tsx:16-19 | a month with no read day is shown as destructive; a month read on every marked day as a success |
| MonthlyGoal.ClampGoal | src/hooks/useMonthlyGoal.ts:33 | the saved goal lies in [1, 31]; an in-range value is kept, a smaller one becomes 1, a larger one 31 |
| MonthlyGoal.ClampIdempotent | src/hooks/useMonthlyGoal.ts:33 | clamping a clamped goal changes nothing |
| MonthlyGoal.ClampMonotone | src/hooks/useMonthlyGoal.ts:33 | a larger request never yields a smaller goal |
| MonthlyGoal.GoalState.constructor | src/hooks/useMonthlyGoal.ts:8-9 | the goal starts at 20 and loading is in progress |
| MonthlyGoal.GoalState.UpdateGoal | src/hooks/useMonthlyGoal.ts:32-49 | the goal becomes the clamped request, which is also the value saved; the loading flag is untouched |
| MonthlyGoal.GoalState.FinishLoading | src/hooks/useMonthlyGoal.ts:12-30 | a stored goal replaces the current one as read, without clamping; a missing row or failed fetch keeps it; loading ends either way |
| MoodMatrix.View | src/components/stats/MoodEnergyHabitMatrix.tsx:11-24 | the placeholder shows exactly when no habit has 5 or more days of mood data; otherwise the rows are exactly the habits with enough data |
| MoodMatrix.Alpha | src/components/stats/MoodEnergyHabitMatrix.tsx:26-32 | the tint's opacity is 90, 70, 50, 30 or 10, each exactly on its band of the rate (80, 60, 40, 20 as lower bounds) |
| MoodMatrix.AlphaMonotone | src/components/stats/MoodEnergyHabitMatrix.tsx:26-32 | a higher rate never gets a lighter tint |
| MoodMatrix.ColorIntensity | src/components/stats/MoodEnergyHabitMatrix.tsx:26-32 | the background is the base colour followed by one of the five two-digit opacities |
| MoodMatrix.TextColorFor | src/components/stats/MoodEnergyHabitMatrix.tsx:34-37 | the text is white exactly from a rate of 60 |
| MoodMatrix.WhiteOnStrongTints | src/components/stats/MoodEnergyHabitMatrix.tsx:26-37 | white text goes exactly with the two strongest tints (opacity 70 or 90) |
| MoodMatrix.RoundRate | src/components/stats/MoodEnergyHabitMatrix.tsx:87-90 | `Math.round`: the displayed percentage is within half a point of the rate, halves rounding up |
| MoodMatrix.CellFor | src/components/stats/MoodEnergyHabitMatrix.tsx:87-105 | a cell shows the rounded rate, and both its tint and its text colour are chosen from that rounded value |
| MoodMatrix.CellThresholds | src/components/stats/MoodEnergyHabitMatrix.tsx:87-105 | because colours follow the rounded value, a cell turns white from a raw rate of 59.5 and gets the strongest tint from 79.5 |
| WorstStreak.Top3Worst | src/components/stats/WorstStreakAnalysis.tsx:16-19 | at most three habits, each with a positive worst streak, taken from the input |
| WorstStreak.Top3WorstFacts | src/components/stats/WorstStreakAnalysis.tsx:16-21 | longest worst streak first; no habit left out has a longer worst streak than the third; none is chosen exactly when no habit has a worst streak |
| WorstStreak.FailureFrequency | src/components/stats/WorstStreakAnalysis.tsx:24-38 | the estimated monthly failures are at most 30, 30 at a 0% rate and 0 at 100% |
| WorstStreak.FailureFrequencyAntitone | src/components/stats/WorstStreakAnalysis.tsx:24-38 | a higher completion rate never means more estimated failures |
| WorstStreak.FailureAnalysis | src/components/stats/WorstStreakAnalysis.tsx:24-38 | one failure entry per top habit, in order, carrying its rate and estimate |
| WorstStreak.SumFailuresBound | src/components/stats/WorstStreakAnalysis.tsx:127-132 | the failures summed over n habits are at most 30n |
| WorstStreak.AverageFailuresBound | src/components/stats/WorstStreakAnalysis.tsx:127-132 | the average estimated failures shown are at most 30 |
| WorstStreak.FirstLow | src/components/stats/WorstStreakAnalysis.tsx:106 | `find`: None exactly when every habit is at 50% or more, else the first habit below 50% |
| WorstStreak.RecoveryTime | src/components/stats/WorstStreakAnalysis.tsx:41-57 | the estimated recovery time lies between 1 and the worst streak, and is 1 at a 100% rate |
| WorstStreak.RecoveryPatternsFacts | src/components/stats/WorstStreakAnalysis.tsx:41-57 | (about `RecoveryPatterns`) one recovery entry per habit with both a worst and a best streak, each estimate between 1 and that habit's worst streak, fastest first |
| WorstStreak.AverageRecoveryPositive | src/components/stats/WorstStreakAnalysis.tsx:59-61 | with any recovery entry, the average recovery time is at least one day |
| WorstStreak.FastestAreFastest | src/components/stats/WorstStreakAnalysis.tsx:63 | no habit outside the three fastest recovers faster than any of them |
| WorstStreak.StatusOf | src/components/stats/WorstStreakAnalysis.tsx:66-89 | the gap status is excellent exactly from 300%, good exactly in [150, 300), needing attention below 150 |
| WorstStreak.RoundDivAtLeast | src/components/stats/WorstStreakAnalysis.tsx:66-76 | a rounded quotient reaches a threshold exactly when the doubled numerator plus the divisor does |
| WorstStreak.StatusOfStreaks | src/components/stats/WorstStreakAnalysis.tsx:66-89 | in terms of the streaks: excellent exactly when 200·best ≥ 599·worst, good exactly when 299·worst ≤ 200·best < 599·worst |
| WorstStreak.Comparisons | src/components/stats/WorstStreakAnalysis.tsx:66-89 | at most five comparisons |
| WorstStreak.ComparisonsFacts | src/components/stats/WorstStreakAnalysis.tsx:66-89 | largest gap first; each comparison has a positive worst streak, the rounded best-to-worst percentage as its gap and the status of that gap |
| WorstStreak.Optional | src/components/stats/WorstStreakAnalysis.tsx:91-125 | a conditional suggestion is present exactly when its condition holds |
| WorstStreak.SuggestionsOf | src/components/stats/WorstStreakAnalysis.tsx:91-125 | at most four suggestions |
| WorstStreak.SuggestionParts | src/components/stats/WorstStreakAnalysis.tsx:91-125 | the suggestions are the concatenation of the four conditional parts, in the source's order |
| WorstStreak.HasKindConcat | src/components/stats/WorstStreakAnalysis.tsx:91-125 | a kind of suggestion occurs in a concatenation exactly when it occurs in one of the parts |
| WorstStreak.HasKindOptional | src/components/stats/WorstStreakAnalysis.tsx:91-125 | a conditional part holds a kind exactly when its condition holds and it is of that kind |
| WorstStreak.HasKindOfFour | src/components/stats/WorstStreakAnalysis.tsx:91-125 | a kind occurs in four concatenated parts exactly when it occurs in one of them |
| WorstStreak.PartKinds | src/components/stats/WorstStreakAnalysis.tsx:91-125 | each part holds its own kind exactly when its condition holds |
| WorstStreak.SuggestionKinds | src/components/stats/WorstStreakAnalysis.tsx:91-125 | each kind of suggestion is shown exactly when its condition holds: the worst streak is 7 or more, some top habit is below 50%, the fastest recovery takes at most 3 days, at least two habits are analysed |
| WorstStreak.SuggestionValues | src/components/stats/WorstStreakAnalysis.tsx:91-125 | the focus suggestion comes first and the general pattern last, and each shown suggestion carries the habit and figure its condition is about |
| WorstStreak.BuildSuggestions | src/components/stats/WorstStreakAnalysis.tsx:91-135 | the suggestions built step by step equal the specified list |
| WorstStreak.Analyze | src/components/stats/WorstStreakAnalysis.tsx:12-146 | the panel is empty exactly when no habit has a worst streak; otherwise every section is the one specified above |
| Reading.ReadingTracker.FinishLoading | src/hooks/useReadingTracker.ts:15-35 | fetched records replace the map, a failed fetch keeps it, and loading ends either way |
| MacroGoals.Rate | src/components/goals/MacroGoalsStats.tsx:89 | the rounded completion percentage (the KPI here, each type row on line 116 and each category row on line 146) is at most 100, 100 when every counted goal is completed, 0 when none is |
| MacroGoals.TallyOf | src/components/goals/MacroGoalsStats.tsx:99-105 | a bucket never counts more completed goals than goals, nor more goals than the list has |
| MacroGoals.TallyOfStep | src/components/goals/MacroGoalsStats.tsx:99-105 | counting one more goal adds it to its own bucket only, and to that bucket's completed count only when it is completed |
| MacroGoals.TallyOfPositive | src/components/goals/MacroGoalsStats.tsx:122-142 | a bucket has goals exactly when some goal falls in it |
| MacroGoals.TallyByKey | src/components/goals/MacroGoalsStats.tsx:122-142 | the counting loop keeps an entry exactly for each key some goal has, holding that key's tally, and lists the keys once each, ordered by the position of the first goal carrying them |
| MacroGoals.FirstIndex | src/components/goals/MacroGoalsStats.tsx:122-142 | the position of the first goal carrying a key, or the list's length when none does; the goal there carries the key |
| MacroGoals.FirstIndexIsFirst | src/components/goals/MacroGoalsStats.tsx:122-142 | no goal before that position carries the key |
| MacroGoals.FirstSeenStep | src/components/goals/MacroGoalsStats.tsx:122-142 | a key whose counter is created at goal i has its first goal at i, after every key listed before it |
| MacroGoals.TallyByKeyStep | src/components/goals/MacroGoalsStats.tsx:122-142 | one iteration of the counting loop keeps its invariant |
| MacroGoals.OrderStep | src/components/goals/MacroGoalsStats.tsx:122-142 | appending a key the first time it is seen keeps the key list duplicate-free and in step with the map |
| MacroGoals.CounterStep | src/components/goals/MacroGoalsStats.tsx:122-142 | updating one counter keeps every key's entry equal to its tally |
| MacroGoals.TallyBuckets | src/components/goals/MacroGoalsStats.tsx:189-209 | the fixed-size counters (quarters, months) hold each slot's tally |
| MacroGoals.KpisOf | src/components/goals/MacroGoalsStats.tsx:78-89 | the page shows its empty state exactly when there are no goals |
| MacroGoals.KpisFacts | src/components/goals/MacroGoalsStats.tsx:86-89 | every goal is counted, the completed count is the number of completed goals, and the rate is their rounded percentage, at most 100 |
| MacroGoals.EverythingCounted | src/components/goals/MacroGoalsStats.tsx:86-87 | the all-goals bucket holds every goal and exactly the completed ones |
| MacroGoals.FilterSnoc | src/components/goals/MacroGoalsStats.tsx:87 | filtering a list with one more element filters the old list and then that element |
| MacroGoals.TimeBased | src/components/goals/MacroGoalsStats.tsx:93 | the time-based goals contain no lifetime goal |
| MacroGoals.LifetimeAndTimeBasedPartition | src/components/goals/MacroGoalsStats.tsx:92-93 | lifetime and time-based goals split the goals: together they are exactly the goals, each once |
| MacroGoals.LeastYear | src/components/goals/MacroGoalsStats.tsx:95-97 | None exactly when no goal has a year; otherwise a year some goal has and no goal's year is earlier |
| MacroGoals.MinYearFacts | src/components/goals/MacroGoalsStats.tsx:95-97 | (about `MinYear`) the all-time range starts at the earliest year of a time-based goal, or at the current year when none has one |
| MacroGoals.RankKeyOrder | src/components/goals/MacroGoalsStats.tsx:107-117 | the ranking key puts a row first exactly when it has the higher rate, or the same rate and more completed goals |
| MacroGoals.RankedFirstIsBest | src/components/goals/MacroGoalsStats.tsx:107-119 | the first row in rank order has a rate at least any row's, and on a tie at least as many completed goals |
| MacroGoals.TypeRows | src/components/goals/MacroGoalsStats.tsx:107-116 | five rows, one per goal type, each with completed ≤ total ≤ number of goals and rate ≤ 100 |
| MacroGoals.TallyOfKind | src/components/goals/MacroGoalsStats.tsx:99-105 | (about `ByType`) the tally of a type counts exactly the goals `filter(g => g.type === kind)` keeps, and the completed ones among them |
| MacroGoals.TypeRowsByType | src/components/goals/MacroGoalsStats.tsx:108-113 | the type rows come in the order lifetime, annual, quarterly, monthly, weekly, each holding `byType`'s count of its type and the count of its completed goals |
| MacroGoals.TypeStats | src/components/goals/MacroGoalsStats.tsx:107-117 | the five type rows, ranked |
| MacroGoals.BestTypeIsBest | src/components/goals/MacroGoalsStats.tsx:107-119 | no goal type has a higher rate than `bestType`, nor on a tie more completed goals |
| MacroGoals.CategoryStats | src/components/goals/MacroGoalsStats.tsx:122-142 | a category is listed exactly when it is active and some goal has it; each holds its goals and completed goals; categories appear once each, in the order of their first active goal |
| MacroGoals.CategoryRows | src/components/goals/MacroGoalsStats.tsx:144-148 | one row per listed category, in order, with its tally and rate |
| MacroGoals.BestCategory | src/components/goals/MacroGoalsStats.tsx:151 | None exactly when no category is listed |
| MacroGoals.BestCategoryIsBest | src/components/goals/MacroGoalsStats.tsx:144-151 | the best category is a listed one and no listed category has a higher rate |
| MacroGoals.RadarDataOrdered | src/components/goals/MacroGoalsStats.tsx:144-149 | (about `RadarData`) the radar rows are the category rows rearranged, by rate from highest, and categories with equal rates keep their first-seen order |
| MacroGoals.PieDataOrdered | src/components/goals/MacroGoalsStats.tsx:157-161 | (about `PieData`) the pie slices are the category rows rearranged, by number of goals from highest, and categories with as many goals keep their first-seen order |
| MacroGoals.BestCategoryFirstOfTies | src/components/goals/MacroGoalsStats.tsx:144-151 | the best category is the first-seen one of highest rate: every category seen before it has a lower rate |
| MacroGoalPeriods.QuarterBucket | src/components/goals/MacroGoalsStats.tsx:189-209 | a goal with a quarter falls in one of the four quarter slots |
| MacroGoalPeriods.MonthBucket | src/components/goals/MacroGoalsStats.tsx:211-230 | a goal with a month falls in one of the twelve month slots |
| MacroGoalPeriods.ClampedMonth | src/components/goals/MacroGoalsStats.tsx:534-542 | every goal lands in a month slot: its own month when in 1..12, January when it has no month or one below 1 |
| MacroGoalPeriods.PeriodRows | src/components/goals/MacroGoalsStats.tsx:189-230 | one row per slot, numbered from 1, with the slot's tally and a rate of at most 100 |
| MacroGoalPeriods.SeasonalData | src/components/goals/MacroGoalsStats.tsx:189-209 | four rows, each holding the time-based goals of its quarter |
| MacroGoalPeriods.MonthlyHistoricalData | src/components/goals/MacroGoalsStats.tsx:211-230 | twelve rows, each holding the time-based goals of its month |
| MacroGoalPeriods.QuarterlyData | src/components/goals/MacroGoalsStats.tsx:552-571 | four rows, each holding the goals of its quarter |
| MacroGoalPeriods.SlotsShareGoals | src/components/goals/MacroGoalsStats.tsx:544-550 | the goals counted up to a slot are at most all goals, and the completed ones at most those |
| MacroGoalPeriods.UpToStep | src/components/goals/MacroGoalsStats.tsx:544-550 | the running total up to a slot is the one up to the slot before plus the slot's own tally |
| MacroGoalPeriods.UpToNone | src/components/goals/MacroGoalsStats.tsx:544-550 | before the first slot the running total is zero |
| MacroGoalPeriods.UpToAll | src/components/goals/MacroGoalsStats.tsx:544-550 | once past every goal's slot, the running total counts every goal |
| MacroGoalPeriods.RunningRows | src/components/goals/MacroGoalsStats.tsx:544-550 | each row carries its slot's tally and the running totals of goals and completed goals up to and including it |
| MacroGoalPeriods.SingleYearMonthly | src/components/goals/MacroGoalsStats.tsx:519-550 | twelve month rows of the time-based goals, each with its running totals |
| MacroGoalPeriods.RunningTotalsFacts | src/components/goals/MacroGoalsStats.tsx:544-550 | the running totals never decrease, never count more completed goals than goals, and December's total is every time-based goal |
| MacroGoalPeriods.UpToMonotone | src/components/goals/MacroGoalsStats.tsx:544-550 | a later slot's running totals are at least an earlier slot's |
| MacroGoalPeriods.BestMonth | src/components/goals/MacroGoalsStats.tsx:573-576 | the best month, when there is one, has goals |
| MacroGoalPeriods.BestMonthIsBest | src/components/goals/MacroGoalsStats.tsx:573-576 | as soon as a month has goals there is a best month, and no month with goals beats it on rate, nor on a tie on completed goals |
| MacroGoalPeriods.YearlyData | src/components/goals/MacroGoalsStats.tsx:169-183 | one row per year some time-based goal has, years strictly ascending (so each year once), each holding that year's goals |
| MacroGoalPeriods.YearRowsSorted | src/components/goals/MacroGoalsStats.tsx:177-183 | sorting the per-year rows of distinct years orders them strictly by year and keeps exactly the same rows |
| MacroGoalPeriods.YearlyRowsFacts | src/components/goals/MacroGoalsStats.tsx:169-183 | the sorted rows built from the per-year counters have one row per year with goals, each holding that year's tally |
| MacroGoalPeriods.BestYearsAreBest | src/components/goals/MacroGoalsStats.tsx:186-187 | (about `BestYear`, `MostProductiveYear`) no year beats `bestYear` on rate, nor on a tie on completed goals; no year has more completed goals than `mostProductiveYear` |
| MacroGoalPeriods.EvolutionRowOf | src/components/goals/MacroGoalsStats.tsx:242-262 | a year's row counts that year's time-based goals and has an entry exactly for each charted active category |
| MacroGoalPeriods.UniqueYears | src/components/goals/MacroGoalsStats.tsx:235 | the distinct years of the time-based goals that have one, strictly ascending |
| MacroGoalPeriods.CategoryEvolution | src/components/goals/MacroGoalsStats.tsx:232-265 | one evolution row per year of `uniqueYears`, in that order, each that year's row |
| MacroGoalPeriods.CategoryEvolutionYears | src/components/goals/MacroGoalsStats.tsx:235-265 | the chart has a row for each year of a time-based goal and no other, years strictly ascending, each row counting at least one goal |
| MacroGoalPeriods.EvolutionCountsWithinYear | src/components/goals/MacroGoalsStats.tsx:253-262 | a category's count in a year never exceeds that year's goals |
| MacroGoalPeriods.Narrower | src/components/goals/MacroGoalsStats.tsx:253-262 | the goals of one year and one category are at most the goals of that year |

## Left out

- Network and storage: the database fetches, upserts and deletes of the reading tracker and the monthly goal, and their error logging, are left out; a finished fetch is the parameter of `FinishLoading`. The paged fetch loop of the goals statistics page is left out; the page starts from the fetched goal list.
- Time zones: the source mixes local dates with `toISOString` (UTC) keys and parses `YYYY-MM-DD` as UTC midnight; the model has one calendar of day numbers, and "today" and the current hour are parameters.
- Date-library behaviour on an inverted interval is left out: `SingleGoal.SingleGoalStatsFor` requires the habit's start not to be after the end of its window, where the source calls `eachDayOfInterval`.
- Rendering: JSX, styling, the calendar cell hue and glow, chart colours and widths, locale month and weekday names, and month navigation (previous, next, today) are left out; the calendars are modelled as their cell lists and click rules.
- The short highlight animation after a calendar click (a timer) and the day-details dialog's own contents are left out; the habit calendar's model keeps which day is selected.
- The category label lookup and its table of default labels belong to hooks that are not part of this model; they are parameters of `MacroGoals.CategoryStats` and `MacroGoalPeriods.CategoryEvolution`.
- The mood/energy correlations, the inter-habit correlation hook, the AI coach, the privacy and AI contexts and the colour picker are not part of this model; the mood matrix takes the correlation rows as input.
- The statistics page reads per-habit fields (period comparisons, critical habits, weekday stats, worst day, worst streak) that the habit-statistics hook does not produce; the worst-streak panel takes the worst streak as an input field of each habit.
- A stored monthly goal that is not a number (`parseInt` giving `NaN`) is not modelled; the stored value is an integer or absent.
- The empty-string start of the worst negative streak is modelled as `None`.
- `HabitRanking.TitleLe`: `localeCompare` is approximated by code-unit order of the titles.
- `MoodMatrix.ColorIntensity`: states the base colour and that the suffix is one of the five opacities; which one is stated by `MoodMatrix.Alpha`, on real-valued rates.
- Floating-point arithmetic: the matrix rates and the year heatmap's 0.5 intensity are reals, and the other percentages are exact integers.
- Rounding.Percent: rounds the exact ratio, where the source rounds the double-precision product `(a / b) * 100`; the two differ by one point when the exact percentage ends in .5 and the product falls just below it (23 of 40 gives 58 here and 57 in JavaScript). This affects every `Math.round((a / b) * 100)` of the hooks and of the statistics, worst-streak and long-term goal pages.
