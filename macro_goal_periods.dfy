/**
 * The period breakdowns of the long-term goals page. The "all time" view
 * groups time-based goals by year, by quarter and by calendar month, and
 * counts each year's goals per category; the single-year view counts goals per
 * month (with running totals) and per quarter, and picks the best month.
 */
module MacroGoalPeriods {

  import opened Wrappers
  import opened Arith
  import opened Lists
  import opened DayRuns
  import opened MacroGoals

  // ---------------------------------------------------------------- buckets

  /** `q && q >= 1 && q <= 4`: quarters 1..4 go to slots 0..3, anything else nowhere. */
  function QuarterBucket(g: LongTermGoal): (b: Option<int>)
    ensures b.Some? ==> 0 <= b.value < 4
  {
    if g.quarter.Some? && 1 <= g.quarter.value <= 4 then Some(g.quarter.value - 1) else None
  }

  /** `g.month && g.month >= 1 && g.month <= 12`: months 1..12 go to slots 0..11. */
  function MonthBucket(g: LongTermGoal): (b: Option<int>)
    ensures b.Some? ==> 0 <= b.value < 12
  {
    if g.month.Some? && 1 <= g.month.value <= 12 then Some(g.month.value - 1) else None
  }

  /**
   * The single-year month slot: `month - 1` when the month is set (non-zero),
   * otherwise January, clamped into 0..11. Every goal gets a slot.
   */
  function ClampedMonth(g: LongTermGoal): (b: Option<int>)
    ensures b.Some? && 0 <= b.value < 12
    ensures g.month.Some? && 1 <= g.month.value <= 12 ==> b == Some(g.month.value - 1)
    ensures g.month.None? || g.month.value < 1 ==> b == Some(0)
  {
    var m := if g.month.Some? && g.month.value != 0 then g.month.value - 1 else 0;
    Some(Min(Max(m, 0), 11))
  }

  /** Rows for n fixed slots, numbered from 1, each with its rate (the `forEach` that sets `d.rate`). */
  method PeriodRows(goals: seq<LongTermGoal>, bucket: LongTermGoal -> Option<int>, n: nat)
    returns (rows: seq<Row<nat>>)
    requires forall g <- goals :: bucket(g).Some? ==> 0 <= bucket(g).value < n
    ensures |rows| == n
    ensures forall k :: 0 <= k < n ==> rows[k] == RowOf(k + 1, TallyOf(goals, bucket, k))
    ensures forall k :: 0 <= k < n ==> rows[k].completed <= rows[k].total && rows[k].rate <= 100
  {
    var buckets := TallyBuckets(goals, bucket, n);
    rows := [];
    for k := 0 to n
      invariant |rows| == k
      invariant forall j :: 0 <= j < k ==> rows[j] == RowOf(j + 1, buckets[j])
    {
      rows := rows + [RowOf(k + 1, buckets[k])];
    }
  }

  /** `seasonalData`: time-based goals per quarter. */
  method SeasonalData(goals: seq<LongTermGoal>) returns (rows: seq<Row<nat>>)
    ensures |rows| == 4
    ensures forall k :: 0 <= k < 4 ==> rows[k] == RowOf(k + 1, TallyOf(TimeBased(goals), QuarterBucket, k))
  {
    rows := PeriodRows(TimeBased(goals), QuarterBucket, 4);
  }

  /** `monthlyHistoricalData`: time-based goals per calendar month, all years together. */
  method MonthlyHistoricalData(goals: seq<LongTermGoal>) returns (rows: seq<Row<nat>>)
    ensures |rows| == 12
    ensures forall k :: 0 <= k < 12 ==> rows[k] == RowOf(k + 1, TallyOf(TimeBased(goals), MonthBucket, k))
  {
    rows := PeriodRows(TimeBased(goals), MonthBucket, 12);
  }

  /**
   * `quarterlyData` of the single-year view: every goal (lifetime ones too) per
   * quarter. The source first keeps goals with a non-zero quarter, which drops
   * nothing the quarter test would keep.
   */
  method QuarterlyData(goals: seq<LongTermGoal>) returns (rows: seq<Row<nat>>)
    ensures |rows| == 4
    ensures forall k :: 0 <= k < 4 ==> rows[k] == RowOf(k + 1, TallyOf(goals, QuarterBucket, k))
  {
    rows := PeriodRows(goals, QuarterBucket, 4);
  }

  /** A goal lands in at most one slot: the slot totals never exceed the goals counted. */
  lemma {:induction false} SlotsShareGoals(goals: seq<LongTermGoal>, bucket: LongTermGoal -> Option<int>, k: int)
    ensures UpTo(goals, bucket, k).total <= |goals|
    ensures UpTo(goals, bucket, k).completed <= UpTo(goals, bucket, k).total
  {
    if goals != [] {
      SlotsShareGoals(goals[..|goals| - 1], bucket, k);
    }
  }

  // ---------------------------------------------------------------- running totals

  /** The goals whose slot is at most k: what a running total over slots 0..k has counted. */
  function UpTo(goals: seq<LongTermGoal>, bucket: LongTermGoal -> Option<int>, k: int): Tally {
    if goals == [] then Tally(0, 0)
    else
      var n := |goals| - 1;
      var t := UpTo(goals[..n], bucket, k);
      if bucket(goals[n]).Some? && bucket(goals[n]).value <= k then Plus(t, Counted(goals[n])) else t
  }

  /** Adding slot k to the running total over slots before it. */
  lemma {:induction false} UpToStep(goals: seq<LongTermGoal>, bucket: LongTermGoal -> Option<int>, k: int)
    ensures UpTo(goals, bucket, k) == Plus(UpTo(goals, bucket, k - 1), TallyOf(goals, bucket, k))
  {
    if goals != [] {
      UpToStep(goals[..|goals| - 1], bucket, k);
    }
  }

  /** Before the first slot nothing is counted. */
  lemma {:induction false} UpToNone(goals: seq<LongTermGoal>, bucket: LongTermGoal -> Option<int>)
    requires forall g <- goals :: bucket(g).Some? ==> bucket(g).value >= 0
    ensures UpTo(goals, bucket, -1) == Tally(0, 0)
  {
    if goals != [] {
      var n := |goals| - 1;
      assert goals[n] in goals;
      assert forall g <- goals[..n] :: g in goals;
      UpToNone(goals[..n], bucket);
    }
  }

  /** When every goal has a slot at most k, the running total has counted them all. */
  lemma {:induction false} UpToAll(goals: seq<LongTermGoal>, bucket: LongTermGoal -> Option<int>, k: int)
    requires forall g <- goals :: bucket(g).Some? && bucket(g).value <= k
    ensures UpTo(goals, bucket, k).total == |goals|
  {
    if goals != [] {
      var n := |goals| - 1;
      assert goals[n] in goals;
      assert forall g <- goals[..n] :: g in goals;
      UpToAll(goals[..n], bucket, k);
    }
  }

  /** A month of the single-year view with the running totals up to and including it. */
  datatype MonthRow = MonthRow(row: Row<nat>, cumulativeTotal: nat, cumulativeCompleted: nat)

  /** Rows for slots 0..n-1 with the running totals, given each slot's tally. */
  method RunningRows(goals: seq<LongTermGoal>, bucket: LongTermGoal -> Option<int>, buckets: seq<Tally>)
    returns (rows: seq<MonthRow>)
    requires forall g <- goals :: bucket(g).Some? ==> bucket(g).value >= 0
    requires forall k :: 0 <= k < |buckets| ==> buckets[k] == TallyOf(goals, bucket, k)
    ensures |rows| == |buckets|
    ensures forall k :: 0 <= k < |buckets| ==> rows[k].row == RowOf(k + 1, buckets[k])
    ensures forall k :: 0 <= k < |buckets| ==>
      rows[k].cumulativeTotal == UpTo(goals, bucket, k).total
      && rows[k].cumulativeCompleted == UpTo(goals, bucket, k).completed
  {
    var runningTotal, runningCompleted := 0, 0;
    UpToNone(goals, bucket);
    ghost var sums := seq(|buckets| + 1, j => UpTo(goals, bucket, j - 1));
    rows := [];
    for k := 0 to |buckets|
      invariant |rows| == k
      invariant runningTotal == sums[k].total && runningCompleted == sums[k].completed
      invariant forall j :: 0 <= j < k ==> rows[j].row == RowOf(j + 1, buckets[j])
      invariant forall j :: 0 <= j < k ==>
        rows[j].cumulativeTotal == sums[j + 1].total && rows[j].cumulativeCompleted == sums[j + 1].completed
    {
      UpToStep(goals, bucket, k);
      assert sums[k + 1] == Plus(sums[k], buckets[k]);
      runningTotal := runningTotal + buckets[k].total;
      runningCompleted := runningCompleted + buckets[k].completed;
      rows := rows + [MonthRow(RowOf(k + 1, buckets[k]), runningTotal, runningCompleted)];
    }
  }

  /** `monthlyData`: time-based goals per (clamped) month, with `runningTotal` and `runningCompleted`. */
  method SingleYearMonthly(goals: seq<LongTermGoal>) returns (rows: seq<MonthRow>)
    ensures |rows| == 12
    ensures forall k :: 0 <= k < 12 ==> rows[k].row == RowOf(k + 1, TallyOf(TimeBased(goals), ClampedMonth, k))
    ensures forall k :: 0 <= k < 12 ==>
      rows[k].cumulativeTotal == UpTo(TimeBased(goals), ClampedMonth, k).total
      && rows[k].cumulativeCompleted == UpTo(TimeBased(goals), ClampedMonth, k).completed
  {
    var tb := TimeBased(goals);
    var buckets := TallyBuckets(tb, ClampedMonth, 12);
    rows := RunningRows(tb, ClampedMonth, buckets);
  }

  /**
   * The running totals never decrease, never count more completed goals than
   * goals, and December's equals the number of time-based goals: every one of
   * them lands in exactly one month.
   */
  lemma RunningTotalsFacts(goals: seq<LongTermGoal>, j: int, k: int)
    requires 0 <= j <= k < 12
    ensures UpTo(TimeBased(goals), ClampedMonth, j).total <= UpTo(TimeBased(goals), ClampedMonth, k).total
    ensures UpTo(TimeBased(goals), ClampedMonth, j).completed <= UpTo(TimeBased(goals), ClampedMonth, k).completed
    ensures UpTo(TimeBased(goals), ClampedMonth, k).completed <= UpTo(TimeBased(goals), ClampedMonth, k).total
    ensures UpTo(TimeBased(goals), ClampedMonth, 11).total == |TimeBased(goals)|
  {
    var tb := TimeBased(goals);
    UpToMonotone(tb, ClampedMonth, j, k);
    SlotsShareGoals(tb, ClampedMonth, k);
    UpToAll(tb, ClampedMonth, 11);
  }

  lemma {:induction false} UpToMonotone(goals: seq<LongTermGoal>, bucket: LongTermGoal -> Option<int>, j: int, k: int)
    requires j <= k
    ensures UpTo(goals, bucket, j).total <= UpTo(goals, bucket, k).total
    ensures UpTo(goals, bucket, j).completed <= UpTo(goals, bucket, k).completed
  {
    if goals != [] {
      UpToMonotone(goals[..|goals| - 1], bucket, j, k);
    }
  }

  function HasGoals(r: Row<nat>): bool {
    r.total > 0
  }

  /** `bestMonth`: among months with goals, the first by rate then by completed goals; None when no month has any. */
  function BestMonth(rows: seq<MonthRow>, bound: nat): (r: Option<Row<nat>>)
    ensures r.Some? ==> r.value.total > 0
  {
    var withGoals := Filter(seq(|rows|, i requires 0 <= i < |rows| => rows[i].row), HasGoals);
    if |withGoals| > 0 then
      SortByKeyMembers(withGoals, RankKey(bound));
      Some(SortByKey(withGoals, RankKey(bound))[0])
    else None
  }

  /** The best month beats or ties every month that has goals, and exists as soon as one month has goals. */
  lemma BestMonthIsBest(goals: seq<LongTermGoal>, rows: seq<MonthRow>, k: nat)
    requires |rows| == 12
    requires forall j :: 0 <= j < 12 ==> rows[j].row == RowOf(j + 1, TallyOf(TimeBased(goals), ClampedMonth, j))
    requires k < 12 && rows[k].row.total > 0
    ensures var best := BestMonth(rows, |goals|);
      best.Some? && rows[k].row.rate <= best.value.rate
      && (rows[k].row.rate == best.value.rate ==> rows[k].row.completed <= best.value.completed)
  {
    var all := seq(|rows|, i requires 0 <= i < |rows| => rows[i].row);
    var withGoals := Filter(all, HasGoals);
    assert all[k] == rows[k].row;
    assert rows[k].row in withGoals;
    forall r <- withGoals ensures r.completed <= |goals| {
      var i :| 0 <= i < |all| && all[i] == r;
      assert r == RowOf(i + 1, TallyOf(TimeBased(goals), ClampedMonth, i));
    }
    RankedFirstIsBest(withGoals, |goals|, rows[k].row);
  }

  // ---------------------------------------------------------------- years

  function YearKey(g: LongTermGoal): Option<int> {
    g.year
  }

  function RowYear(r: Row<int>): int {
    r.name
  }

  /** `yearlyData`: one row per year some time-based goal has, in ascending year order. */
  method YearlyData(goals: seq<LongTermGoal>) returns (rows: seq<Row<int>>)
    ensures forall i, j :: 0 <= i < j < |rows| ==> rows[i].name < rows[j].name
    ensures forall i :: 0 <= i < |rows| ==>
      rows[i] == RowOf(rows[i].name, TallyOf(TimeBased(goals), YearKey, rows[i].name)) && rows[i].total > 0
    ensures forall g <- TimeBased(goals) :: g.year.Some? ==> exists i :: 0 <= i < |rows| && rows[i].name == g.year.value
  {
    var tb := TimeBased(goals);
    var counts, order := TallyByKey(tb, YearKey);
    rows := SortByKey(YearRows(counts, order), RowYear);
    YearlyRowsFacts(tb, counts, order);
  }

  /** The counters of the goals by year, as rows sorted by year: one per year, each with that year's goals. */
  lemma YearlyRowsFacts(tb: seq<LongTermGoal>, counts: map<int, Tally>, order: seq<int>)
    requires forall k :: k in counts <==> TallyOf(tb, YearKey, k).total > 0
    requires forall k :: k in counts ==> counts[k] == TallyOf(tb, YearKey, k)
    requires forall k :: k in order <==> k in counts
    requires forall i, j :: 0 <= i < j < |order| ==> order[i] != order[j]
    ensures var rows := SortByKey(YearRows(counts, order), RowYear);
      && (forall i, j :: 0 <= i < j < |rows| ==> rows[i].name < rows[j].name)
      && (forall i :: 0 <= i < |rows| ==> rows[i] == RowOf(rows[i].name, TallyOf(tb, YearKey, rows[i].name)) && rows[i].total > 0)
      && (forall g <- tb :: g.year.Some? ==> exists i :: 0 <= i < |rows| && rows[i].name == g.year.value)
  {
    var unsorted := YearRows(counts, order);
    var rows := SortByKey(unsorted, RowYear);
    YearRowsSorted(counts, order);
    forall g <- tb | g.year.Some? ensures exists i :: 0 <= i < |rows| && rows[i].name == g.year.value {
      var y := g.year.value;
      var j :| 0 <= j < |tb| && tb[j] == g;
      TallyOfPositive(tb, YearKey, y);
      var a :| 0 <= a < |order| && order[a] == y;
      assert unsorted[a] in rows;
    }
  }

  /** One row per listed year, in the order of the list. */
  function YearRows(counts: map<int, Tally>, order: seq<int>): (rows: seq<Row<int>>)
    requires forall y <- order :: y in counts
    ensures |rows| == |order|
    ensures forall i :: 0 <= i < |order| ==> rows[i] == RowOf(order[i], counts[order[i]])
  {
    seq(|order|, i requires 0 <= i < |order| => RowOf(order[i], counts[order[i]]))
  }

  /** Years listed once each give rows sorted strictly by year, holding the same rows. */
  lemma YearRowsSorted(counts: map<int, Tally>, order: seq<int>)
    requires forall y <- order :: y in counts
    requires forall i, j :: 0 <= i < j < |order| ==> order[i] != order[j]
    ensures var rows := SortByKey(YearRows(counts, order), RowYear);
      && (forall i, j :: 0 <= i < j < |rows| ==> rows[i].name < rows[j].name)
      && (forall i :: 0 <= i < |rows| ==> rows[i] in YearRows(counts, order))
      && (forall i :: 0 <= i < |order| ==> YearRows(counts, order)[i] in rows)
  {
    var unsorted := YearRows(counts, order);
    assert DistinctKeys(unsorted, RowYear);
    SortByKeyDistinct(unsorted, RowYear);
    SortByKeyMembers(unsorted, RowYear);
  }

  function NegCompleted(r: Row<int>): int {
    -(r.completed as int)
  }

  /** `bestYear`: the first year by rate, then by completed goals; None (the source's `undefined`) with no years. */
  function BestYear(rows: seq<Row<int>>, bound: nat): Option<Row<int>> {
    if |rows| > 0 then Some(SortByKey(rows, RankKey(bound))[0]) else None
  }

  /** `mostProductiveYear`: the first year with the most completed goals. */
  function MostProductiveYear(rows: seq<Row<int>>): Option<Row<int>> {
    if |rows| > 0 then Some(SortByKey(rows, NegCompleted)[0]) else None
  }

  /** The best year beats or ties every year; the most productive year has completed at least as many goals as any. */
  lemma BestYearsAreBest(goals: seq<LongTermGoal>, rows: seq<Row<int>>, r: Row<int>)
    requires forall i :: 0 <= i < |rows| ==> rows[i] == RowOf(rows[i].name, TallyOf(TimeBased(goals), YearKey, rows[i].name))
    requires r in rows
    ensures var best := BestYear(rows, |goals|).value;
      r.rate <= best.rate && (r.rate == best.rate ==> r.completed <= best.completed)
    ensures r.completed <= MostProductiveYear(rows).value.completed
  {
    forall x <- rows ensures x.completed <= |goals| {
      var i :| 0 <= i < |rows| && rows[i] == x;
      LifetimeAndTimeBasedPartition(goals);
    }
    RankedFirstIsBest(rows, |goals|, r);
    SortedHeadIsLeast(rows, NegCompleted, r);
  }

  // ---------------------------------------------------------------- category evolution

  /** The category colours the evolution chart has a column for. */
  const ChartColors: seq<string> := ["red", "orange", "yellow", "green", "blue", "purple", "pink", "cyan", "null"]

  function YearAndCategory(g: LongTermGoal): Option<(Option<int>, string)> {
    Some((g.year, CategoryKey(g)))
  }

  datatype EvolutionRow = EvolutionRow(year: int, total: nat, byCategory: map<string, nat>)

  /** One year's row: its time-based goals, and per active chart colour how many of them carry it. */
  function EvolutionRowOf(goals: seq<LongTermGoal>, y: int, getLabel: Option<string> -> string,
                          defaults: map<string, string>): (row: EvolutionRow)
    ensures row.year == y && row.total == TallyOf(TimeBased(goals), YearKey, y).total
    ensures forall c :: c in row.byCategory <==> c in ChartColors && IsActive(c, getLabel, defaults)
  {
    var tb := TimeBased(goals);
    EvolutionRow(y, TallyOf(tb, YearKey, y).total,
      map c | c in ChartColors && IsActive(c, getLabel, defaults) :: TallyOf(tb, YearAndCategory, (Some(y), c)).total)
  }

  /** `uniqueYears`: the distinct years of the time-based goals that have one, ascending. */
  function UniqueYears(goals: seq<LongTermGoal>): (ys: seq<int>)
    ensures Increasing(ys)
    ensures forall y :: y in ys <==> exists g <- TimeBased(goals) :: g.year == Some(y)
  {
    SortedDays(set g <- TimeBased(goals) | g.year.Some? :: g.year.value)
  }

  /** `categoryEvolutionData`: one row per year that some time-based goal has, in ascending order. */
  function CategoryEvolution(goals: seq<LongTermGoal>, getLabel: Option<string> -> string,
                             defaults: map<string, string>): (rows: seq<EvolutionRow>)
    ensures |rows| == |UniqueYears(goals)|
    ensures forall i :: 0 <= i < |rows| ==> rows[i] == EvolutionRowOf(goals, UniqueYears(goals)[i], getLabel, defaults)
  {
    var years := UniqueYears(goals);
    seq(|years|, i requires 0 <= i < |years| => EvolutionRowOf(goals, years[i], getLabel, defaults))
  }

  /**
   * The evolution chart has one row for each year of a time-based goal and no
   * other, years ascending, and every row counts at least one goal.
   */
  lemma CategoryEvolutionYears(goals: seq<LongTermGoal>, getLabel: Option<string> -> string, defaults: map<string, string>)
    ensures var rows := CategoryEvolution(goals, getLabel, defaults);
      && (forall i, j :: 0 <= i < j < |rows| ==> rows[i].year < rows[j].year)
      && (forall i :: 0 <= i < |rows| ==> rows[i].total > 0)
      && (forall g <- TimeBased(goals) :: g.year.Some? ==> exists i :: 0 <= i < |rows| && rows[i].year == g.year.value)
  {
    var rows := CategoryEvolution(goals, getLabel, defaults);
    var years := UniqueYears(goals);
    var tb := TimeBased(goals);
    forall i | 0 <= i < |rows| ensures rows[i].total > 0 {
      var g :| g in tb && g.year == Some(years[i]);
      var j :| 0 <= j < |tb| && tb[j] == g;
      TallyOfPositive(tb, YearKey, years[i]);
    }
    forall g <- tb | g.year.Some? ensures exists i :: 0 <= i < |rows| && rows[i].year == g.year.value {
      assert g.year.value in years;
      var i :| 0 <= i < |years| && years[i] == g.year.value;
      assert rows[i].year == years[i];
    }
  }

  /** No colour column of a year counts more goals than the year has. */
  lemma EvolutionCountsWithinYear(goals: seq<LongTermGoal>, y: int, getLabel: Option<string> -> string,
                                  defaults: map<string, string>, c: string)
    requires c in EvolutionRowOf(goals, y, getLabel, defaults).byCategory
    ensures EvolutionRowOf(goals, y, getLabel, defaults).byCategory[c] <= EvolutionRowOf(goals, y, getLabel, defaults).total
  {
    Narrower(TimeBased(goals), y, c);
  }

  lemma {:induction false} Narrower(goals: seq<LongTermGoal>, y: int, c: string)
    ensures TallyOf(goals, YearAndCategory, (Some(y), c)).total <= TallyOf(goals, YearKey, y).total
  {
    if goals != [] {
      Narrower(goals[..|goals| - 1], y, c);
    }
  }
}
