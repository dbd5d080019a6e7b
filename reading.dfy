/**
 * The reading tracker: one record per calendar day, "done" or "missed"
 * (an unmarked day has no entry), the three-state toggle, and the summary
 * figures computed from the records: totals, this month's totals, the
 * longest run of consecutive done days and the current streak.
 *
 * Days are numbered from 1970-01-01; a `yyyy-MM-dd` key is its day number,
 * so sorting the keys lists the days in ascending order.
 */
module Reading {

  import opened Wrappers
  import opened Arith
  import opened Calendar
  import opened DayRuns
  import opened Lists

  datatype ReadingStatus = Done | Missed

  type ReadingRecords = map<int, ReadingStatus>

  /** The status of a day; an absent entry reads as unmarked. */
  function StatusOf(records: ReadingRecords, day: int): (r: Option<ReadingStatus>)
    ensures r.None? <==> day !in records
    ensures r.Some? ==> records[day] == r.value
  {
    if day in records then Some(records[day]) else None
  }

  predicate Marked(records: ReadingRecords, day: int, st: ReadingStatus) {
    day in records && records[day] == st
  }

  /** Storing a status; storing "unmarked" removes the entry. */
  function SetStatusIn(records: ReadingRecords, day: int, st: Option<ReadingStatus>): (r: ReadingRecords)
    ensures StatusOf(r, day) == st
    ensures forall d :: d != day ==> StatusOf(r, d) == StatusOf(records, d)
    ensures r.Keys <= records.Keys + {day}
  {
    match st
    case None => records - {day}
    case Some(s) => records[day := s]
  }

  /** The toggle cycle: unmarked, then done, then missed, then unmarked again. */
  function NextStatus(st: Option<ReadingStatus>): (r: Option<ReadingStatus>)
    ensures r != st
  {
    match st
    case None => Some(Done)
    case Some(Done) => Some(Missed)
    case Some(Missed) => None
  }

  lemma ThreeTogglesRestoreStatus(st: Option<ReadingStatus>)
    ensures NextStatus(NextStatus(NextStatus(st))) == st
  {
  }

  function ToggleIn(records: ReadingRecords, day: int): (r: ReadingRecords)
    ensures StatusOf(r, day) == NextStatus(StatusOf(records, day))
    ensures forall d :: d != day ==> StatusOf(r, d) == StatusOf(records, d)
  {
    SetStatusIn(records, day, NextStatus(StatusOf(records, day)))
  }

  /** Two record maps that read the same on every day are the same map. */
  lemma SameStatusesSameRecords(a: ReadingRecords, b: ReadingRecords)
    requires forall d :: StatusOf(a, d) == StatusOf(b, d)
    ensures a == b
  {
    assert a.Keys == b.Keys by {
      forall d ensures d in a <==> d in b {
        assert StatusOf(a, d) == StatusOf(b, d);
      }
    }
    forall d | d in a ensures a[d] == b[d] {
      assert StatusOf(a, d) == StatusOf(b, d);
    }
  }

  /** Toggling one day three times gives back the records unchanged. */
  lemma ThreeTogglesRestoreRecords(records: ReadingRecords, day: int)
    ensures ToggleIn(ToggleIn(ToggleIn(records, day), day), day) == records
  {
    var r := ToggleIn(ToggleIn(ToggleIn(records, day), day), day);
    forall d ensures StatusOf(r, d) == StatusOf(records, d) {
      if d == day {
        ThreeTogglesRestoreStatus(StatusOf(records, day));
      }
    }
    SameStatusesSameRecords(r, records);
  }

  // ---------------------------------------------------------------------
  // Counting
  // ---------------------------------------------------------------------

  /** Which days a count covers. */
  datatype Scope = Everywhere | InYear(year: int) | InMonth(year: int, month: int)
                 | InIsoWeek(year: int, week: int) | OnWeekday(weekday: int)

  predicate InScope(day: int, scope: Scope) {
    match scope
    case Everywhere => true
    case InYear(y) => YearOf(day) == y
    case InMonth(y, m) => YearOf(day) == y && MonthOf(day) == m
    case InIsoWeek(y, w) => YearOf(day) == y && IsoWeek(day) == w
    case OnWeekday(w) => JsWeekday(day) == w
  }

  /** The month of the given day. */
  function MonthScope(today: int): Scope {
    InMonth(YearOf(today), MonthOf(today))
  }

  /** Whether a count of status st over the scope includes day. */
  predicate Counted(records: ReadingRecords, st: ReadingStatus, scope: Scope, day: int) {
    Marked(records, day, st) && InScope(day, scope)
  }

  /** The days in scope with status st. */
  function DaysMarked(records: ReadingRecords, st: ReadingStatus, scope: Scope): set<int> {
    set d | d in records && Counted(records, st, scope, d)
  }

  /** Entries of ks in scope with status st. */
  function Tally(records: ReadingRecords, ks: seq<int>, st: ReadingStatus, scope: Scope): (n: nat)
    ensures n <= |ks|
  {
    if ks == [] then 0
    else
      var last := ks[|ks| - 1];
      Tally(records, ks[..|ks| - 1], st, scope)
      + (if Counted(records, st, scope, last) then 1 else 0)
  }

  lemma {:induction false} TallyAppend(records: ReadingRecords, a: seq<int>, b: seq<int>, st: ReadingStatus, scope: Scope)
    ensures Tally(records, a + b, st, scope) == Tally(records, a, st, scope) + Tally(records, b, st, scope)
    decreases |b|
  {
    if b == [] {
      assert a + b == a;
    } else {
      var n := |b| - 1;
      assert (a + b)[..|a + b| - 1] == a + b[..n];
      TallyAppend(records, a, b[..n], st, scope);
    }
  }

  /** Counting one more day of a list adds one exactly when that day counts. */
  lemma TallyStep(records: ReadingRecords, ks: seq<int>, i: nat, st: ReadingStatus, scope: Scope)
    requires i < |ks|
    ensures Tally(records, ks[..i + 1], st, scope)
         == Tally(records, ks[..i], st, scope) + (if Counted(records, st, scope, ks[i]) then 1 else 0)
  {
    PrefixOfLongerPrefix(ks, i);
  }

  /** Counting over the sorted days of a set counts the set's days in scope with that status. */
  lemma {:induction false} TallyCountsSet(records: ReadingRecords, s: set<int>, st: ReadingStatus, scope: Scope)
    ensures Tally(records, SortedDays(s), st, scope) == |set d | d in s && Counted(records, st, scope, d)|
    decreases |s|
  {
    if s != {} {
      var m := Least(s);
      var rest := SortedDays(s - {m});
      assert SortedDays(s) == [m] + rest;
      TallyAppend(records, [m], rest, st, scope);
      assert [m][..0] == [];
      TallyCountsSet(records, s - {m}, st, scope);
      CountedWithout(records, s, m, st, scope);
    }
  }

  lemma CountedWithout(records: ReadingRecords, s: set<int>, m: int, st: ReadingStatus, scope: Scope)
    requires m in s
    ensures |set d | d in s && Counted(records, st, scope, d)|
         == |set d | d in s - {m} && Counted(records, st, scope, d)| + (if Counted(records, st, scope, m) then 1 else 0)
  {
    var whole := set d | d in s && Counted(records, st, scope, d);
    var part := set d | d in s - {m} && Counted(records, st, scope, d);
    assert part == whole - {m};
    assert m in whole <==> Counted(records, st, scope, m);
    RemoveOne(whole, m);
  }

  /** So a tally over all the keys is the number of days in scope with that status. */
  lemma TallyOfRecords(records: ReadingRecords, st: ReadingStatus, scope: Scope)
    ensures Tally(records, SortedDays(records.Keys), st, scope) == |DaysMarked(records, st, scope)|
  {
    TallyCountsSet(records, records.Keys, st, scope);
    assert (set d | d in records.Keys && Counted(records, st, scope, d)) == DaysMarked(records, st, scope);
  }

  /** A scope never holds more days than the whole record. */
  lemma ScopedAtMostAll(records: ReadingRecords, st: ReadingStatus, scope: Scope)
    ensures |DaysMarked(records, st, scope)| <= |DaysMarked(records, st, Everywhere)|
  {
    SubsetSmaller(DaysMarked(records, st, scope), DaysMarked(records, st, Everywhere));
  }

  /** Done and missed days together are all the records. */
  lemma DoneAndMissedAreAll(records: ReadingRecords, scope: Scope)
    ensures |DaysMarked(records, Done, scope)| + |DaysMarked(records, Missed, scope)|
         == |set d | d in records && InScope(d, scope)|
  {
    assert DaysMarked(records, Done, scope) + DaysMarked(records, Missed, scope)
        == set d | d in records && InScope(d, scope);
    assert DaysMarked(records, Done, scope) * DaysMarked(records, Missed, scope) == {};
  }

  // ---------------------------------------------------------------------
  // Streaks
  // ---------------------------------------------------------------------

  function DoneUpTo(records: ReadingRecords, day: int): set<int> {
    set d | d in records && records[d] == Done && d <= day
  }

  /** Consecutive done days ending on day (0 when day is not done). */
  function RunBack(records: ReadingRecords, day: int): nat
    decreases |DoneUpTo(records, day)|
  {
    if Marked(records, day, Done) then
      assert day in DoneUpTo(records, day);
      ProperSubsetSmaller(DoneUpTo(records, day - 1), DoneUpTo(records, day));
      1 + RunBack(records, day - 1)
    else 0
  }

  /**
   * The current streak: the done days in a row ending today; when today is
   * still unmarked, the ones ending yesterday; a missed today ends it.
   */
  function CurrentStreakOf(records: ReadingRecords, today: int): nat {
    if Marked(records, today, Done) then RunBack(records, today)
    else if today !in records then RunBack(records, today - 1)
    else 0
  }

  /** The days a run back from day covers are all done. */
  lemma {:induction false} RunBackAllDone(records: ReadingRecords, day: int)
    ensures forall d :: day - RunBack(records, day) < d <= day ==> d in DaysMarked(records, Done, Everywhere)
    ensures !Marked(records, day - RunBack(records, day), Done)
    decreases |DoneUpTo(records, day)|
  {
    if Marked(records, day, Done) {
      assert day in DoneUpTo(records, day);
      ProperSubsetSmaller(DoneUpTo(records, day - 1), DoneUpTo(records, day));
      RunBackAllDone(records, day - 1);
    }
  }

  /** The done days in scope in ascending order: the keys filtered to "done", sorted. */
  function DoneDates(records: ReadingRecords, scope: Scope): (ds: seq<int>)
    ensures Increasing(ds)
    ensures forall d :: d in ds <==> Marked(records, d, Done) && InScope(d, scope)
    ensures |ds| == |DaysMarked(records, Done, scope)|
  {
    SortedDays(DaysMarked(records, Done, scope))
  }

  /**
   * The longest run of consecutive done days in scope: 0 exactly when no day
   * is done, and at most the number of done days.
   */
  lemma LongestRunBounds(records: ReadingRecords, scope: Scope)
    ensures LongestRun(DoneDates(records, scope)) == 0 <==> DaysMarked(records, Done, scope) == {}
    ensures LongestRun(DoneDates(records, scope)) <= |DaysMarked(records, Done, scope)|
  {
    LongestRunIsLongestWindow(DoneDates(records, scope));
  }

  /** The current streak is a run of done days, so never longer than the longest run. */
  lemma CurrentAtMostLongest(records: ReadingRecords, today: int)
    ensures CurrentStreakOf(records, today) <= LongestRun(DoneDates(records, Everywhere))
  {
    var end := if Marked(records, today, Done) || today in records then today else today - 1;
    var k := CurrentStreakOf(records, today);
    if k > 0 {
      assert k == RunBack(records, end);
      RunBackAllDone(records, end);
      DaysInARowAtMostLongest(DoneDates(records, Everywhere), end - k + 1, k);
    }
  }

  /** Figures shown by the reading tracker. */
  datatype ReadingSummary = ReadingSummary(
    totalDone: nat, totalMissed: nat, monthDone: nat, monthMissed: nat,
    currentStreak: nat, longestStreak: nat)

  function SummaryOf(records: ReadingRecords, today: int): ReadingSummary {
    var ks := SortedDays(records.Keys);
    ReadingSummary(
      Tally(records, ks, Done, Everywhere),
      Tally(records, ks, Missed, Everywhere),
      Tally(records, ks, Done, MonthScope(today)),
      Tally(records, ks, Missed, MonthScope(today)),
      CurrentStreakOf(records, today),
      LongestRun(DoneDates(records, Everywhere)))
  }

  /**
   * What the summary means: the totals count the done and missed days and
   * together every record; month figures are within the totals; the longest
   * run is 0 exactly when nothing is done, at most the done total, and at
   * least the current streak.
   */
  lemma SummaryFacts(records: ReadingRecords, today: int)
    ensures var s := SummaryOf(records, today);
      && s.totalDone == |DaysMarked(records, Done, Everywhere)|
      && s.totalMissed == |DaysMarked(records, Missed, Everywhere)|
      && s.totalDone + s.totalMissed == |records|
      && s.monthDone <= s.totalDone && s.monthMissed <= s.totalMissed
      && (s.longestStreak == 0 <==> s.totalDone == 0)
      && s.longestStreak <= s.totalDone
      && s.currentStreak <= s.longestStreak
  {
    TallyOfRecords(records, Done, Everywhere);
    TallyOfRecords(records, Missed, Everywhere);
    TallyOfRecords(records, Done, MonthScope(today));
    TallyOfRecords(records, Missed, MonthScope(today));
    DoneAndMissedAreAll(records, Everywhere);
    assert (set d | d in records && InScope(d, Everywhere)) == records.Keys;
    ScopedAtMostAll(records, Done, MonthScope(today));
    ScopedAtMostAll(records, Missed, MonthScope(today));
    LongestRunBounds(records, Everywhere);
    CurrentAtMostLongest(records, today);
  }

  /** One pass over the days ks counting done and missed days, overall and in the given month. */
  method TallyStatuses(records: ReadingRecords, ks: seq<int>, month: Scope)
    returns (totalDone: nat, totalMissed: nat, monthDone: nat, monthMissed: nat)
    requires forall i :: 0 <= i < |ks| ==> ks[i] in records
    ensures totalDone == Tally(records, ks, Done, Everywhere)
    ensures totalMissed == Tally(records, ks, Missed, Everywhere)
    ensures monthDone == Tally(records, ks, Done, month)
    ensures monthMissed == Tally(records, ks, Missed, month)
  {
    totalDone, totalMissed, monthDone, monthMissed := 0, 0, 0, 0;
    var i := 0;
    while i < |ks|
      invariant i <= |ks|
      invariant totalDone == Tally(records, ks[..i], Done, Everywhere)
      invariant totalMissed == Tally(records, ks[..i], Missed, Everywhere)
      invariant monthDone == Tally(records, ks[..i], Done, month)
      invariant monthMissed == Tally(records, ks[..i], Missed, month)
    {
      var day := ks[i];
      TallyStep(records, ks, i, Done, Everywhere);
      TallyStep(records, ks, i, Missed, Everywhere);
      TallyStep(records, ks, i, Done, month);
      TallyStep(records, ks, i, Missed, month);
      if records[day] == Done {
        totalDone := totalDone + 1;
        if InScope(day, month) {
          monthDone := monthDone + 1;
        }
      } else {
        totalMissed := totalMissed + 1;
        if InScope(day, month) {
          monthMissed := monthMissed + 1;
        }
      }
      i := i + 1;
    }
    WholePrefix(ks);
  }

  /** One pass over the days ks counting the done and the missed days in scope. */
  method TallyIn(records: ReadingRecords, ks: seq<int>, scope: Scope) returns (done: nat, missed: nat)
    requires forall i :: 0 <= i < |ks| ==> ks[i] in records
    ensures done == Tally(records, ks, Done, scope)
    ensures missed == Tally(records, ks, Missed, scope)
  {
    done, missed := 0, 0;
    for i := 0 to |ks|
      invariant done == Tally(records, ks[..i], Done, scope)
      invariant missed == Tally(records, ks[..i], Missed, scope)
    {
      var day := ks[i];
      TallyStep(records, ks, i, Done, scope);
      TallyStep(records, ks, i, Missed, scope);
      if InScope(day, scope) {
        if records[day] == Done {
          done := done + 1;
        } else {
          missed := missed + 1;
        }
      }
    }
    WholePrefix(ks);
  }

  /** The tracker: the records of the signed-in reader, updated in place. */
  class ReadingTracker {
    var records: ReadingRecords
    var isLoading: bool

    /** No records while the stored ones load. */
    constructor()
      ensures records == map[] && isLoading
    {
      records := map[];
      isLoading := true;
    }

    /**
     * The end of the initial fetch: fetched rows replace the records; a failed
     * fetch (none) keeps them. Either way loading is over.
     */
    method FinishLoading(fetched: Option<ReadingRecords>)
      modifies this
      ensures records == (if fetched.Some? then fetched.value else old(records))
      ensures !isLoading
    {
      if fetched.Some? {
        records := fetched.value;
      }
      isLoading := false;
    }

    /** Stores a status for a day, or removes the day's entry for "unmarked". */
    method SetStatus(day: int, st: Option<ReadingStatus>)
      modifies this
      ensures records == SetStatusIn(old(records), day, st)
      ensures isLoading == old(isLoading)
    {
      if st.None? {
        records := records - {day};
      } else {
        records := records[day := st.value];
      }
    }

    /** Moves a day one step along unmarked, done, missed. */
    method ToggleStatus(day: int)
      modifies this
      ensures records == ToggleIn(old(records), day)
      ensures isLoading == old(isLoading)
    {
      var current := StatusOf(records, day);
      var next: Option<ReadingStatus>;
      if current.None? {
        next := Some(Done);
      } else if current.value == Done {
        next := Some(Missed);
      } else {
        next := None;
      }
      SetStatus(day, next);
    }

    /** Computes the summary figures for the given day. */
    method GetStats(today: int) returns (s: ReadingSummary)
      ensures s == SummaryOf(records, today)
    {
      var totalDone, totalMissed, monthDone, monthMissed := TallyStatuses(records, SortedDays(records.Keys), MonthScope(today));
      var longest := LongestRunOf(DoneDates(records, Everywhere));
      var current := CurrentStreak(today);
      s := ReadingSummary(totalDone, totalMissed, monthDone, monthMissed, current, longest);
    }

    /** Walks back from today while days are done, skipping an unmarked today. */
    method CurrentStreak(today: int) returns (streak: nat)
      ensures streak == CurrentStreakOf(records, today)
    {
      var check := today;
      streak := 0;
      while true
        invariant check <= today
        invariant check == today ==> streak == 0
        invariant check < today ==> streak + RunBack(records, check) == CurrentStreakOf(records, today)
        decreases |DoneUpTo(records, check)| + (if check == today then 1 else 0)
      {
        if check in records && records[check] == Done {
          assert check in DoneUpTo(records, check);
          ProperSubsetSmaller(DoneUpTo(records, check - 1), DoneUpTo(records, check));
          streak := streak + 1;
          check := check - 1;
        } else if check == today && check !in records {
          assert DoneUpTo(records, check - 1) == DoneUpTo(records, check);
          check := check - 1;
        } else {
          break;
        }
      }
    }
  }

  /**
   * The longest run of consecutive done days: one pass over the sorted done
   * dates, a gap of exactly one day extending the current run.
   */
  method LongestRunOf(ds: seq<int>) returns (longest: nat)
    ensures longest == LongestRun(ds)
  {
    longest := 0;
    var temp := 0;
    var i := 0;
    while i < |ds|
      invariant i <= |ds|
      invariant longest == LongestUpTo(ds, i)
      invariant i > 0 ==> temp == RunEndingAt(ds, i - 1)
    {
      if i > 0 {
        if ds[i] - ds[i - 1] == 1 {
          temp := temp + 1;
        } else {
          temp := 1;
        }
      } else {
        temp := 1;
      }
      longest := Max(longest, temp);
      i := i + 1;
    }
  }
}
