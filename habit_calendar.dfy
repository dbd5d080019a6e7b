/**
 * The habit calendar: a month grid whose day cells show how many of the
 * habits running that day were done or missed, which days can be opened
 * (not the future) and which of them can still be edited (today, or
 * yesterday until noon).
 */
module HabitCalendar {

  import opened Wrappers
  import opened Lists
  import opened Calendar
  import opened Habits
  import opened CalendarGrid

  /**
   * A habit runs on a day when it has started by then and has not ended
   * before it. The source compares `yyyy-MM-dd` strings, whose order is the
   * order of the day numbers.
   */
  predicate ValidOn(h: Goal, day: int) {
    h.startDate <= day && (h.endDate.None? || h.endDate.value >= day)
  }

  /** `validHabits`: the habits running on the day, in their listed order. */
  function ValidHabits(habits: seq<Goal>, day: int): (r: seq<Goal>)
    ensures |r| <= |habits|
    ensures forall i :: 0 <= i < |r| ==> r[i] in habits && ValidOn(r[i], day)
    ensures forall i :: 0 <= i < |habits| && ValidOn(habits[i], day) ==> habits[i] in r
  {
    Filter(habits, (h: Goal) => ValidOn(h, day))
  }

  /** What a day cell shows: done and missed counts among the habits running that day. */
  datatype DayProgress = DayProgress(completed: nat, missed: nat, marked: nat, totalHabits: nat)
  {
    /** `markedCount > 0`: the cell is coloured. */
    predicate HasActivity() {
      marked > 0
    }

    /** `completionPct === 1`: every running habit was done (the glow). */
    predicate AllDone() {
      totalHabits > 0 && completed == totalHabits
    }
  }

  function HasStatus(logs: GoalLogs, day: int, st: Status): Goal -> bool {
    (h: Goal) => StatusOn(logs, day, h.id) == Some(st)
  }

  /** The counts of one day's cell. */
  function ProgressOn(habits: seq<Goal>, logs: GoalLogs, day: int): (p: DayProgress)
    ensures p.completed + p.missed == p.marked <= p.totalHabits == |ValidHabits(habits, day)|
  {
    var valid := ValidHabits(habits, day);
    var completed := |Filter(valid, HasStatus(logs, day, Done))|;
    var missed := |Filter(valid, HasStatus(logs, day, Missed))|;
    FilterExclusive(valid, HasStatus(logs, day, Done), HasStatus(logs, day, Missed));
    DayProgress(completed, missed, completed + missed, |valid|)
  }

  /** Two tests no element passes together select at most all the elements between them. */
  lemma {:induction false} FilterExclusive<T>(s: seq<T>, p: T -> bool, q: T -> bool)
    requires forall i :: 0 <= i < |s| ==> !(p(s[i]) && q(s[i]))
    ensures |Filter(s, p)| + |Filter(s, q)| <= |s|
  {
    if s != [] {
      FilterExclusive(s[1..], p, q);
    }
  }

  /** A day nobody could log has no activity; a fully done day has no missed habit. */
  lemma ProgressFacts(habits: seq<Goal>, logs: GoalLogs, day: int)
    ensures ValidHabits(habits, day) == [] ==> !ProgressOn(habits, logs, day).HasActivity()
    ensures ProgressOn(habits, logs, day).AllDone() ==> ProgressOn(habits, logs, day).missed == 0
  {
  }

  /** A habit done on the day is counted when it runs that day. */
  lemma DoneHabitCounted(habits: seq<Goal>, logs: GoalLogs, day: int, h: Goal)
    requires h in habits && ValidOn(h, day) && StatusOn(logs, day, h.id) == Some(Done)
    ensures ProgressOn(habits, logs, day).completed > 0
  {
    var valid := ValidHabits(habits, day);
    var i :| 0 <= i < |habits| && habits[i] == h;
    assert h in valid;
    var j :| 0 <= j < |valid| && valid[j] == h;
    assert h in Filter(valid, HasStatus(logs, day, Done));
  }

  /** A day cell: its counts and whether it lies in the future. */
  datatype DayCell = DayCell(progress: DayProgress, future: bool)

  function CellOn(habits: seq<Goal>, logs: GoalLogs, today: int): int -> DayCell {
    (date: int) => DayCell(ProgressOn(habits, logs, date), IsFuture(date, today))
  }

  /** `renderDays` of the habit calendar for month m of year y. */
  method RenderDays(habits: seq<Goal>, logs: GoalLogs, y: int, m: int, today: int) returns (cells: seq<Cell<DayCell>>)
    requires 0 <= m < 12
    ensures |cells| == StartDay(y, m) + DaysInMonth(y, m) <= 7 * NumRows(StartDay(y, m), DaysInMonth(y, m))
    ensures forall i :: 0 <= i < StartDay(y, m) ==> cells[i] == Blank
    ensures forall day :: 1 <= day <= DaysInMonth(y, m) ==>
      cells[StartDay(y, m) + day - 1] == Day(day, CellOn(habits, logs, today)(DateOf(y, m, day)))
  {
    var startDay, first, cellOn := StartDay(y, m), MonthStart(y, m), CellOn(habits, logs, today);
    cells := LayOut(startDay, DaysInMonth(y, m), first, cellOn);
    forall day | 1 <= day <= DaysInMonth(y, m)
      ensures cells[startDay + day - 1] == Day(day, cellOn(DateOf(y, m, day)))
    {
      assert DateOf(y, m, day) == first + (startDay + day - 1) - startDay;
    }
  }

  /**
   * A day can be edited when it is today, or when it is yesterday and the
   * clock has not reached noon (`getHours() < 12`).
   */
  predicate Editable(date: int, today: int, hour: int) {
    date == today || (date == today - 1 && hour < 12)
  }

  /** Editable days are never in the future, and after noon only today is. */
  lemma EditableDays(date: int, today: int, hour: int)
    ensures Editable(date, today, hour) ==> !IsFuture(date, today) && today - 1 <= date
    ensures hour >= 12 ==> (Editable(date, today, hour) <==> date == today)
  {
  }

  /** The details dialog is read-only with no day selected or a day that can no longer be edited. */
  function ReadOnly(selected: Option<int>, today: int, hour: int): (r: bool)
    ensures !r <==> selected.Some? && Editable(selected.value, today, hour)
  {
    if selected.Some? then !Editable(selected.value, today, hour) else true
  }

  /** A click on a day cell: future days are disabled and keep the current selection. */
  function Click(selected: Option<int>, date: int, today: int): (r: Option<int>)
    ensures IsFuture(date, today) ==> r == selected
    ensures !IsFuture(date, today) ==> r == Some(date)
  {
    if IsFuture(date, today) then selected else Some(date)
  }

  /** Clicks never select a future day. */
  lemma {:induction false} ClicksNeverSelectFuture(clicks: seq<int>, today: int)
    ensures var s := Clicks(None, clicks, today); s.Some? ==> !IsFuture(s.value, today)
  {
    if clicks != [] {
      ClicksNeverSelectFuture(clicks[..|clicks| - 1], today);
    }
  }

  /** The selection after a series of clicks. */
  function Clicks(selected: Option<int>, clicks: seq<int>, today: int): Option<int> {
    if clicks == [] then selected
    else Click(Clicks(selected, clicks[..|clicks| - 1], today), clicks[|clicks| - 1], today)
  }
}
