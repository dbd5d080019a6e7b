/**
 * The reading calendar: a month grid whose day cells show the day's reading
 * status; clicking a day that is not in the future toggles its status.
 */
module ReadingCalendar {

  import opened Wrappers
  import opened Calendar
  import opened Reading
  import opened CalendarGrid

  /** A day cell: the day's status and whether it lies in the future. */
  datatype ReadingCell = ReadingCell(status: Option<ReadingStatus>, future: bool)

  function ReadingCellOn(records: ReadingRecords, today: int): int -> ReadingCell {
    (date: int) => ReadingCell(StatusOf(records, date), IsFuture(date, today))
  }

  /** `renderDays` of the reading calendar for month m of year y: `startDay` blanks, then days 1..daysInMonth. */
  method RenderDays(records: ReadingRecords, y: int, m: int, today: int) returns (cells: seq<Cell<ReadingCell>>)
    requires 0 <= m < 12
    ensures |cells| == StartDay(y, m) + DaysInMonth(y, m)
    ensures forall i :: 0 <= i < StartDay(y, m) ==> cells[i] == Blank
    ensures forall day :: 1 <= day <= DaysInMonth(y, m) ==>
      cells[StartDay(y, m) + day - 1] == Day(day, ReadingCellOn(records, today)(DateOf(y, m, day)))
  {
    var startDay, first, cellOn := StartDay(y, m), MonthStart(y, m), ReadingCellOn(records, today);
    cells := LayOut(startDay, DaysInMonth(y, m), first, cellOn);
    forall day | 1 <= day <= DaysInMonth(y, m)
      ensures cells[startDay + day - 1] == Day(day, cellOn(DateOf(y, m, day)))
    {
      assert DateOf(y, m, day) == first + (startDay + day - 1) - startDay;
    }
  }

  /** `onClick={() => !future && handleDayClick(day)}`: only a day up to today is toggled. */
  method ClickDay(tracker: ReadingTracker, date: int, today: int)
    modifies tracker
    ensures IsFuture(date, today) ==> tracker.records == old(tracker.records)
    ensures !IsFuture(date, today) ==> tracker.records == ToggleIn(old(tracker.records), date)
    ensures tracker.isLoading == old(tracker.isLoading)
  {
    if !IsFuture(date, today) {
      tracker.ToggleStatus(date);
    }
  }

  /** The records after a series of clicks on the calendar. */
  function AfterClicks(records: ReadingRecords, clicks: seq<int>, today: int): ReadingRecords {
    if clicks == [] then records
    else
      var before := AfterClicks(records, clicks[..|clicks| - 1], today);
      var date := clicks[|clicks| - 1];
      if IsFuture(date, today) then before else ToggleIn(before, date)
  }

  /** However the calendar is clicked, the status of a future day never changes. */
  lemma {:induction false} FutureDaysUntouched(records: ReadingRecords, clicks: seq<int>, today: int, d: int)
    requires IsFuture(d, today)
    ensures StatusOf(AfterClicks(records, clicks, today), d) == StatusOf(records, d)
  {
    if clicks != [] {
      FutureDaysUntouched(records, clicks[..|clicks| - 1], today, d);
    }
  }
}
