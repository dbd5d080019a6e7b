/**
 * The month grid both calendars draw: seven columns headed Monday to Sunday,
 * as many blank cells as the weekday of the first of the month is past
 * Monday, then one cell per day of the month. A day after today is in the
 * future and cannot be picked.
 */
module CalendarGrid {

  import opened Calendar

  /**
   * The column of the first of the month, Monday = 0 ... Sunday = 6:
   * `getDay() - 1`, with Sunday's -1 moved to 6.
   */
  function StartDay(y: int, m: int): (s: nat)
    requires 0 <= m < 12
    ensures s < 7
    ensures s == IsoWeekday(MonthStart(y, m)) - 1
  {
    var s := JsWeekday(MonthStart(y, m)) - 1;
    if s < 0 then 6 else s
  }

  /** Every day of the month lands in the column of its own weekday. */
  lemma ColumnIsWeekday(y: int, m: int, day: int)
    requires 0 <= m < 12 && 1 <= day <= DaysInMonth(y, m)
    ensures (StartDay(y, m) + day - 1) % 7 == IsoWeekday(DateOf(y, m, day)) - 1
  {
    var first := MonthStart(y, m);
    assert DateOf(y, m, day) == first + (day - 1);
    WeekdayShift(first, day - 1);
  }

  lemma WeekdayShift(first: int, k: nat)
    ensures ((first + 3) % 7 + k) % 7 == (first + k + 3) % 7
  {
    var q := (first + 3) / 7;
    assert first + 3 == 7 * q + (first + 3) % 7;
    assert first + k + 3 == 7 * q + ((first + 3) % 7 + k);
  }

  /** `Math.ceil((startDay + daysInMonth) / 7)`: the fewest rows that hold all the cells. */
  function NumRows(startDay: nat, daysInMonth: nat): (rows: nat)
    ensures 7 * rows >= startDay + daysInMonth
    ensures rows > 0 ==> 7 * (rows - 1) < startDay + daysInMonth
  {
    (startDay + daysInMonth + 6) / 7
  }

  /** A month grid has four to six rows. */
  lemma MonthRows(y: int, m: int)
    requires 0 <= m < 12
    ensures 4 <= NumRows(StartDay(y, m), DaysInMonth(y, m)) <= 6
  {
  }

  /** A cell of the grid: a blank before the first of the month, or a day with what it shows. */
  datatype Cell<T> = Blank | Day(day: int, content: T)

  /**
   * `renderDays`: pushes `startDay` blanks, then the cell of each day
   * 1..daysInMonth, whose content is computed from its date (`first` is the
   * date of day 1).
   */
  method LayOut<T>(startDay: nat, daysInMonth: nat, first: int, content: int -> T) returns (cells: seq<Cell<T>>)
    ensures |cells| == startDay + daysInMonth
    ensures forall i :: 0 <= i < startDay ==> cells[i] == Blank
    ensures forall i :: startDay <= i < |cells| ==> cells[i] == Day(i - startDay + 1, content(first + i - startDay))
  {
    cells := [];
    for i := 0 to startDay
      invariant cells == seq(i, _ => Blank)
    {
      cells := cells + [Blank];
      assert cells == seq(i + 1, _ => Blank);
    }
    for day := 1 to daysInMonth + 1
      invariant |cells| == startDay + day - 1
      invariant forall i :: 0 <= i < startDay ==> cells[i] == Blank
      invariant forall i :: startDay <= i < |cells| ==> cells[i] == Day(i - startDay + 1, content(first + i - startDay))
    {
      cells := cells + [Day(day, content(first + day - 1))];
    }
  }

  /** The cells fill the rows without a row to spare. */
  lemma CellsFitRows(startDay: nat, daysInMonth: nat)
    ensures startDay + daysInMonth <= 7 * NumRows(startDay, daysInMonth)
    ensures 7 * NumRows(startDay, daysInMonth) < startDay + daysInMonth + 7
  {
  }

  /** `date > todayStart`: a day strictly after today. */
  predicate IsFuture(date: int, today: int) {
    date > today
  }

  /** `isToday(day)`: the day, month and year all match today's. */
  predicate IsToday(y: int, m: int, day: int, today: int)
    requires 0 <= m < 12
  {
    DayOfMonth(today) == day && MonthOf(today) == m && YearOf(today) == y
  }

  /** Matching day, month and year is being today's date. */
  lemma IsTodayIsToday(y: int, m: int, day: int, today: int)
    requires 0 <= m < 12 && 1 <= day <= DaysInMonth(y, m)
    ensures IsToday(y, m, day, today) <==> DateOf(y, m, day) == today
  {
    if DateOf(y, m, day) == today {
      DateInItsMonth(y, m, day);
    }
  }

  /** The date of a day of a month reads back as that year, month and day. */
  lemma DateInItsMonth(y: int, m: int, day: int)
    requires 0 <= m < 12 && 1 <= day <= DaysInMonth(y, m)
    ensures YearOf(DateOf(y, m, day)) == y && MonthOf(DateOf(y, m, day)) == m
    ensures DayOfMonth(DateOf(y, m, day)) == day
  {
    var d := DateOf(y, m, day);
    MonthStartMonotone(y, 0, m);
    MonthStartMonotone(y, m + 1, 12);
    MonthLengths(y, 11);
    Jan1Next(y);
    assert MonthStart(y, 0) == Jan1(y);
    assert MonthStart(y, 12) == Jan1(y + 1);
    YearOfUnique(d, y);
    MonthOfUnique(d, m);
  }

  /** Only one month of a year holds a given day. */
  lemma MonthOfUnique(d: int, m: int)
    requires 0 <= m < 12
    requires MonthStart(YearOf(d), m) <= d < MonthStart(YearOf(d), m + 1)
    ensures MonthOf(d) == m
  {
    var y := YearOf(d);
    var n := MonthOf(d);
    if n < m {
      MonthStartMonotone(y, n + 1, m);
    } else if n > m {
      MonthStartMonotone(y, m + 1, n);
    }
  }

  lemma MonthStartMonotone(y: int, a: int, b: int)
    requires 0 <= a <= b <= 12
    ensures MonthStart(y, a) <= MonthStart(y, b)
  {
  }
}
