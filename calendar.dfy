/**
 * Calendar arithmetic on day numbers. A day number counts days from 1970-01-01
 * (day 0) in the proleptic Gregorian calendar; the statistics code keys its logs by
 * ISO `YYYY-MM-DD` strings, and two keys compare as strings exactly when their day
 * numbers compare as integers. Months are numbered 0..11, as JavaScript's
 * `getMonth` numbers them.
 */
module Calendar {

  import opened Arith

  predicate IsLeapYear(y: int) {
    y % 4 == 0 && (y % 100 != 0 || y % 400 == 0)
  }

  function DaysInYear(y: int): (n: nat)
    ensures n == 365 || n == 366
    ensures n == 366 <==> IsLeapYear(y)
  {
    if IsLeapYear(y) then 366 else 365
  }

  /** Leap years among 1..y (negated count for y < 0). */
  function LeapsThrough(y: int): int {
    y / 4 - y / 100 + y / 400
  }

  /** Day number of January 1 of year y. */
  function Jan1(y: int): int {
    365 * (y - 1970) + LeapsThrough(y - 1) - LeapsThrough(1969)
  }

  lemma {:induction false} Jan1Next(y: int)
    ensures Jan1(y + 1) == Jan1(y) + DaysInYear(y)
  {
    DivStep(y, 4);
    DivStep(y, 100);
    DivStep(y, 400);
  }

  lemma {:induction false} Jan1Increasing(y: int, z: int)
    requires y <= z
    ensures Jan1(y) + 365 * (z - y) <= Jan1(z)
    decreases z - y
  {
    if y < z {
      Jan1Increasing(y, z - 1);
      Jan1Next(z - 1);
    }
  }

  /** The year containing day d. */
  function YearOf(d: int): (y: int)
    ensures Jan1(y) <= d < Jan1(y + 1)
  {
    if d >= Jan1(1970) then YearUp(d, 1970) else YearDown(d, 1969)
  }

  function YearUp(d: int, y: int): (r: int)
    requires Jan1(y) <= d
    ensures Jan1(r) <= d < Jan1(r + 1)
    decreases d - Jan1(y)
  {
    Jan1Next(y);
    if d < Jan1(y + 1) then y else YearUp(d, y + 1)
  }

  function YearDown(d: int, y: int): (r: int)
    requires d < Jan1(y + 1)
    ensures Jan1(r) <= d < Jan1(r + 1)
    decreases Jan1(y + 1) - d
  {
    Jan1Next(y);
    if Jan1(y) <= d then y else YearDown(d, y - 1)
  }

  /** Years do not overlap: the year bracketing a day is the only one. */
  lemma YearOfUnique(d: int, y: int)
    requires Jan1(y) <= d < Jan1(y + 1)
    ensures YearOf(d) == y
  {
    var x := YearOf(d);
    Jan1Ordered(x, y);
    Jan1Ordered(y, x);
  }

  lemma Jan1Ordered(x: int, y: int)
    ensures x < y ==> Jan1(x + 1) <= Jan1(y)
  {
    if x < y {
      Jan1Increasing(x + 1, y);
    }
  }

  /** Days in month m (0 = January) of year y. */
  function DaysInMonth(y: int, m: int): (n: nat)
    requires 0 <= m < 12
    ensures 28 <= n <= 31
  {
    if m == 1 then (if IsLeapYear(y) then 29 else 28)
    else if m == 3 || m == 5 || m == 8 || m == 10 then 30
    else 31
  }

  /** Days of year y before month m (m = 12 gives the whole year). */
  function DaysBeforeMonth(y: int, m: int): (n: nat)
    requires 0 <= m <= 12
  {
    [0, 31, 59, 90, 120, 151, 181, 212, 243, 273, 304, 334, 365][m]
      + (if m >= 2 && IsLeapYear(y) then 1 else 0)
  }

  lemma MonthLengths(y: int, m: int)
    requires 0 <= m < 12
    ensures DaysBeforeMonth(y, m + 1) == DaysBeforeMonth(y, m) + DaysInMonth(y, m)
    ensures DaysBeforeMonth(y, 12) == DaysInYear(y)
  {
  }

  /** Day number of the first day of month m of year y. */
  function MonthStart(y: int, m: int): int
    requires 0 <= m <= 12
  {
    Jan1(y) + DaysBeforeMonth(y, m)
  }

  /** JavaScript's `new Date(y, m, day)` for a day inside the month. */
  function DateOf(y: int, m: int, day: int): (d: int)
    requires 0 <= m < 12 && 1 <= day <= DaysInMonth(y, m)
    ensures MonthStart(y, m) <= d < MonthStart(y, m + 1)
  {
    MonthLengths(y, m);
    MonthStart(y, m) + day - 1
  }

  /** The month (0..11) containing day d. */
  function MonthOf(d: int): (m: int)
    ensures 0 <= m < 12
    ensures MonthStart(YearOf(d), m) <= d < MonthStart(YearOf(d), m + 1)
  {
    var y := YearOf(d);
    Jan1Next(y);
    MonthFrom(d, y, 11)
  }

  function MonthFrom(d: int, y: int, m: int): (r: int)
    requires 0 <= m < 12
    requires Jan1(y) <= d < MonthStart(y, m + 1)
    ensures 0 <= r <= m
    ensures MonthStart(y, r) <= d < MonthStart(y, r + 1)
  {
    if m == 0 || MonthStart(y, m) <= d then m else MonthFrom(d, y, m - 1)
  }

  /** Day of the month, 1-based (JavaScript's `getDate`). */
  function DayOfMonth(d: int): (n: int)
    ensures 1 <= n <= DaysInMonth(YearOf(d), MonthOf(d))
  {
    MonthLengths(YearOf(d), MonthOf(d));
    d - MonthStart(YearOf(d), MonthOf(d)) + 1
  }

  /** JavaScript's `getDay`: 0 = Sunday ... 6 = Saturday (1970-01-01 was a Thursday). */
  function JsWeekday(d: int): (w: int)
    ensures 0 <= w < 7
  {
    (d + 4) % 7
  }

  /** ISO weekday, 1 = Monday ... 7 = Sunday (`getUTCDay() || 7`). */
  function IsoWeekday(d: int): (n: int)
    ensures 1 <= n <= 7
    ensures n - 1 == (d + 3) % 7
  {
    if JsWeekday(d) == 0 then 7 else JsWeekday(d)
  }

  /** The Thursday of d's Monday-to-Sunday week. */
  function Thursday(d: int): int {
    d + 4 - IsoWeekday(d)
  }

  /** The week number of a Thursday: whole weeks since January 1 of its year, plus one. */
  function WeekOfThursday(thursday: int): (w: int)
    ensures 1 <= w <= 53
  {
    var y := YearOf(thursday);
    assert thursday - Jan1(y) < 366 by {
      Jan1Next(y);
    }
    (thursday - Jan1(y)) / 7 + 1
  }

  /**
   * The ISO-8601 week number of day d: the week is numbered by its Thursday,
   * counting weeks from January 1 of the Thursday's year.
   */
  function IsoWeek(d: int): (w: int)
    ensures 1 <= w <= 53
  {
    WeekOfThursday(Thursday(d))
  }

  /** The seven days from a Monday through the Sunday share one week number. */
  lemma IsoWeekSharedByWeek(monday: int, k: int)
    requires IsoWeekday(monday) == 1 && 0 <= k < 7
    ensures IsoWeekday(monday + k) == k + 1
    ensures IsoWeek(monday + k) == IsoWeek(monday)
  {
    WeekdayAfterMonday(monday, k);
    SameThursday(monday + k, monday);
  }

  lemma WeekdayAfterMonday(monday: int, k: int)
    requires (monday + 3) % 7 == 0 && 0 <= k < 7
    ensures (monday + k + 3) % 7 == k
  {
    DivUnique(monday + k + 3, 7, (monday + 3) / 7, k);
  }

  /** Days with the same Thursday have the same week number. */
  lemma SameThursday(a: int, b: int)
    requires Thursday(a) == Thursday(b)
    ensures IsoWeek(a) == IsoWeek(b)
  {
  }

}
