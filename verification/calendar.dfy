/**
 * Dates as the store holds them (`YYYY-MM-DD`) and the month window the
 * monthly report queries with.  Zero-padded ISO date strings compare in the
 * same order as (year, month, day) triples compared lexicographically, which
 * is the order used here.
 */
module Calendar {

  datatype Date = Date(year: int, month: int, day: int)

  /** `a` is on or before `b`. */
  predicate DateLe(a: Date, b: Date) {
    || a.year < b.year
    || (a.year == b.year && a.month < b.month)
    || (a.year == b.year && a.month == b.month && a.day <= b.day)
  }

  lemma DateLeTotal(a: Date, b: Date)
    ensures DateLe(a, b) || DateLe(b, a)
  {
  }

  /** An inclusive date range, as given to `.gte(start)` and `.lte(end)`. */
  datatype Window = Window(start: Date, end: Date)

  predicate InWindow(d: Date, w: Window) {
    DateLe(w.start, d) && DateLe(d, w.end)
  }

  /**
   * The window of the monthly report for the month `YYYY-MM`: from day 01
   * to the literal day 31, whatever the length of the month.
   */
  function MonthWindow(year: int, month: int): Window {
    Window(Date(year, month, 1), Date(year, month, 31))
  }

  predicate IsLeapYear(year: int) {
    (year % 4 == 0 && year % 100 != 0) || year % 400 == 0
  }

  /** The Gregorian length of a month. */
  function DaysInMonth(year: int, month: int): (n: int)
    requires 1 <= month <= 12
    ensures 28 <= n <= 31
    ensures month == 2 <==> n < 30
  {
    if month == 2 then (if IsLeapYear(year) then 29 else 28)
    else if month == 4 || month == 6 || month == 9 || month == 11 then 30
    else 31
  }

  /** A date that exists on the Gregorian calendar. */
  predicate ValidDate(d: Date) {
    1 <= d.month <= 12 && 1 <= d.day <= DaysInMonth(d.year, d.month)
  }

  /** The window a calendar-exact month would use: day 1 to the month's real last day. */
  function CalendarMonthWindow(year: int, month: int): (w: Window)
    requires 1 <= month <= 12
    ensures ValidDate(w.start) && ValidDate(w.end)
  {
    Window(Date(year, month, 1), Date(year, month, DaysInMonth(year, month)))
  }

  /**
   * On real calendar dates the literal day-31 window selects exactly the
   * dates of the requested month: nothing from the next month leaks in and
   * no day of the month is missed.
   */
  lemma MonthWindowSelectsMonth(d: Date, year: int, month: int)
    requires ValidDate(d)
    ensures InWindow(d, MonthWindow(year, month)) <==> d.year == year && d.month == month
  {
  }

  /** So on real calendar dates the literal window and the calendar-exact one agree. */
  lemma MonthWindowMatchesCalendar(d: Date, year: int, month: int)
    requires 1 <= month <= 12
    requires ValidDate(d)
    ensures InWindow(d, MonthWindow(year, month)) <==> InWindow(d, CalendarMonthWindow(year, month))
  {
    MonthWindowSelectsMonth(d, year, month);
  }

  /**
   * In a month shorter than 31 days the literal window's upper bound is not a
   * calendar date, and every day-number past the month's end up to 31 lies
   * inside the window.
   */
  lemma ShortMonthOverreach(year: int, month: int)
    requires 1 <= month <= 12
    requires DaysInMonth(year, month) < 31
    ensures !ValidDate(MonthWindow(year, month).end)
    ensures forall day :: DaysInMonth(year, month) < day <= 31 ==>
              InWindow(Date(year, month, day), MonthWindow(year, month)) && !ValidDate(Date(year, month, day))
    ensures !InWindow(MonthWindow(year, month).end, CalendarMonthWindow(year, month))
  {
  }

  /** February in particular: the window admits 30 and 31 February (and 29 in a common year). */
  lemma FebruaryOverreach(year: int)
    ensures InWindow(Date(year, 2, 30), MonthWindow(year, 2)) && !ValidDate(Date(year, 2, 30))
    ensures InWindow(Date(year, 2, 31), MonthWindow(year, 2)) && !ValidDate(Date(year, 2, 31))
    ensures !IsLeapYear(year) ==> InWindow(Date(year, 2, 29), MonthWindow(year, 2)) && !ValidDate(Date(year, 2, 29))
  {
    ShortMonthOverreach(year, 2);
  }
}
