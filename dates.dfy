/** Calendar dates as the ledger stores them in its DATE columns (Python's
    `datetime.date` range: proleptic Gregorian calendar, years 1 to 9999). */
module Dates {

  datatype Date = Date(day: int, month: int, year: int)

  predicate IsLeapYear(year: int) {
    year % 4 == 0 && (year % 100 != 0 || year % 400 == 0)
  }

  function DaysInMonth(month: int, year: int): (n: int)
    ensures 28 <= n <= 31
  {
    if month == 2 then (if IsLeapYear(year) then 29 else 28)
    else if month == 4 || month == 6 || month == 9 || month == 11 then 30
    else 31
  }

  /** A date `datetime` accepts: MINYEAR..MAXYEAR, a real month, a day within it. */
  predicate ValidDate(d: Date) {
    1 <= d.year <= 9999 && 1 <= d.month <= 12 && 1 <= d.day <= DaysInMonth(d.month, d.year)
  }

  /** Chronological order, as SQL compares DATE values. */
  predicate Le(a: Date, b: Date) {
    a.year < b.year || (a.year == b.year && (a.month < b.month || (a.month == b.month && a.day <= b.day)))
  }

  /** Oracle's TRUNC(d, 'MONTH'). */
  function FirstOfMonth(d: Date): Date {
    Date(1, d.month, d.year)
  }

  function LastOfMonth(d: Date): Date {
    Date(DaysInMonth(d.month, d.year), d.month, d.year)
  }

  predicate SameMonth(a: Date, b: Date) {
    FirstOfMonth(a) == FirstOfMonth(b)
  }

  /** The closed range from the first to the last day of a month holds exactly
      the valid dates of that month. */
  lemma MonthIsClosedRange(m: Date, d: Date)
    requires ValidDate(d)
    ensures Le(FirstOfMonth(m), d) && Le(d, LastOfMonth(m)) <==> SameMonth(d, m)
  {
  }
}
