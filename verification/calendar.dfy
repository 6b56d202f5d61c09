/** Proleptic Gregorian dates as Python's `datetime` and `calendar.monthrange`
    see them: years 1..9999, month lengths with the leap-year rule. */
module Calendar {

  datatype Date = Date(year: int, month: int, day: int)

  /** Divisible by 4, except centuries not divisible by 400. */
  predicate IsLeapYear(y: int) {
    y % 4 == 0 && (y % 100 != 0 || y % 400 == 0)
  }

  /** `calendar.monthrange(y, m)[1]`. */
  function DaysInMonth(y: int, m: int): (n: int)
    requires 1 <= m <= 12
    ensures 28 <= n <= 31
  {
    if m == 2 then (if IsLeapYear(y) then 29 else 28)
    else if m == 4 || m == 6 || m == 9 || m == 11 then 30
    else 31
  }

  /** What `datetime(y, m, d)` accepts without raising `ValueError`. */
  predicate ValidDate(d: Date) {
    1 <= d.year <= 9999 && 1 <= d.month <= 12 && 1 <= d.day <= DaysInMonth(d.year, d.month)
  }

  type CalendarDate = d: Date | ValidDate(d) witness Date(1, 1, 1)

  /** `__getMonthEndDate`: the last calendar day of the month containing `d`. */
  function MonthEnd(d: CalendarDate): (r: CalendarDate)
    ensures r.year == d.year && r.month == d.month
    ensures d.day <= r.day
    ensures !ValidDate(Date(r.year, r.month, r.day + 1))
  {
    Date(d.year, d.month, DaysInMonth(d.year, d.month))
  }

  function DaysInYear(y: int): int {
    SumMonths(y, 12)
  }

  /** Days in months 1..k of year y. */
  function SumMonths(y: int, k: nat): int
    requires k <= 12
  {
    if k == 0 then 0 else SumMonths(y, k - 1) + DaysInMonth(y, k)
  }

  /** The twelve month lengths add up to the length of the Gregorian year. */
  lemma YearLength(y: int)
    ensures DaysInYear(y) == if IsLeapYear(y) then 366 else 365
  {
    var feb := DaysInMonth(y, 2);
    assert SumMonths(y, 1) == 31;
    assert SumMonths(y, 2) == 31 + feb;
    assert SumMonths(y, 3) == 62 + feb;
    assert SumMonths(y, 4) == 92 + feb;
    assert SumMonths(y, 5) == 123 + feb;
    assert SumMonths(y, 6) == 153 + feb;
    assert SumMonths(y, 7) == 184 + feb;
    assert SumMonths(y, 8) == 215 + feb;
    assert SumMonths(y, 9) == 245 + feb;
    assert SumMonths(y, 10) == 276 + feb;
    assert SumMonths(y, 11) == 306 + feb;
  }

  /** The month ends the transaction grouper is known for. */
  lemma MonthEndExamples()
    ensures MonthEnd(Date(2024, 2, 15)).day == 29
    ensures MonthEnd(Date(2025, 2, 15)).day == 28
    ensures MonthEnd(Date(2025, 7, 15)) == Date(2025, 7, 31)
    ensures MonthEnd(Date(1900, 2, 1)).day == 28
    ensures MonthEnd(Date(2000, 2, 1)).day == 29
  {
  }
}
