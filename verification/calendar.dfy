/** Proleptic Gregorian calendar days and local date-times, the decoded form of a
    JavaScript `Date` (what `getFullYear`, `getMonth() + 1`, `getDate`, `getHours`
    and `getMinutes` report), and the previous-day step `setDate(getDate() - 1)`. */
module Calendar {

  predicate IsLeapYear(y: int) {
    y % 4 == 0 && (y % 100 != 0 || y % 400 == 0)
  }

  function DaysInMonth(y: int, m: int): (n: int)
    requires 1 <= m <= 12
    ensures 28 <= n <= 31
    ensures m == 2 ==> (n == 29 <==> IsLeapYear(y))
  {
    if m == 2 then (if IsLeapYear(y) then 29 else 28)
    else if m == 4 || m == 6 || m == 9 || m == 11 then 30
    else 31
  }

  datatype CalendarDay = CalendarDay(year: int, month: int, day: int)

  predicate IsValidDay(d: CalendarDay) {
    1 <= d.month <= 12 && 1 <= d.day <= DaysInMonth(d.year, d.month)
  }

  /** A day that exists in the calendar. */
  type Day = d: CalendarDay | IsValidDay(d) witness CalendarDay(1970, 1, 1)

  /** Strict chronological order on calendar days (year, then month, then day). */
  predicate Before(a: CalendarDay, b: CalendarDay) {
    a.year < b.year || (a.year == b.year && (a.month < b.month || (a.month == b.month && a.day < b.day)))
  }

  /** The local calendar components of a valid `Date` value. */
  datatype LocalDateTime = LocalDateTime(year: int, month: int, day: int, hour: int, minute: int) {
    predicate WellFormed() {
      IsValidDay(CalendarDay(year, month, day)) && 0 <= hour < 24 && 0 <= minute < 60
    }
  }

  type Moment = t: LocalDateTime | t.WellFormed() witness LocalDateTime(1970, 1, 1, 0, 0)

  /** The calendar day of a moment: the moment with its time set to midnight. */
  function DayOf(t: Moment): (d: Day)
    ensures d.year == t.year && d.month == t.month && d.day == t.day
  {
    CalendarDay(t.year, t.month, t.day)
  }

  /** The calendar day before `d`, rolling back over month and year ends. The result
      precedes `d`, and no day lies strictly between the two. */
  function PrevDay(d: Day): (p: Day)
    ensures Before(p, d)
    ensures forall e: CalendarDay :: IsValidDay(e) && Before(e, d) ==> e == p || Before(e, p)
  {
    if d.day > 1 then CalendarDay(d.year, d.month, d.day - 1)
    else if d.month > 1 then CalendarDay(d.year, d.month - 1, DaysInMonth(d.year, d.month - 1))
    else CalendarDay(d.year - 1, 12, 31)
  }

  /** The calendar day after `d`. */
  function NextDay(d: Day): (n: Day)
    ensures Before(d, n)
  {
    if d.day < DaysInMonth(d.year, d.month) then CalendarDay(d.year, d.month, d.day + 1)
    else if d.month < 12 then CalendarDay(d.year, d.month + 1, 1)
    else CalendarDay(d.year + 1, 1, 1)
  }

  /** Stepping back a day and then forward a day returns to the start, and so does
      the reverse; in particular `PrevDay` is injective. */
  lemma PrevNextInverse(d: Day)
    ensures NextDay(PrevDay(d)) == d
    ensures PrevDay(NextDay(d)) == d
  {
  }

  /** `PrevDay` is determined by the calendar order alone: any valid day that
      precedes `d` with nothing in between is `PrevDay(d)`. */
  lemma PrevDayUnique(d: Day, e: Day)
    requires Before(e, d)
    requires forall x: CalendarDay :: IsValidDay(x) && Before(x, d) ==> x == e || Before(x, e)
    ensures e == PrevDay(d)
  {
  }

  /** The previous day of the first of March is the 29th of February exactly in leap
      years, and the previous day of New Year's Day is the last day of the old year. */
  lemma PrevDayMonthAndYearEnds(y: int)
    ensures PrevDay(CalendarDay(y, 3, 1)) == CalendarDay(y, 2, if IsLeapYear(y) then 29 else 28)
    ensures PrevDay(CalendarDay(y, 1, 1)) == CalendarDay(y - 1, 12, 31)
  {
  }
}
