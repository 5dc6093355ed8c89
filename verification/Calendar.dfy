/** Days of the calendar counted in one sequence, against which the carrying of days that
    time.Date does (internal/api/parse_strict.go:612) is checked. */
module Calendar {
  import opened PayloadGrammar

  /** The number of a day of the proleptic Gregorian calendar, counted from a fixed day.
      Years are taken to start in March, so that the leap day is the last of its year. */
  function DayNumber(year: int, month: int, day: int): int
    requires 1 <= month <= 12
  {
    var y := if month <= 2 then year - 1 else year;
    var m := if month <= 2 then month + 9 else month - 3;
    365 * y + y / 4 - y / 100 + y / 400 + (153 * m + 2) / 5 + day
  }

  /** d is the day of the calendar that lies at.day - 1 days after the first of at's month,
      at the same time of day. */
  ghost predicate CarriedFrom(d: Stamp, at: Stamp) {
    && ValidStamp(at) && IsDate(d)
    && DayNumber(d.year, d.month, d.day) == DayNumber(at.year, at.month, 1) + at.day - 1
    && d.hour == at.hour && d.minute == at.minute && d.second == at.second
  }

  /** A month lasts until the next one begins. */
  lemma MonthLength(year: int, month: int)
    requires 1 <= month <= 12
    ensures DayNumber(year, month, 1) + DaysIn(year, month) ==
              if month == 12 then DayNumber(year + 1, 1, 1) else DayNumber(year, month + 1, 1)
  {
    if month == 2 {
      LeapDay(year);
    }
  }

  /** One multiple more when the year is divisible. */
  lemma LeapDay(year: int)
    ensures year / 4 == (year - 1) / 4 + if year % 4 == 0 then 1 else 0
    ensures year / 100 == (year - 1) / 100 + if year % 100 == 0 then 1 else 0
    ensures year / 400 == (year - 1) / 400 + if year % 400 == 0 then 1 else 0
    ensures (year % 400 == 0 ==> year % 100 == 0) && (year % 100 == 0 ==> year % 4 == 0)
  {
  }

  lemma DayOffset(year: int, month: int, day: int)
    requires 1 <= month <= 12
    ensures DayNumber(year, month, day) == DayNumber(year, month, 1) + day - 1
  {
  }

  /** time.Date carries days beyond the end of the month by exactly their number. */
  lemma CalendarDateIsCarried(at: Stamp)
    requires ValidStamp(at)
    ensures CarriedFrom(CalendarDate(at), at)
  {
    MonthLength(at.year, at.month);
    DayOffset(at.year, at.month, at.day);
    assert at.month == 12 ==> DaysIn(at.year, 12) == 31;
    hide DayNumber, DaysIn;
    if at.day > DaysIn(at.year, at.month) {
      DayOffset(at.year, at.month + 1, at.day - DaysIn(at.year, at.month));
    }
  }

  // ---------- The day number determines the date ----------

  /** The k-th month counted from January of year 0. */
  function YearOf(k: int): int {
    k / 12
  }

  function MonthOf(k: int): (m: int)
    ensures 1 <= m <= 12
  {
    k % 12 + 1
  }

  lemma NextMonth(k: int)
    ensures YearOf(k + 1) == if MonthOf(k) == 12 then YearOf(k) + 1 else YearOf(k)
    ensures MonthOf(k + 1) == if MonthOf(k) == 12 then 1 else MonthOf(k) + 1
  {
  }

  lemma MonthIndex(year: int, month: int)
    requires 1 <= month <= 12
    ensures YearOf(12 * year + month - 1) == year && MonthOf(12 * year + month - 1) == month
  {
  }

  lemma {:induction false} MonthsApart(k: int, j: int)
    requires k < j
    ensures DayNumber(YearOf(k), MonthOf(k), 1) + DaysIn(YearOf(k), MonthOf(k)) <= DayNumber(YearOf(j), MonthOf(j), 1)
    decreases j - k
  {
    hide *;
    MonthLength(YearOf(k), MonthOf(k));
    NextMonth(k);
    if k + 1 < j {
      MonthsApart(k + 1, j);
    }
  }

  lemma SameDate(a: Stamp, b: Stamp)
    requires IsDate(a) && IsDate(b) && DayNumber(a.year, a.month, a.day) == DayNumber(b.year, b.month, b.day)
    ensures a.year == b.year && a.month == b.month && a.day == b.day
  {
    hide DayNumber, DaysIn, YearOf, MonthOf;
    var k, j := 12 * a.year + a.month - 1, 12 * b.year + b.month - 1;
    MonthIndex(a.year, a.month);
    MonthIndex(b.year, b.month);
    DayOffset(a.year, a.month, a.day);
    DayOffset(b.year, b.month, b.day);
    if k < j {
      MonthsApart(k, j);
    } else if j < k {
      MonthsApart(j, k);
    }
  }

  /** The carried date is the only one. */
  lemma CarriedIsUnique(d: Stamp, at: Stamp)
    requires ValidStamp(at)
    ensures CarriedFrom(d, at) <==> d == CalendarDate(at)
  {
    CalendarDateIsCarried(at);
    if CarriedFrom(d, at) {
      SameDate(d, CalendarDate(at));
    }
  }
}
