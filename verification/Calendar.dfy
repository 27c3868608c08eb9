/** Dates of the proleptic Gregorian calendar, as the program's date type counts them. */
module Calendar {

  const MIN_YEAR := 1
  const MAX_YEAR := 9999

  datatype Date = Date(year: int, month: int, day: int)

  predicate IsLeap(year: int) {
    year % 4 == 0 && (year % 100 != 0 || year % 400 == 0)
  }

  function DaysIn(year: int, month: int): (n: int)
    requires 1 <= month <= 12
    ensures 28 <= n <= 31
  {
    if month == 2 then if IsLeap(year) then 29 else 28
    else if month == 4 || month == 6 || month == 9 || month == 11 then 30
    else 31
  }

  predicate ValidDate(d: Date) {
    MIN_YEAR <= d.year <= MAX_YEAR && 1 <= d.month <= 12 && 1 <= d.day <= DaysIn(d.year, d.month)
  }

  predicate Before(a: Date, b: Date) {
    || a.year < b.year
    || (a.year == b.year && a.month < b.month)
    || (a.year == b.year && a.month == b.month && a.day < b.day)
  }

  predicate AtMost(a: Date, b: Date) {
    !Before(b, a)
  }

  // ----- Days counted from the first ----------------------------------------

  predicate InCalendar(year: int, month: int) {
    MIN_YEAR <= year && 1 <= month <= 12
  }

  /** The days of the calendar before a month. */
  function DaysBefore(year: int, month: int): (n: nat)
    requires InCalendar(year, month)
    decreases year, month
  {
    if year == MIN_YEAR && month == 1 then 0
    else if month == 1 then DaysBefore(year - 1, 12) + DaysIn(year - 1, 12)
    else DaysBefore(year, month - 1) + DaysIn(year, month - 1)
  }

  function DayNumber(d: Date): nat
    requires ValidDate(d)
  {
    DaysBefore(d.year, d.month) + d.day - 1
  }

  lemma DaysOfYear(year: int)
    requires InCalendar(year, 1)
    ensures DaysBefore(year + 1, 1) == DaysBefore(year, 1) + if IsLeap(year) then 366 else 365
  {
    hide IsLeap, DaysBefore, CalendarDays;
    forall month: int | 1 <= month <= 12
      ensures DaysBefore(if month == 12 then year + 1 else year, if month == 12 then 1 else month + 1)
              == DaysBefore(year, month) + DaysIn(year, month)
    {
      DaysBeforeNext(year, month);
    }
    assert DaysBefore(year, 4) == DaysBefore(year, 3) + 31 == DaysBefore(year, 2) + DaysIn(year, 2) + 31;
    assert DaysBefore(year, 7) == DaysBefore(year, 6) + 30 == DaysBefore(year, 5) + 61 == DaysBefore(year, 4) + 91;
    assert DaysBefore(year, 10) == DaysBefore(year, 9) + 30 == DaysBefore(year, 8) + 61 == DaysBefore(year, 7) + 92;
    assert DaysBefore(year, 12) == DaysBefore(year, 11) + 30 == DaysBefore(year, 10) + 61;
  }

  lemma ByFour(year: int)
    requires year >= 1
    ensures year / 4 == (year - 1) / 4 + if year % 4 == 0 then 1 else 0
  {
  }

  lemma ByHundred(year: int)
    requires year >= 1
    ensures year / 100 == (year - 1) / 100 + if year % 100 == 0 then 1 else 0
    ensures year % 100 == 0 ==> year % 4 == 0
  {
    if year % 100 == 0 {
      assert year == 4 * (25 * (year / 100));
    }
  }

  lemma ByFourHundred(year: int)
    requires year >= 1
    ensures year / 400 == (year - 1) / 400 + if year % 400 == 0 then 1 else 0
    ensures year % 400 == 0 ==> year % 100 == 0
  {
    if year % 400 == 0 {
      assert year == 100 * (4 * (year / 400));
    }
  }

  /** The days before a year, counted at once: every fourth year is longer, but of the hundreds only every fourth. */
  lemma {:induction false} DaysBeforeYear(year: int)
    requires InCalendar(year, 1)
    ensures DaysBefore(year, 1) == (year - 1) * 365 + (year - 1) / 4 - (year - 1) / 100 + (year - 1) / 400
    decreases year
  {
    hide DaysBefore;
    if year > MIN_YEAR {
      DaysBeforeYear(year - 1);
      DaysOfYear(year - 1);
      ByFour(year - 1);
      ByHundred(year - 1);
      ByFourHundred(year - 1);
    } else {
      FirstDay();
    }
  }

  lemma FirstDay()
    ensures DaysBefore(MIN_YEAR, 1) == 0
  {
  }

  /** The date so many days after the first of a month. */
  function DateAfter(year: int, month: int, days: nat): Date
    requires InCalendar(year, month)
    decreases days
  {
    if days < DaysIn(year, month) then Date(year, month, days + 1)
    else if month == 12 then DateAfter(year + 1, 1, days - DaysIn(year, month))
    else DateAfter(year, month + 1, days - DaysIn(year, month))
  }

  /** How many days the calendar has. */
  function CalendarDays(): nat {
    DaysBefore(MAX_YEAR + 1, 1)
  }

  function DateOf(number: nat): Date {
    DateAfter(MIN_YEAR, 1, number)
  }

  lemma DaysBeforeNext(year: int, month: int)
    requires InCalendar(year, month)
    ensures month == 12 ==> DaysBefore(year + 1, 1) == DaysBefore(year, month) + DaysIn(year, month)
    ensures month < 12 ==> DaysBefore(year, month + 1) == DaysBefore(year, month) + DaysIn(year, month)
    ensures year == MAX_YEAR && month == 12 ==> DaysBefore(year, month) + DaysIn(year, month) == CalendarDays()
  {
    hide DaysIn;
  }

  lemma {:induction false} DateAfterIsCounted(year: int, month: int, days: nat)
    requires InCalendar(year, month) && year <= MAX_YEAR && DaysBefore(year, month) + days < CalendarDays()
    ensures ValidDate(DateAfter(year, month, days))
    ensures DayNumber(DateAfter(year, month, days)) == DaysBefore(year, month) + days
    decreases days
  {
    hide DaysBefore, CalendarDays, IsLeap;
    DaysBeforeNext(year, month);
    if days >= DaysIn(year, month) {
      if month == 12 {
        DateAfterIsCounted(year + 1, 1, days - DaysIn(year, month));
      } else {
        DateAfterIsCounted(year, month + 1, days - DaysIn(year, month));
      }
    }
  }

  /** Every day of the calendar has a date, and its date has its number. */
  lemma DateOfDay(number: nat)
    requires number < CalendarDays()
    ensures ValidDate(DateOf(number)) && DayNumber(DateOf(number)) == number
  {
    hide CalendarDays;
    assert DaysBefore(MIN_YEAR, 1) == 0;
    DateAfterIsCounted(MIN_YEAR, 1, number);
  }
}
