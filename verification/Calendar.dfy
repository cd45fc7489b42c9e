/** The Gregorian calendar over day numbers, day 0 being Thursday the first of January 1970. */
module Calendar {
  datatype Date = Date(year: int, month: int, day: int)

  predicate IsLeap(year: int) {
    year % 4 == 0 && (year % 100 != 0 || year % 400 == 0)
  }

  function DaysIn(year: int, month: int): (days: int)
    ensures 28 <= days <= 31
  {
    if month == 2 then if IsLeap(year) then 29 else 28
    else if month in {4, 6, 9, 11} then 30
    else 31
  }

  predicate IsDate(d: Date) {
    1 <= d.month <= 12 && 1 <= d.day <= DaysIn(d.year, d.month)
  }

  /** The first day of the month after that of `d`. */
  function FirstOfNext(d: Date): Date {
    if d.month == 12 then Date(d.year + 1, 1, 1) else Date(d.year, d.month + 1, 1)
  }

  function NextDay(d: Date): (r: Date)
    requires IsDate(d)
    ensures IsDate(r)
  {
    if d.day < DaysIn(d.year, d.month) then d.(day := d.day + 1) else FirstOfNext(d)
  }

  function PreviousDay(d: Date): (r: Date)
    requires IsDate(d)
    ensures IsDate(r) && NextDay(r) == d
  {
    if d.day > 1 then d.(day := d.day - 1)
    else if d.month > 1 then Date(d.year, d.month - 1, DaysIn(d.year, d.month - 1))
    else Date(d.year - 1, 12, 31)
  }

  function DateAt(n: int): (d: Date)
    ensures IsDate(d)
    decreases if n < 0 then -n else n
  {
    if n == 0 then Date(1970, 1, 1)
    else if n > 0 then NextDay(DateAt(n - 1))
    else PreviousDay(DateAt(n + 1))
  }

  /** Monday is 0. */
  function Weekday(n: int): (w: int)
    ensures 0 <= w <= 6
  {
    (n + 3) % 7
  }

  lemma DateAfter(n: int)
    ensures DateAt(n + 1) == NextDay(DateAt(n))
  {
  }

  lemma {:induction false} LaterInMonth(n: int, j: nat)
    requires DateAt(n).day + j <= DaysIn(DateAt(n).year, DateAt(n).month)
    ensures DateAt(n + j) == DateAt(n).(day := DateAt(n).day + j)
  {
    if j > 0 {
      LaterInMonth(n, j - 1);
      DateAfter(n + j - 1);
    }
  }

  /** The day number at which the next month begins. */
  function MonthEnd(n: int): int {
    n + DaysIn(DateAt(n).year, DateAt(n).month) - DateAt(n).day + 1
  }

  lemma NextMonth(n: int)
    ensures n < MonthEnd(n) <= n + 31 && DateAt(MonthEnd(n)) == FirstOfNext(DateAt(n))
  {
    hide DateAt, DaysIn;
    var d := DateAt(n);
    var last := DaysIn(d.year, d.month) - d.day;
    LaterInMonth(n, last);
    DateAfter(n + last);
  }

  /** Of two months in a row, one has 31 days. */
  lemma OneIsLong(d: Date)
    requires IsDate(d)
    ensures DaysIn(d.year, d.month) == 31 || DaysIn(FirstOfNext(d).year, FirstOfNext(d).month) == 31
  {
  }

  /** In a month that is long enough, `first` being its first day, the number `day` comes up. */
  lemma DayInMonth(first: int, day: int)
    requires DateAt(first).day == 1 && 1 <= day <= DaysIn(DateAt(first).year, DateAt(first).month)
    ensures DateAt(first + day - 1).day == day
  {
    LaterInMonth(first, day - 1);
  }

  /** Every number from 1 to 31 comes up as a day of the month within 93 days. */
  lemma DayComesUp(n: int, day: int) returns (m: int)
    requires 1 <= day <= 31
    ensures n < m <= n + 93 && DateAt(m).day == day
  {
    hide DateAt, DaysIn;
    NextMonth(n);
    var first := MonthEnd(n);
    if day > DaysIn(DateAt(first).year, DateAt(first).month) {
      OneIsLong(DateAt(first));
      NextMonth(first);
      first := MonthEnd(first);
    }
    DayInMonth(first, day);
    m := first + day - 1;
  }

  lemma WeekdayComesUp(n: int, weekday: int) returns (m: int)
    requires 0 <= weekday <= 6
    ensures n < m <= n + 7 && Weekday(m) == weekday
  {
    m := n + 1 + (weekday - Weekday(n + 1)) % 7;
  }

  /** A day of the month that every month has returns after exactly as many days as its month is long. */
  lemma MonthLater(n: int)
    requires DateAt(n).day <= 28
    ensures var length := DaysIn(DateAt(n).year, DateAt(n).month);
            && DateAt(n + length) == FirstOfNext(DateAt(n)).(day := DateAt(n).day)
            && forall m :: n < m < n + length ==> DateAt(m).day != DateAt(n).day
  {
    hide DateAt, DaysIn;
    var d := DateAt(n);
    var length := DaysIn(d.year, d.month);
    NextMonth(n);
    LaterInMonth(MonthEnd(n), d.day - 1);
    forall m | n < m < n + length ensures DateAt(m).day != d.day {
      if m < MonthEnd(n) {
        LaterInMonth(n, m - n);
      } else {
        LaterInMonth(MonthEnd(n), m - MonthEnd(n));
      }
    }
  }

  // ----- the calendar by counting

  /** The days of all years from year one up to the given one, a leap day in every fourth but not every hundredth. */
  function DaysBefore(year: int): int {
    365 * (year - 1) + (year - 1) / 4 - (year - 1) / 100 + (year - 1) / 400
  }

  /** The days of the year before a month, in a common year. */
  function CommonDaysBefore(month: int): int {
    match month
    case 1 => 0
    case 2 => 31
    case 3 => 59
    case 4 => 90
    case 5 => 120
    case 6 => 151
    case 7 => 181
    case 8 => 212
    case 9 => 243
    case 10 => 273
    case 11 => 304
    case _ => 334
  }

  /** The number of a date, the first of January of year one being 1. */
  function Ordinal(d: Date): int {
    var leap := if d.month > 2 then DaysBefore(d.year + 1) - DaysBefore(d.year) - 365 else 0;
    DaysBefore(d.year) + CommonDaysBefore(d.month) + leap + d.day
  }

  /** The ordinal of the first of January 1970. */
  const EPOCH := 719163

  lemma EveryFourth(year: int)
    ensures year / 4 - (year - 1) / 4 == if year % 4 == 0 then 1 else 0
  {
  }

  lemma EveryHundredth(year: int)
    ensures year / 100 - (year - 1) / 100 == if year % 100 == 0 then 1 else 0
    ensures year % 100 == 0 ==> year % 4 == 0
  {
    assert year == 4 * (25 * (year / 100)) + year % 100;
  }

  lemma EveryFourHundredth(year: int)
    ensures year / 400 - (year - 1) / 400 == if year % 400 == 0 then 1 else 0
    ensures year % 400 == 0 ==> year % 100 == 0
  {
    assert year == 100 * (4 * (year / 400)) + year % 400;
  }

  lemma YearLength(year: int)
    ensures DaysBefore(year + 1) - DaysBefore(year) == if IsLeap(year) then 366 else 365
  {
    EveryFourth(year);
    EveryHundredth(year);
    EveryFourHundredth(year);
    var a, b, c := year / 4 - (year - 1) / 4, year / 100 - (year - 1) / 100, year / 400 - (year - 1) / 400;
    assert DaysBefore(year + 1) - DaysBefore(year) == 365 + a - b + c;
    hide DaysBefore;
  }

  lemma OrdinalNext(d: Date)
    requires IsDate(d)
    ensures Ordinal(NextDay(d)) == Ordinal(d) + 1
  {
    YearLength(d.year);
    hide DaysBefore, IsLeap;
  }

  lemma BackAgain(d: Date)
    requires IsDate(d)
    ensures PreviousDay(NextDay(d)) == d
  {
  }

  lemma OrdinalAtEpoch()
    ensures Ordinal(Date(1970, 1, 1)) == EPOCH
  {
  }

  /** Day numbers count dates from 1970 on. */
  lemma {:induction false} OrdinalOfDay(n: int)
    ensures Ordinal(DateAt(n)) == n + EPOCH
    decreases if n < 0 then -n else n
  {
    hide Ordinal, NextDay, PreviousDay;
    if n == 0 {
      OrdinalAtEpoch();
    } else if n > 0 {
      OrdinalOfDay(n - 1);
      OrdinalNext(DateAt(n - 1));
    } else {
      OrdinalOfDay(n + 1);
      OrdinalNext(DateAt(n));
    }
  }

  lemma OnlyEpoch(d: Date)
    requires IsDate(d) && Ordinal(d) == EPOCH
    ensures d == Date(1970, 1, 1)
  {
    YearLength(d.year);
    hide IsLeap;
    assert d.year <= 1970;
    assert d.year >= 1970;
  }

  /** Every date is that of its day number. */
  lemma {:induction false} DayOfOrdinal(d: Date)
    requires IsDate(d)
    ensures DateAt(Ordinal(d) - EPOCH) == d
    decreases if Ordinal(d) < EPOCH then EPOCH - Ordinal(d) else Ordinal(d) - EPOCH
  {
    hide Ordinal, NextDay, PreviousDay;
    var n := Ordinal(d) - EPOCH;
    if n == 0 {
      OnlyEpoch(d);
    } else if n > 0 {
      OrdinalNext(PreviousDay(d));
      DayOfOrdinal(PreviousDay(d));
    } else {
      OrdinalNext(d);
      BackAgain(d);
      DayOfOrdinal(NextDay(d));
    }
  }

  lemma WholeWeeks(x: int, weeks: int)
    ensures (x + 7 * weeks) % 7 == x % 7
  {
    assert x + 7 * weeks == 7 * (x / 7 + weeks) + x % 7;
  }

  /** Weekdays go through the week with the dates, the first of January of year one being a Monday. */
  lemma WeekdayOfDate(n: int)
    ensures Weekday(n) == (Ordinal(DateAt(n)) + 6) % 7
  {
    OrdinalOfDay(n);
    hide DateAt, Ordinal;
    WholeWeeks(n + 3, 102738);
  }
}
