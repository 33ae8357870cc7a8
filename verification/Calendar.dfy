/** The proleptic Gregorian calendar of Python's datetime: days are numbered from 0001-01-01, day 1. */
module Calendar {
  predicate Leap(y: nat) { y % 4 == 0 && (y % 100 != 0 || y % 400 == 0) }

  function DaysInMonth(y: nat, m: nat): nat
    requires 1 <= m <= 12
  {
    if m == 2 then (if Leap(y) then 29 else 28)
    else if m == 4 || m == 6 || m == 9 || m == 11 then 30
    else 31
  }

  datatype Date = Date(year: nat, month: nat, day: nat) {
    predicate Valid() { year >= 1 && 1 <= month <= 12 && 1 <= day <= DaysInMonth(year, month) }
  }

  function DaysBeforeYear(y: nat): nat
    requires y >= 1
  {
    365 * (y - 1) + (y - 1) / 4 - (y - 1) / 100 + (y - 1) / 400
  }

  function DaysBeforeMonth(y: nat, m: nat): nat
    requires 1 <= m <= 13
  {
    if m == 1 then 0 else DaysBeforeMonth(y, m - 1) + DaysInMonth(y, m - 1)
  }

  function Ordinal(d: Date): nat
    requires d.Valid()
  {
    DaysBeforeYear(d.year) + DaysBeforeMonth(d.year, d.month) + d.day
  }

  function NextDay(d: Date): (next: Date)
    requires d.Valid()
    ensures next.Valid()
  {
    if d.day < DaysInMonth(d.year, d.month) then Date(d.year, d.month, d.day + 1)
    else if d.month < 12 then Date(d.year, d.month + 1, 1)
    else Date(d.year + 1, 1, 1)
  }

  function DateOf(n: nat): (d: Date)
    requires n >= 1
    ensures d.Valid()
  {
    if n == 1 then Date(1, 1, 1) else NextDay(DateOf(n - 1))
  }

  // Monday is 0.
  function Weekday(n: nat): nat { (n + 6) % 7 }

  function YearLength(y: nat): nat { if Leap(y) then 366 else 365 }

  lemma Scaled(d: int, k: int)
    requires d > 0
    ensures k >= 1 ==> d * k >= d
    ensures k <= -1 ==> d * k <= -d
  {
  }

  // A quotient and a remainder that fit are the quotient and the remainder.
  lemma Quotient(x: int, d: int, q: int, r: int)
    requires d > 0 && x == d * q + r && 0 <= r < d
    ensures x / d == q && x % d == r
  {
    var e := x / d;
    assert x == d * e + x % d;
    assert d * (e - q) == d * e - d * q;
    Scaled(d, e - q);
  }

  // Counting the multiples of d one year further.
  lemma Multiples(y: nat, d: nat)
    requires y >= 1 && d > 1
    ensures y / d == (y - 1) / d + if y % d == 0 then 1 else 0
  {
    var q, r := y / d, y % d;
    assert y == d * q + r;
    if r == 0 {
      assert y - 1 == d * (q - 1) + (d - 1);
      Quotient(y - 1, d, q - 1, d - 1);
    } else {
      Quotient(y - 1, d, q, r - 1);
    }
  }

  lemma CenturiesAreFourths(y: nat)
    ensures y % 100 == 0 ==> y % 4 == 0
    ensures y % 400 == 0 ==> y % 100 == 0
  {
    Quotient(y, 4, 25 * (y / 100) + y % 100 / 4, y % 100 % 4);
    Quotient(y, 100, 4 * (y / 400) + y % 400 / 100, y % 400 % 100);
  }

  lemma YearStep(y: nat)
    requires y >= 1
    ensures DaysBeforeYear(y + 1) == DaysBeforeYear(y) + YearLength(y)
  {
    Multiples(y, 4);
    Multiples(y, 100);
    Multiples(y, 400);
    CenturiesAreFourths(y);
  }

  // The month table: days before each month of a common year, one more after February in a leap year.
  lemma MonthTable(y: nat, m: nat)
    requires 1 <= m <= 13
    ensures DaysBeforeMonth(y, m) == [0, 31, 59, 90, 120, 151, 181, 212, 243, 273, 304, 334, 365][m - 1]
                                     + if m > 2 && Leap(y) then 1 else 0
    decreases m
  {
    if m > 1 { MonthTable(y, m - 1); }
  }

  lemma NextDayOrdinal(d: Date)
    requires d.Valid()
    ensures Ordinal(NextDay(d)) == Ordinal(d) + 1
  {
    if d.day == DaysInMonth(d.year, d.month) && d.month == 12 {
      MonthTable(d.year, 12);
      YearStep(d.year);
    }
  }

  lemma {:induction false} DateOfHasOrdinal(n: nat)
    requires n >= 1
    ensures Ordinal(DateOf(n)) == n
  {
    if n > 1 {
      DateOfHasOrdinal(n - 1);
      NextDayOrdinal(DateOf(n - 1));
    }
  }

  lemma WithinYear(d: Date)
    requires d.Valid()
    ensures DaysBeforeYear(d.year) < Ordinal(d) <= DaysBeforeYear(d.year) + YearLength(d.year)
  {
    MonthTable(d.year, d.month);
    MonthTable(d.year, d.month + 1);
  }

  lemma {:induction false} YearsGrow(a: nat, b: nat)
    requires 1 <= a <= b
    ensures DaysBeforeYear(a) <= DaysBeforeYear(b)
    decreases b - a
  {
    if a < b {
      YearsGrow(a, b - 1);
      YearStep(b - 1);
    }
  }

  lemma {:induction false} MonthsGrow(y: nat, a: nat, b: nat)
    requires 1 <= a < b <= 13
    ensures DaysBeforeMonth(y, a) + DaysInMonth(y, a) <= DaysBeforeMonth(y, b)
    decreases b - a
  {
    if a + 1 < b { MonthsGrow(y, a, b - 1); }
  }

  // Chronological order of dates is the order of their ordinals.
  predicate Earlier(a: Date, b: Date) {
    a.year < b.year || (a.year == b.year && (a.month < b.month || (a.month == b.month && a.day < b.day)))
  }

  lemma OrdinalIsChronological(a: Date, b: Date)
    requires a.Valid() && b.Valid() && Earlier(a, b)
    ensures Ordinal(a) < Ordinal(b)
  {
    if a.year < b.year {
      WithinYear(a);
      WithinYear(b);
      YearStep(a.year);
      YearsGrow(a.year + 1, b.year);
    } else if a.month < b.month {
      MonthsGrow(a.year, a.month, b.month);
    }
  }

  // Dates and their ordinals determine each other.
  lemma DateOfOrdinal(d: Date)
    requires d.Valid()
    ensures Ordinal(d) >= 1 && DateOf(Ordinal(d)) == d
  {
    var e := DateOf(Ordinal(d));
    DateOfHasOrdinal(Ordinal(d));
    if Earlier(d, e) { OrdinalIsChronological(d, e); }
    if Earlier(e, d) { OrdinalIsChronological(e, d); }
  }

  // The same date one year on is at most 366 days away.
  lemma SameDateNextYear(y: nat, month: nat, day: nat)
    requires y >= 1 && 1 <= month <= 12 && 1 <= day <= DaysInMonth(2001, month)
    ensures Date(y, month, day).Valid() && Date(y + 1, month, day).Valid()
    ensures Ordinal(Date(y + 1, month, day)) - Ordinal(Date(y, month, day)) <= 366
  {
    YearStep(y);
    MonthTable(y, month);
    MonthTable(y + 1, month);
    NoTwoLeapYears(y);
  }

  lemma NoTwoLeapYears(y: nat)
    ensures !(Leap(y) && Leap(y + 1))
  {
  }

  // A date in the year of day n, or the same date a year on, lies within 366 days from n.
  lemma DateAhead(n: nat, today: Date, month: nat, day: nat) returns (d: Date)
    requires today.Valid() && Ordinal(today) == n && 1 <= month <= 12 && 1 <= day <= DaysInMonth(2001, month)
    ensures d.Valid() && d.month == month && d.day == day && n <= Ordinal(d) <= n + 365
  {
    d := Date(today.year, month, day);
    SameDateNextYear(today.year, month, day);
    if Earlier(d, today) {
      OrdinalIsChronological(d, today);
      d := Date(today.year + 1, month, day);
      OrdinalIsChronological(today, d);
    } else {
      if d != today { OrdinalIsChronological(today, d); }
      SpanOfYear(today, d);
    }
  }

  // Any 366 consecutive days contain every date that exists in common years.
  lemma EveryCommonDateRecurs(n: nat, month: nat, day: nat) returns (k: nat)
    requires n >= 1 && 1 <= month <= 12 && 1 <= day <= DaysInMonth(2001, month)
    ensures n <= k <= n + 365 && DateOf(k).month == month && DateOf(k).day == day
  {
    DateOfHasOrdinal(n);
    var d := DateAhead(n, DateOf(n), month, day);
    k := Ordinal(d);
    DateOfOrdinal(d);
  }

  lemma SpanOfYear(a: Date, b: Date)
    requires a.Valid() && b.Valid() && a.year == b.year
    ensures Ordinal(b) <= Ordinal(a) + 365
  {
    WithinYear(a);
    WithinYear(b);
  }

  // ------------------------------------------------------------------ period

  // Days in 400 years.
  const PERIOD: nat := 146_097

  lemma FourCenturies(y: nat)
    requires y >= 1
    ensures DaysBeforeYear(y + 400) == DaysBeforeYear(y) + PERIOD && Leap(y + 400) == Leap(y)
  {
    assert (y + 399) / 4 == (y - 1) / 4 + 100;
    assert (y + 399) / 100 == (y - 1) / 100 + 4;
    assert (y + 399) / 400 == (y - 1) / 400 + 1;
  }

  lemma SameDateLater(d: Date)
    requires d.Valid()
    ensures var e := Date(d.year + 400, d.month, d.day); e.Valid() && Ordinal(e) == Ordinal(d) + PERIOD
  {
    FourCenturies(d.year);
    MonthTable(d.year, d.month);
    MonthTable(d.year + 400, d.month);
  }

  lemma SameWeekdayLater(n: nat)
    ensures Weekday(n + PERIOD) == Weekday(n)
  {
    assert PERIOD == 7 * 20_871;
  }

  // The calendar repeats every 400 years: same date, same day of the week.
  lemma CalendarRepeats(n: nat)
    requires n >= 1
    ensures DateOf(n + PERIOD) == Date(DateOf(n).year + 400, DateOf(n).month, DateOf(n).day)
    ensures Weekday(n + PERIOD) == Weekday(n)
  {
    DateOfHasOrdinal(n);
    SameDateLater(DateOf(n));
    DateOfOrdinal(Date(DateOf(n).year + 400, DateOf(n).month, DateOf(n).day));
    SameWeekdayLater(n);
  }
}
