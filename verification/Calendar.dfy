/** The proleptic Gregorian calendar that datetime counts in, from day 0 = 1 January of year 1, a Monday. */
module Calendar {

  datatype Date = Date(year: nat, month: nat, day: nat)

  predicate Leap(year: nat) {
    year % 4 == 0 && (year % 100 != 0 || year % 400 == 0)
  }

  function MonthLength(year: nat, month: nat): nat {
    if month == 2 then (if Leap(year) then 29 else 28)
    else if month in {4, 6, 9, 11} then 30
    else 31
  }

  predicate IsDate(d: Date) {
    d.year >= 1 && 1 <= d.month <= 12 && 1 <= d.day <= MonthLength(d.year, d.month)
  }

  function NextDay(d: Date): Date {
    if d.day < MonthLength(d.year, d.month) then d.(day := d.day + 1)
    else if d.month < 12 then Date(d.year, d.month + 1, 1)
    else Date(d.year + 1, 1, 1)
  }

  /** The date `n` days after 1 January of year 1. */
  function DateOf(n: nat): Date {
    if n == 0 then Date(1, 1, 1) else NextDay(DateOf(n - 1))
  }

  /** Monday is 0, as datetime numbers the days. */
  function Weekday(n: nat): nat {
    n % 7
  }

  // ---- the closed form ----

  function DaysBeforeYear(year: nat): int
    requires year >= 1
  {
    var y := year - 1;
    365 * y + y / 4 - y / 100 + y / 400
  }

  function DaysBeforeMonth(year: nat, month: nat): nat
    requires 1 <= month <= 13
  {
    if month == 1 then 0 else DaysBeforeMonth(year, month - 1) + MonthLength(year, month - 1)
  }

  function YearLength(year: nat): nat {
    if Leap(year) then 366 else 365
  }

  /** How many days lie before a date. */
  function DaysBefore(d: Date): int
    requires IsDate(d)
  {
    DaysBeforeYear(d.year) + DaysBeforeMonth(d.year, d.month) + d.day - 1
  }

  lemma {:induction false} MonthTable(year: nat)
    ensures forall m: nat :: 1 <= m <= 13 ==>
              DaysBeforeMonth(year, m) ==
              [0, 31, 59, 90, 120, 151, 181, 212, 243, 273, 304, 334, 365][m - 1] +
              (if m > 2 && Leap(year) then 1 else 0)
  {
    forall m: nat | 1 <= m <= 13
      ensures DaysBeforeMonth(year, m) ==
              [0, 31, 59, 90, 120, 151, 181, 212, 243, 273, 304, 334, 365][m - 1] +
              (if m > 2 && Leap(year) then 1 else 0)
    {
      MonthEntry(year, m);
    }
  }

  lemma {:induction false} MonthEntry(year: nat, m: nat)
    requires 1 <= m <= 13
    ensures DaysBeforeMonth(year, m) ==
            [0, 31, 59, 90, 120, 151, 181, 212, 243, 273, 304, 334, 365][m - 1] +
            (if m > 2 && Leap(year) then 1 else 0)
    decreases m
  {
    if m > 1 { MonthEntry(year, m - 1); }
  }

  lemma FourthStep(y: nat)
    ensures (y + 1) / 4 == y / 4 + (if (y + 1) % 4 == 0 then 1 else 0)
  {}

  lemma CenturyStep(y: nat)
    ensures (y + 1) / 100 == y / 100 + (if (y + 1) % 100 == 0 then 1 else 0)
  {}

  lemma CycleStep(y: nat)
    ensures (y + 1) / 400 == y / 400 + (if (y + 1) % 400 == 0 then 1 else 0)
  {}

  lemma FourTimes(q: nat)
    ensures 4 * q % 4 == 0
  {}

  lemma HundredTimes(q: nat)
    ensures 100 * q % 100 == 0
  {}

  lemma CenturyIsFourth(year: nat)
    requires year % 100 == 0
    ensures year % 4 == 0
  {
    var q := year / 100;
    FourTimes(25 * q);
    assert year == 4 * (25 * q);
  }

  lemma CycleIsCentury(year: nat)
    requires year % 400 == 0
    ensures year % 100 == 0
  {
    var q := year / 400;
    HundredTimes(4 * q);
    assert year == 100 * (4 * q);
  }

  lemma YearStep(year: nat)
    requires year >= 1
    ensures DaysBeforeYear(year + 1) == DaysBeforeYear(year) + YearLength(year)
  {
    FourthStep(year - 1);
    CenturyStep(year - 1);
    CycleStep(year - 1);
    if year % 100 == 0 { CenturyIsFourth(year); }
    if year % 400 == 0 { CycleIsCentury(year); }
  }

  /** The next day has one day more before it. */
  lemma NextDayCounts(d: Date)
    requires IsDate(d)
    ensures IsDate(NextDay(d)) && DaysBefore(NextDay(d)) == DaysBefore(d) + 1
  {
    MonthEntry(d.year, 13);
    if d.month == 12 && d.day == 31 { YearStep(d.year); }
  }

  /** Counting days one by one agrees with the closed form: DateOf(n) is a real date with n days before it. */
  lemma {:induction false} DateOfCounts(n: nat)
    ensures IsDate(DateOf(n)) && DaysBefore(DateOf(n)) == n
    decreases n
  {
    if n == 0 {
      assert DaysBeforeMonth(1, 1) == 0;
    } else {
      DateOfCounts(n - 1);
      NextDayCounts(DateOf(n - 1));
    }
  }

  lemma {:induction false} LaterYears(a: nat, b: nat)
    requires 1 <= a <= b
    ensures DaysBeforeYear(a) + 365 * (b - a) <= DaysBeforeYear(b)
    decreases b - a
  {
    if a < b {
      LaterYears(a, b - 1);
      YearStep(b - 1);
    }
  }

  lemma WithinYear(d: Date)
    requires IsDate(d)
    ensures 0 <= DaysBeforeMonth(d.year, d.month) + d.day - 1 < YearLength(d.year)
  {
    MonthTable(d.year);
  }

  /** The day of the week of a date, Sunday being 0, counted from Sunday 4 January 1970. */
  function DayOfWeek(d: Date): nat
    requires IsDate(d)
  {
    (DaysBefore(d) - DaysBefore(Date(1970, 1, 4))) % 7
  }

  lemma FirstSunday()
    ensures IsDate(Date(1970, 1, 4)) && DaysBefore(Date(1970, 1, 4)) == 719165
  {
    assert DaysBeforeMonth(1970, 1) == 0;
  }

  /** The numbering of weekdays from a Monday on 1 January of year 1 agrees with that Sunday. */
  lemma WeekdayIsAnchored(n: nat)
    ensures IsDate(DateOf(n)) && DayOfWeek(DateOf(n)) == (Weekday(n) + 1) % 7
  {
    DateOfCounts(n);
    DayOfWeekCounts(DateOf(n), n);
    SinceSunday(n);
  }

  lemma DayOfWeekCounts(d: Date, n: nat)
    requires IsDate(d) && DaysBefore(d) == n
    ensures DayOfWeek(d) == (n - 719165) % 7
  {
    FirstSunday();
  }

  lemma SinceSunday(n: nat)
    ensures (n - 719165) % 7 == (n % 7 + 1) % 7
  {
    var weeks, days := n / 7, n % 7;
    WholeWeeks(weeks - 102738, days + 1);
    assert n == 7 * weeks + days;
    assert n - 719165 == 7 * (weeks - 102738) + (days + 1);
  }

  lemma WholeWeeks(weeks: int, days: int)
    ensures (7 * weeks + days) % 7 == days % 7
  {}

  lemma NextWeekday(n: nat)
    ensures (n % 7 + 1) % 7 == (n + 1) % 7
  {
    WholeWeeks(n / 7, n % 7 + 1);
    assert n + 1 == 7 * (n / 7) + (n % 7 + 1);
  }

  /** Two dates with as many days before them are the same date. */
  lemma DaysBeforeInjective(a: Date, b: Date)
    requires IsDate(a) && IsDate(b) && DaysBefore(a) == DaysBefore(b)
    ensures a == b
  {
    if a.year < b.year { YearsApart(a, b); }
    if b.year < a.year { YearsApart(b, a); }
    if a.year == b.year { SameYearInjective(a, b); }
  }

  lemma YearsApart(a: Date, b: Date)
    requires IsDate(a) && IsDate(b) && a.year < b.year
    ensures DaysBefore(a) < DaysBefore(b)
  {
    WithinYear(a);
    WithinYear(b);
    YearStep(a.year);
    LaterYears(a.year + 1, b.year);
  }

  lemma SameYearInjective(a: Date, b: Date)
    requires IsDate(a) && IsDate(b) && a.year == b.year
    requires DaysBeforeMonth(a.year, a.month) + a.day == DaysBeforeMonth(b.year, b.month) + b.day
    ensures a == b
  {
    if a.month < b.month { MonthsApart(a.year, a.month, b.month); }
    if b.month < a.month { MonthsApart(a.year, b.month, a.month); }
  }

  lemma {:induction false} MonthsApart(year: nat, m: nat, n: nat)
    requires 1 <= m < n <= 13
    ensures DaysBeforeMonth(year, m) + MonthLength(year, m) <= DaysBeforeMonth(year, n)
    decreases n
  {
    if m < n - 1 { MonthsApart(year, m, n - 1); }
  }

  /** Every date is reached, on the day the closed form says. */
  lemma DateIsReached(d: Date)
    requires IsDate(d)
    ensures DaysBefore(d) >= 0 && DateOf(DaysBefore(d)) == d
  {
    WithinYear(d);
    LaterYears(1, d.year);
    DateOfCounts(DaysBefore(d));
    DaysBeforeInjective(DateOf(DaysBefore(d)), d);
  }

  // ---- what every stretch of 366 days contains ----

  /** A pair of month and day that every year has. */
  predicate EveryYear(month: nat, day: nat) {
    1 <= month <= 12 && 1 <= day <= MonthLength(1, month)
  }

  /** A pair of month and day that some year has. */
  predicate SomeYear(month: nat, day: nat) {
    1 <= month <= 12 && 1 <= day <= MonthLength(4, month)
  }

  lemma PairsOfAYear(year: nat, month: nat, day: nat)
    requires year >= 1 && 1 <= month <= 12
    ensures EveryYear(month, day) ==> IsDate(Date(year, month, day))
    ensures IsDate(Date(year, month, day)) ==> SomeYear(month, day)
    ensures SomeYear(month, day) && !EveryYear(month, day) <==> month == 2 && day == 29
  {}

  /** The same day of the next year is 365 or 366 days later. */
  lemma AYearLater(year: nat, month: nat, day: nat)
    requires year >= 1 && EveryYear(month, day)
    ensures IsDate(Date(year, month, day)) && IsDate(Date(year + 1, month, day))
    ensures 365 <= DaysBefore(Date(year + 1, month, day)) - DaysBefore(Date(year, month, day)) <= 366
  {
    PairsOfAYear(year, month, day);
    PairsOfAYear(year + 1, month, day);
    YearStep(year);
    MonthEntry(year, month);
    MonthEntry(year + 1, month);
  }

  /** On which day a yearly month and day falls in a year. */
  lemma DayInYear(year: nat, month: nat, day: nat) returns (n: nat)
    requires year >= 1 && EveryYear(month, day)
    ensures IsDate(Date(year, month, day)) && n == DaysBefore(Date(year, month, day))
    ensures DateOf(n) == Date(year, month, day) && DaysBeforeYear(year) <= n < DaysBeforeYear(year) + YearLength(year)
  {
    PairsOfAYear(year, month, day);
    DateIsReached(Date(year, month, day));
    WithinYear(Date(year, month, day));
    n := DaysBefore(Date(year, month, day));
  }

  lemma YearOf(n: nat)
    ensures DateOf(n).year >= 1
    ensures DaysBeforeYear(DateOf(n).year) <= n < DaysBeforeYear(DateOf(n).year) + YearLength(DateOf(n).year)
  {
    DateOfCounts(n);
    WithinYear(DateOf(n));
  }

  /** Any 366 consecutive days contain every pair of month and day that every year has; the
      occurrence before the one found is a year earlier. */
  lemma EveryYearComesRound(from: nat, month: nat, day: nat) returns (n: nat, earlier: int)
    requires EveryYear(month, day)
    ensures from <= n <= from + 365 && DateOf(n).month == month && DateOf(n).day == day
    ensures DateOf(n).year != DateOf(from).year ==>
              0 <= earlier < from && n - earlier <= 366 && DateOf(earlier).month == month && DateOf(earlier).day == day
  {
    var year := DateOf(from).year;
    YearOf(from);
    n := DayInYear(year, month, day);
    earlier := -1;
    if n < from {
      earlier := n;
      AYearLater(year, month, day);
      n := DayInYear(year + 1, month, day);
    }
  }

  lemma EarlyDay(d: Date)
    requires d.day < 28
    ensures NextDay(d) == d.(day := d.day + 1)
  {}

  lemma {:induction false} DaysOfMonth(first: nat, k: nat)
    requires DateOf(first).day == 1 && k < 28
    ensures DateOf(first + k) == DateOf(first).(day := 1 + k)
    decreases k
  {
    if k > 0 {
      DaysOfMonth(first, k - 1);
      EarlyDay(DateOf(first).(day := k));
      assert first + k - 1 == first + (k - 1);
    }
  }

  /** Seven consecutive days contain every weekday. */
  lemma WeekComesRound(from: nat, weekday: nat) returns (k: nat)
    requires weekday < 7
    ensures k < 7 && Weekday(from + k) == weekday
  {
    k := (weekday + 7 - from % 7) % 7;
  }

  /** The weekday in the month that begins on day `first`. */
  lemma WeekdayFrom(first: nat, weekday: nat) returns (n: nat)
    requires DateOf(first).day == 1 && weekday < 7
    ensures first <= n < first + 7 && DateOf(n).month == DateOf(first).month && Weekday(n) == weekday
  {
    var k := WeekComesRound(first, weekday);
    DaysOfMonth(first, k);
    n := first + k;
  }

  /** The weekday within a week from a day that lies early enough in the month that began on day `first`. */
  lemma WeekdayWithin(first: nat, from: nat, weekday: nat) returns (n: nat)
    requires DateOf(first).day == 1 && weekday < 7 && first <= from <= first + 20
    ensures from <= n < from + 7 && DateOf(n).month == DateOf(first).month && Weekday(n) == weekday
  {
    var k := WeekComesRound(from, weekday);
    var days: nat := from + k - first;
    n := from + k;
    assert n == first + days;
    DaysOfMonth(first, days);
  }

  lemma LateFirst(from: nat, month: nat, first: nat)
    requires from + 359 < first && DateOf(first).month == month && DateOf(first).day == 1
    ensures DateOf(first).year != DateOf(from).year
  {
    if DateOf(first).year == DateOf(from).year { FirstComesSoon(from, month, first); }
  }

  /** Any 366 consecutive days contain every weekday of every month. */
  lemma WeekdayOfMonthComesRound(from: nat, month: nat, weekday: nat) returns (n: nat)
    requires 1 <= month <= 12 && weekday < 7
    ensures from <= n <= from + 365 && DateOf(n).month == month && Weekday(n) == weekday
  {
    var first, earlier := EveryYearComesRound(from, month, 1);
    if first <= from + 359 {
      n := WeekdayFrom(first, weekday);
    } else {
      LateFirst(from, month, first);
      n := WeekdayWithin(earlier, from, weekday);
    }
  }

  lemma FirstComesSoon(from: nat, month: nat, first: nat)
    requires from <= first && DateOf(first).month == month && DateOf(first).day == 1
    requires DateOf(first).year == DateOf(from).year
    ensures first <= from + 335
  {
    DateOfCounts(from);
    DateOfCounts(first);
    MonthTable(DateOf(from).year);
  }
}
