/**
 * The proleptic Gregorian calendar, read at UTC offset 0: an instant is
 * taken apart into year, month, day and hour. Instants are whole seconds
 * counted from 1970-01-01 00:00; day number 0 is 1970-01-01 and negative
 * day numbers lie before it.
 */
module Calendar {

  const SecondsPerHour := 3600
  const SecondsPerDay := 86400
  /** The year whose January 1 is day number 0. */
  const EpochYear := 1970

  datatype Date = Date(year: int, month: int, day: int)

  predicate IsLeapYear(y: int) {
    y % 4 == 0 && (y % 100 != 0 || y % 400 == 0)
  }

  function DaysInYear(y: int): int {
    if IsLeapYear(y) then 366 else 365
  }

  function DaysInMonth(y: int, m: int): int
    requires 1 <= m <= 12
  {
    if m == 2 then (if IsLeapYear(y) then 29 else 28)
    else if m == 4 || m == 6 || m == 9 || m == 11 then 30
    else 31
  }

  predicate ValidDate(d: Date) {
    1 <= d.month <= 12 && 1 <= d.day <= DaysInMonth(d.year, d.month)
  }

  /** The calendar day that follows d. */
  function NextDate(d: Date): (r: Date)
    requires ValidDate(d)
    ensures ValidDate(r)
  {
    if d.day < DaysInMonth(d.year, d.month) then Date(d.year, d.month, d.day + 1)
    else if d.month < 12 then Date(d.year, d.month + 1, 1)
    else Date(d.year + 1, 1, 1)
  }

  /** Number of days of year y that come before the first of month m. */
  function DaysBeforeMonth(y: int, m: int): int
    requires 1 <= m <= 12
  {
    [0, 31, 59, 90, 120, 151, 181, 212, 243, 273, 304, 334][m - 1]
      + (if m > 2 && IsLeapYear(y) then 1 else 0)
  }

  lemma DaysBeforeMonthStep(y: int, m: int)
    requires 1 <= m <= 12
    ensures DaysBeforeMonth(y, m) + DaysInMonth(y, m)
            == if m < 12 then DaysBeforeMonth(y, m + 1) else DaysInYear(y)
  {
  }

  /** Months start in increasing order: month m ends before month m2 begins. */
  lemma {:induction false} DaysBeforeMonthMonotone(y: int, m: int, m2: int)
    requires 1 <= m < m2 <= 12
    ensures DaysBeforeMonth(y, m) + DaysInMonth(y, m) <= DaysBeforeMonth(y, m2)
    decreases m2 - m
  {
    DaysBeforeMonthStep(y, m);
    if m + 1 < m2 {
      DaysBeforeMonthMonotone(y, m + 1, m2);
    }
  }

  /** Every month ends by the end of its year. */
  lemma MonthWithinYear(y: int, m: int)
    requires 1 <= m <= 12
    ensures 0 <= DaysBeforeMonth(y, m)
    ensures DaysBeforeMonth(y, m) + DaysInMonth(y, m) <= DaysInYear(y)
  {
    DaysBeforeMonthStep(y, m);
    if m < 12 {
      if m + 1 < 12 {
        DaysBeforeMonthMonotone(y, m + 1, 12);
      }
      DaysBeforeMonthStep(y, m + 1);
      DaysBeforeMonthStep(y, 12);
    }
  }

  /** The month, from m on, that contains day-of-year doy (0 is January 1). */
  function MonthFrom(y: int, doy: int, m: int): (r: int)
    requires 1 <= m <= 12
    requires DaysBeforeMonth(y, m) <= doy < DaysInYear(y)
    ensures m <= r <= 12
    ensures DaysBeforeMonth(y, r) <= doy < DaysBeforeMonth(y, r) + DaysInMonth(y, r)
    decreases 12 - m
  {
    DaysBeforeMonthStep(y, m);
    if m == 12 || doy < DaysBeforeMonth(y, m) + DaysInMonth(y, m) then m
    else MonthFrom(y, doy, m + 1)
  }

  /** The date of day-of-year doy of year y (0 is January 1). */
  function DateInYear(y: int, doy: int): (d: Date)
    requires 0 <= doy < DaysInYear(y)
    ensures ValidDate(d) && d.year == y
  {
    var m := MonthFrom(y, doy, 1);
    Date(y, m, doy - DaysBeforeMonth(y, m) + 1)
  }

  /** Position in the year of a valid date, 0 for January 1. */
  function DayOfYear(d: Date): (r: int)
    requires ValidDate(d)
    ensures 0 <= r < DaysInYear(d.year)
  {
    MonthWithinYear(d.year, d.month);
    DaysBeforeMonth(d.year, d.month) + d.day - 1
  }

  /** Numbering the days of a year and reading them back are inverse. */
  lemma DateInYearDayOfYear(d: Date)
    requires ValidDate(d)
    ensures DateInYear(d.year, DayOfYear(d)) == d
  {
    var k := DayOfYear(d);
    var m := MonthFrom(d.year, k, 1);
    if m < d.month {
      DaysBeforeMonthMonotone(d.year, m, d.month);
    } else if d.month < m {
      DaysBeforeMonthMonotone(d.year, d.month, m);
    }
  }

  /** Before December 31, the next calendar day is one position later in the same year. */
  lemma DayOfYearNext(d: Date)
    requires ValidDate(d) && DayOfYear(d) + 1 < DaysInYear(d.year)
    ensures NextDate(d).year == d.year
    ensures DayOfYear(NextDate(d)) == DayOfYear(d) + 1
  {
    DaysBeforeMonthStep(d.year, d.month);
  }

  /**
   * The date z days after January 1 of year y; z may be negative or exceed
   * the length of the year.
   */
  function DateFromYear(y: int, z: int): (d: Date)
    ensures ValidDate(d)
    decreases if z < 0 then 400 - z else z
  {
    if z < 0 then DateFromYear(y - 1, z + DaysInYear(y - 1))
    else if z < DaysInYear(y) then DateInYear(y, z)
    else DateFromYear(y + 1, z - DaysInYear(y))
  }

  /** The date of day number z. */
  function CivilFromDays(z: int): (d: Date)
    ensures ValidDate(d)
  {
    DateFromYear(EpochYear, z)
  }

  /** Day number of January 1 of year y. */
  function YearStart(y: int): int
    decreases if y < EpochYear then EpochYear - y else y - EpochYear
  {
    if y == EpochYear then 0
    else if y > EpochYear then YearStart(y - 1) + DaysInYear(y - 1)
    else YearStart(y + 1) - DaysInYear(y)
  }

  lemma YearStartStep(y: int)
    ensures YearStart(y + 1) == YearStart(y) + DaysInYear(y)
  {
  }

  /** Day number of a valid date. */
  function DaysFromCivil(d: Date): int
    requires ValidDate(d)
  {
    YearStart(d.year) + DayOfYear(d)
  }

  lemma {:induction false} DaysFromCivilDateFromYear(y: int, z: int)
    ensures DaysFromCivil(DateFromYear(y, z)) == YearStart(y) + z
    decreases if z < 0 then 400 - z else z
  {
    if z < 0 {
      YearStartStep(y - 1);
      DaysFromCivilDateFromYear(y - 1, z + DaysInYear(y - 1));
    } else if z < DaysInYear(y) {
      DateInYearDayOfYear(DateInYear(y, z));
      assert DayOfYear(DateInYear(y, z)) == z;
    } else {
      YearStartStep(y);
      DaysFromCivilDateFromYear(y + 1, z - DaysInYear(y));
    }
  }

  /** Reading a day number as a date and back gives the day number. */
  lemma CivilFromDaysInverse(z: int)
    ensures DaysFromCivil(CivilFromDays(z)) == z
  {
    DaysFromCivilDateFromYear(EpochYear, z);
  }

  /** Distinct day numbers are distinct dates. */
  lemma CivilFromDaysInjective(a: int, b: int)
    requires a != b
    ensures CivilFromDays(a) != CivilFromDays(b)
  {
    CivilFromDaysInverse(a);
    CivilFromDaysInverse(b);
  }

  /** Counting from year y or from year y + 1 names the same day. */
  lemma DateFromYearShift(y: int, z: int)
    ensures DateFromYear(y, z) == DateFromYear(y + 1, z - DaysInYear(y))
  {
  }

  /** Counting from the epoch to January 1 of year y and then k days on names day k of year y. */
  lemma {:induction false} DateFromYearStart(y: int, k: int)
    ensures DateFromYear(EpochYear, YearStart(y) + k) == DateFromYear(y, k)
    decreases if y < EpochYear then EpochYear - y else y - EpochYear
  {
    if y > EpochYear {
      DateFromYearStart(y - 1, DaysInYear(y - 1) + k);
      DateFromYearShift(y - 1, DaysInYear(y - 1) + k);
    } else if y < EpochYear {
      DateFromYearStart(y + 1, k - DaysInYear(y));
      DateFromYearShift(y, k);
    }
  }

  /** Every valid date is read back from its day number. */
  lemma DaysFromCivilInverse(d: Date)
    requires ValidDate(d)
    ensures CivilFromDays(DaysFromCivil(d)) == d
  {
    DateFromYearStart(d.year, DayOfYear(d));
    DateInYearDayOfYear(d);
  }

  /** Only December 31 is at the last position of its year. */
  lemma LastDayOfYear(d: Date)
    requires ValidDate(d)
    ensures DayOfYear(d) + 1 == DaysInYear(d.year) ==> d.month == 12 && d.day == 31
  {
    DaysBeforeMonthStep(d.year, 12);
    if d.month < 12 {
      DaysBeforeMonthMonotone(d.year, d.month, 12);
    }
  }

  /** December 31 is followed by the day numbered one higher, January 1. */
  lemma DaysFromCivilNewYear(d: Date)
    requires ValidDate(d) && d.month == 12 && d.day == 31
    ensures DaysFromCivil(NextDate(d)) == DaysFromCivil(d) + 1
  {
    DaysBeforeMonthStep(d.year, 12);
    YearStartStep(d.year);
  }

  /** The number of Gregorian leap years among years 1 to y - 1 (with the sign of y - 1 for y < 1). */
  function LeapYearsBefore(y: int): int {
    (y - 1) / 4 - (y - 1) / 100 + (y - 1) / 400
  }

  /** Euclidean division is unique: a quotient and remainder in range are the ones `/` and `%` give. */
  lemma DivUnique(a: int, k: int, q: int, r: int)
    requires 0 < k && 0 <= r < k && a == k * q + r
    ensures a / k == q && a % k == r
  {
    var q' := a / k;
    if q' > q {
      MulMonotone(k, q + 1, q');
    } else if q' < q {
      MulMonotone(k, q' + 1, q);
    }
  }

  lemma MulMonotone(k: int, x: int, y: int)
    requires 0 < k && x <= y
    ensures k * x <= k * y
  {
    assert k * y - k * x == k * (y - x);
  }

  /** Going from y - 1 to y, the quotient by k grows by one exactly when y is a multiple of k. */
  lemma QuotientStep(y: int, k: int)
    requires 0 < k
    ensures y / k - (y - 1) / k == if y % k == 0 then 1 else 0
  {
    var q, r := (y - 1) / k, (y - 1) % k;
    DivUnique(y - 1, k, q, r);
    if r == k - 1 {
      DivUnique(y, k, q + 1, 0);
    } else {
      DivUnique(y, k, q, r + 1);
    }
  }

  lemma LeapYearsStep(y: int)
    ensures LeapYearsBefore(y + 1) == LeapYearsBefore(y) + (if IsLeapYear(y) then 1 else 0)
  {
    QuotientStep(y, 4);
    QuotientStep(y, 100);
    QuotientStep(y, 400);
    if y % 400 == 0 {
      DivUnique(y, 100, 4 * (y / 400), 0);
    }
    if y % 100 == 0 {
      DivUnique(y, 4, 25 * (y / 100), 0);
    }
  }

  /**
   * January 1 of a year from 1970 on: 365 days a year plus one per leap year
   * passed. 477 is the number of leap years before 1970.
   */
  lemma {:induction false} YearStartFormula(y: int)
    requires y >= EpochYear
    ensures YearStart(y) == 365 * (y - EpochYear) + LeapYearsBefore(y) - 477
    decreases y - EpochYear
  {
    if y > EpochYear {
      YearStartFormula(y - 1);
      YearStartStep(y - 1);
      LeapYearsStep(y - 1);
    } else {
      assert LeapYearsBefore(EpochYear) == 477;
    }
  }

  /** A leap day: 2000-02-29 is day 11016 after 1970-01-01. */
  lemma LeapDayNumber(y: int)
    requires y == 2000
    ensures ValidDate(Date(y, 2, 29)) && DaysFromCivil(Date(y, 2, 29)) == 11016
  {
    YearStartFormula(y);
  }

  /** 2023-01-02 is day 19359 after 1970-01-01. */
  lemma NewYearNumber(y: int)
    requires y == 2023
    ensures DaysFromCivil(Date(y, 1, 2)) == 19359
  {
    YearStartFormula(y);
  }

  /** The day after a valid date has the next day number. */
  lemma DaysFromCivilNext(d: Date)
    requires ValidDate(d)
    ensures DaysFromCivil(NextDate(d)) == DaysFromCivil(d) + 1
  {
    if DayOfYear(d) + 1 < DaysInYear(d.year) {
      DayOfYearNext(d);
    } else {
      LastDayOfYear(d);
      DaysFromCivilNewYear(d);
    }
  }

  /** Consecutive day numbers are consecutive calendar days. */
  lemma CivilFromDaysNext(z: int)
    ensures CivilFromDays(z + 1) == NextDate(CivilFromDays(z))
  {
    var d := CivilFromDays(z);
    CivilFromDaysInverse(z);
    DaysFromCivilNext(d);
    DaysFromCivilInverse(NextDate(d));
  }

  /** Day number of the day that contains instant t (floor division). */
  function DayNumber(t: int): int {
    t / SecondsPerDay
  }

  /** Hour of the day of instant t, as `DateTime#hour` gives it. */
  function HourOf(t: int): (h: int)
    ensures 0 <= h < 24
  {
    (t % SecondsPerDay) / SecondsPerHour
  }

  /** The calendar date of instant t. */
  function DateOf(t: int): (d: Date)
    ensures ValidDate(d)
  {
    CivilFromDays(DayNumber(t))
  }

  /** Adding one day (`DateTime + 1`) moves to the next date at the same hour. */
  lemma AddOneDay(t: int)
    ensures DayNumber(t + SecondsPerDay) == DayNumber(t) + 1
    ensures HourOf(t + SecondsPerDay) == HourOf(t)
    ensures DateOf(t + SecondsPerDay) == NextDate(DateOf(t))
  {
    CivilFromDaysNext(DayNumber(t));
  }
}
