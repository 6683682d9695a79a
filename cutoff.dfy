/**
 * Registration cutoff. Both pages build the current instant from the Manila
 * (UTC+8) wall-clock fields and the cutoff from a calendar date at 12:00:00,
 * both with the fixed offset +08:00, and compare the two `Date` values, that
 * is, their elapsed time. The model compares the fields lexicographically and
 * proves that this is the comparison of elapsed seconds in the proleptic
 * Gregorian calendar.
 */
module Cutoff {

  /** Wall-clock fields (year, month, day, hour, minute, second) at offset +08:00. */
  datatype DateTime = DateTime(year: int, month: int, day: int, hour: int, minute: int, second: int)

  /** A calendar date as a program's `date_from` gives it (`YYYY-MM-DD`). */
  datatype Date = Date(year: int, month: int, day: int)

  /** `a >= b` on the two instants: lexicographic on (Y, M, D, h, m, s). */
  predicate AtOrAfter(a: DateTime, b: DateTime)
  {
    a.year > b.year || (a.year == b.year &&
    (a.month > b.month || (a.month == b.month &&
    (a.day > b.day || (a.day == b.day &&
    (a.hour > b.hour || (a.hour == b.hour &&
    (a.minute > b.minute || (a.minute == b.minute && a.second >= b.second)))))))))
  }

  /** The fixed cutoff time of day, `12:00:00`, on date `d`. */
  function Noon(d: Date): DateTime
  {
    DateTime(d.year, d.month, d.day, 12, 0, 0)
  }

  // ---------------------------------------------------------------------
  // Elapsed time

  /** Gregorian leap years: divisible by 4, and not by 100 unless by 400. */
  predicate IsLeapYear(y: int)
  {
    y % 4 == 0 && (y % 100 != 0 || y % 400 == 0)
  }

  function YearLength(y: int): int
  {
    if IsLeapYear(y) then 366 else 365
  }

  /** The number of days of month `m` in year `y`. */
  function MonthLength(y: int, m: int): int
    requires 1 <= m <= 12
  {
    if m == 2 then (if IsLeapYear(y) then 29 else 28)
    else if m == 4 || m == 6 || m == 9 || m == 11 then 30
    else 31
  }

  /** Days from 1 January to the first of month `m` in year `y`. */
  function DaysBeforeMonth(y: int, m: int): int
    requires 1 <= m <= 12
  {
    (if IsLeapYear(y) && m > 2 then 1 else 0) +
    (match m
     case 1 => 0 case 2 => 31 case 3 => 59 case 4 => 90 case 5 => 120 case 6 => 151
     case 7 => 181 case 8 => 212 case 9 => 243 case 10 => 273 case 11 => 304 case _ => 334)
  }

  /**
   * Days from 1 January of year 0 to 1 January of year `y`: 365 a year plus
   * one for each leap year in between (negative before year 0).
   */
  function DaysBeforeYear(y: int): int
  {
    365 * y + (y + 3) / 4 - (y + 99) / 100 + (y + 399) / 400
  }

  /** A calendar date that exists. */
  predicate ValidDate(d: Date)
  {
    1 <= d.month <= 12 && 1 <= d.day <= MonthLength(d.year, d.month)
  }

  /** Fields of an instant that exists: a real date and a time of day within it. */
  predicate Valid(t: DateTime)
  {
    ValidDate(Date(t.year, t.month, t.day))
    && 0 <= t.hour < 24 && 0 <= t.minute < 60 && 0 <= t.second < 60
  }

  /** The day number of a date: days elapsed since 1 January of year 0. */
  function DayNumber(d: Date): int
    requires ValidDate(d)
  {
    DaysBeforeYear(d.year) + DaysBeforeMonth(d.year, d.month) + d.day - 1
  }

  /**
   * Seconds elapsed since 1 January of year 0, 00:00:00 at the same offset.
   * The `Date` values of the source count from 1970 in milliseconds; with one
   * fixed offset on both sides that differs by a constant and a factor only.
   */
  function Elapsed(t: DateTime): int
    requires Valid(t)
  {
    ((DayNumber(Date(t.year, t.month, t.day)) * 24 + t.hour) * 60 + t.minute) * 60 + t.second
  }

  /** Moving to the next year adds one to the count of multiples of 4 exactly when `y` is one. */
  lemma Multiples4Step(y: int)
    ensures (y + 4) / 4 == (y + 3) / 4 + (if y % 4 == 0 then 1 else 0)
  {
  }

  /** The same for multiples of 100. */
  lemma Multiples100Step(y: int)
    ensures (y + 100) / 100 == (y + 99) / 100 + (if y % 100 == 0 then 1 else 0)
  {
  }

  /** The same for multiples of 400. */
  lemma Multiples400Step(y: int)
    ensures (y + 400) / 400 == (y + 399) / 400 + (if y % 400 == 0 then 1 else 0)
  {
  }

  /** A multiple of 400 is a multiple of 100, and a multiple of 100 one of 4. */
  lemma MultiplesNest(y: int)
    ensures y % 400 == 0 ==> y % 100 == 0
    ensures y % 100 == 0 ==> y % 4 == 0
  {
  }

  /** Each year adds its own length to the day count. */
  lemma YearStep(y: int)
    ensures DaysBeforeYear(y + 1) == DaysBeforeYear(y) + YearLength(y)
  {
    Multiples4Step(y);
    Multiples100Step(y);
    Multiples400Step(y);
    MultiplesNest(y);
  }

  /** Every day of year `y` comes before 1 January of any later year. */
  lemma {:induction false} YearsIncrease(y: int, y': int)
    requires y < y'
    ensures DaysBeforeYear(y) + YearLength(y) <= DaysBeforeYear(y')
    decreases y' - y
  {
    YearStep(y);
    if y' > y + 1 {
      YearsIncrease(y + 1, y');
    }
  }

  /** Every day of month `m` comes before the first of any later month of the same year, and the twelve fill the year. */
  lemma MonthsIncrease(y: int, m: int, m': int)
    requires 1 <= m < m' <= 12
    ensures DaysBeforeMonth(y, m) + MonthLength(y, m) <= DaysBeforeMonth(y, m')
    ensures DaysBeforeMonth(y, 12) + MonthLength(y, 12) == YearLength(y)
  {
  }

  /** An earlier date in the lexicographic order has a smaller day number. */
  lemma DayNumberIncreases(a: Date, b: Date)
    requires ValidDate(a) && ValidDate(b)
    requires a.year < b.year || (a.year == b.year && (a.month < b.month || (a.month == b.month && a.day < b.day)))
    ensures DayNumber(a) < DayNumber(b)
  {
    if a.year < b.year {
      YearsIncrease(a.year, b.year);
      if a.month < 12 {
        MonthsIncrease(a.year, a.month, 12);
      }
    } else if a.month < b.month {
      MonthsIncrease(a.year, a.month, b.month);
    }
  }

  /**
   * On instants that exist, the lexicographic comparison of the fields is the
   * comparison of elapsed seconds, which is what `>=` on two `Date` values does.
   */
  lemma AtOrAfterIsElapsedOrder(a: DateTime, b: DateTime)
    requires Valid(a) && Valid(b)
    ensures AtOrAfter(a, b) <==> Elapsed(a) >= Elapsed(b)
  {
    var da, db := Date(a.year, a.month, a.day), Date(b.year, b.month, b.day);
    if da != db {
      if a.year < b.year || (a.year == b.year && (a.month < b.month || (a.month == b.month && a.day < b.day))) {
        DayNumberIncreases(da, db);
      } else {
        DayNumberIncreases(db, da);
      }
    }
  }
}
