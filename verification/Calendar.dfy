/** Gregorian timestamps: order, day arithmetic, and the fixed-width text form in file names. */
module Calendar {
  import opened Prelude

  /** A UTC instant in calendar fields. */
  datatype Civil = Civil(year: int, month: int, day: int, hour: int, minute: int, second: int, micro: int)

  predicate Leap(y: int) {
    y % 4 == 0 && (y % 100 != 0 || y % 400 == 0)
  }

  function DaysIn(y: int, m: int): int {
    if m == 2 then (if Leap(y) then 29 else 28)
    else if m in {4, 6, 9, 11} then 30
    else 31
  }

  predicate ValidDate(y: int, m: int, d: int) {
    1 <= y <= 9999 && 1 <= m <= 12 && 1 <= d <= DaysIn(y, m)
  }

  predicate Valid(c: Civil) {
    ValidDate(c.year, c.month, c.day) && 0 <= c.hour < 24 && 0 <= c.minute < 60 && 0 <= c.second < 60 &&
    0 <= c.micro < 1_000_000
  }

  /** Python compares datetimes field by field. */
  predicate Less(a: Civil, b: Civil) {
    || a.year < b.year
    || (a.year == b.year && (
          || a.month < b.month
          || (a.month == b.month && (
                || a.day < b.day
                || (a.day == b.day && LessTime(a, b))))))
  }

  predicate LessTime(a: Civil, b: Civil) {
    || a.hour < b.hour
    || (a.hour == b.hour && (
          || a.minute < b.minute
          || (a.minute == b.minute && (a.second < b.second || (a.second == b.second && a.micro < b.micro)))))
  }

  // -- the day line -------------------------------------------------------

  function DaysBeforeYear(y: int): int {
    365 * (y - 1) + (y - 1) / 4 - (y - 1) / 100 + (y - 1) / 400
  }

  function DaysBeforeMonth(y: int, m: int): int
    decreases m
  {
    if m <= 1 then 0 else DaysBeforeMonth(y, m - 1) + DaysIn(y, m - 1)
  }

  /** `date.toordinal`: 1 is 1 January of the year 1. */
  function Ordinal(y: int, m: int, d: int): int {
    DaysBeforeYear(y) + DaysBeforeMonth(y, m) + d
  }

  const DAY := 86_400_000_000

  function TimeOfDay(c: Civil): int {
    ((c.hour * 60 + c.minute) * 60 + c.second) * 1_000_000 + c.micro
  }

  /** Microseconds on one line. */
  function Micros(c: Civil): int {
    Ordinal(c.year, c.month, c.day) * DAY + TimeOfDay(c)
  }

  lemma YearLength(y: int)
    requires y >= 1
    ensures DaysBeforeYear(y + 1) == DaysBeforeYear(y) + DaysBeforeMonth(y, 13)
  {
    assert y / 4 == (y - 1) / 4 + (if y % 4 == 0 then 1 else 0);
    assert y / 100 == (y - 1) / 100 + (if y % 100 == 0 then 1 else 0);
    assert y / 400 == (y - 1) / 400 + (if y % 400 == 0 then 1 else 0);
    MonthsOfYear(y);
  }

  lemma MonthsOfYear(y: int)
    ensures DaysBeforeMonth(y, 13) == if Leap(y) then 366 else 365
  {
    assert DaysBeforeMonth(y, 4) == 59 + DaysIn(y, 2) - 28 + 31;
    assert DaysBeforeMonth(y, 8) == DaysBeforeMonth(y, 4) + 30 + 31 + 30 + 31;
    assert DaysBeforeMonth(y, 13) == DaysBeforeMonth(y, 8) + 31 + 30 + 31 + 30 + 31;
  }

  /** The calendar, month by month. */
  lemma MonthLengths(y: int)
    ensures DaysIn(y, 1) == 31 && DaysIn(y, 3) == 31 && DaysIn(y, 4) == 30 && DaysIn(y, 5) == 31 && DaysIn(y, 6) == 30
    ensures DaysIn(y, 7) == 31 && DaysIn(y, 8) == 31 && DaysIn(y, 9) == 30 && DaysIn(y, 10) == 31
    ensures DaysIn(y, 11) == 30 && DaysIn(y, 12) == 31
    ensures DaysIn(y, 2) == if y % 4 != 0 then 28 else if y % 100 != 0 then 29 else if y % 400 == 0 then 29 else 28
  {
  }

  /** Field by field, what an instant may hold. */
  lemma ValidIff(c: Civil)
    ensures Valid(c) <==>
              1 <= c.year <= 9999 && 1 <= c.month <= 12 && 1 <= c.day <= DaysIn(c.year, c.month) &&
              0 <= c.hour <= 23 && 0 <= c.minute <= 59 && 0 <= c.second <= 59 && 0 <= c.micro <= 999_999
  {
  }

  /** The last microsecond of a day is followed by the first of the next, and there are so many. */
  lemma DaysFollow(c: Civil)
    requires Valid(c) && c.hour == 23 && c.minute == 59 && c.second == 59 && c.micro == 999_999
    ensures Micros(c) + 1 == (Ordinal(c.year, c.month, c.day) + 1) * DAY && DAY == 24 * 60 * 60 * 1_000_000
  {
  }

  /** And day by day within the year. */
  lemma MonthStarts(y: int)
    ensures DaysBeforeMonth(y, 1) == 0 && DaysBeforeMonth(y, 2) == 31 && DaysBeforeMonth(y, 3) == 31 + DaysIn(y, 2)
  {
    assert DaysBeforeMonth(y, 1) == 0;
  }

  /** The length of years, and where they start: 97 leap days in 400 years from the year 1 on. */
  lemma YearStarts()
    ensures DaysBeforeYear(1) == 0 && DaysBeforeYear(1970) == 719162 && DaysBeforeYear(2000) == 730119
    ensures DaysBeforeYear(401) == 400 * 365 + 97
  {
  }

  lemma {:induction false} MonthMonotone(y: int, m: int, n: int)
    requires 1 <= m < n
    ensures DaysBeforeMonth(y, m) + DaysIn(y, m) <= DaysBeforeMonth(y, n)
    decreases n
  {
    if m < n - 1 {
      MonthMonotone(y, m, n - 1);
    }
  }

  lemma {:induction false} YearMonotone(y: int, z: int)
    requires 1 <= y < z
    ensures DaysBeforeYear(y) + DaysBeforeMonth(y, 13) <= DaysBeforeYear(z)
    decreases z
  {
    YearLength(z - 1);
    MonthsOfYear(z - 1);
    if y < z - 1 {
      YearMonotone(y, z - 1);
    }
  }

  lemma OrdinalMonotone(y: int, m: int, d: int, y': int, m': int, d': int)
    requires ValidDate(y, m, d) && ValidDate(y', m', d')
    requires y < y' || (y == y' && (m < m' || (m == m' && d < d')))
    ensures Ordinal(y, m, d) < Ordinal(y', m', d')
  {
    if y < y' {
      YearMonotone(y, y');
      MonthMonotone(y, m, 13);
      MonthNonNegative(y', m');
    } else if m < m' {
      MonthMonotone(y, m, m');
    }
  }

  lemma {:induction false} MonthNonNegative(y: int, m: int)
    ensures DaysBeforeMonth(y, m) >= 0
    decreases m
  {
    if m > 1 {
      MonthNonNegative(y, m - 1);
    }
  }

  lemma TimeOrder(a: Civil, b: Civil)
    requires Valid(a) && Valid(b)
    ensures 0 <= TimeOfDay(a) < DAY
    ensures LessTime(a, b) ==> TimeOfDay(a) < TimeOfDay(b)
    ensures TimeOfDay(a) == TimeOfDay(b) ==>
              a.hour == b.hour && a.minute == b.minute && a.second == b.second && a.micro == b.micro
  {
  }

  lemma MicrosMonotone(a: Civil, b: Civil)
    requires Valid(a) && Valid(b) && Less(a, b)
    ensures Micros(a) < Micros(b)
  {
    TimeOrder(a, b);
    TimeOrder(b, a);
    if a.year == b.year && a.month == b.month && a.day == b.day {
    } else {
      OrdinalMonotone(a.year, a.month, a.day, b.year, b.month, b.day);
      assert (Ordinal(b.year, b.month, b.day) - Ordinal(a.year, a.month, a.day)) * DAY >= DAY;
    }
  }

  /** Field order is time order. */
  lemma LessIffMicros(a: Civil, b: Civil)
    requires Valid(a) && Valid(b)
    ensures Less(a, b) <==> Micros(a) < Micros(b)
    ensures a == b <==> Micros(a) == Micros(b)
  {
    if Less(a, b) {
      MicrosMonotone(a, b);
    } else if Less(b, a) {
      MicrosMonotone(b, a);
    }
  }

  // -- going back in days ---------------------------------------------------

  /** The day before; None before the first day there is. */
  function DayBefore(c: Civil): Option<Civil> {
    if c.day > 1 then Some(c.(day := c.day - 1))
    else if c.month > 1 then Some(c.(month := c.month - 1, day := DaysIn(c.year, c.month - 1)))
    else if c.year > 1 then Some(c.(year := c.year - 1, month := 12, day := 31))
    else None
  }

  lemma DayBeforeDate(c: Civil)
    requires Valid(c) && DayBefore(c).Some?
    ensures var b := DayBefore(c).value;
            Valid(b) && TimeOfDay(b) == TimeOfDay(c) &&
            Ordinal(b.year, b.month, b.day) == Ordinal(c.year, c.month, c.day) - 1
  {
    if c.day == 1 && c.month == 1 {
      YearLength(c.year - 1);
    }
  }

  lemma FirstDay(c: Civil)
    requires Valid(c)
    ensures Ordinal(c.year, c.month, c.day) >= 1
    ensures Ordinal(c.year, c.month, c.day) == 1 <==> c.year == 1 && c.month == 1 && c.day == 1
  {
    MonthNonNegative(c.year, c.month);
    if c.year > 1 {
      YearMonotone(1, c.year);
      MonthsOfYear(1);
    }
    if c.month > 1 {
      MonthMonotone(c.year, 1, c.month);
    }
  }

  lemma DayBeforeIs(c: Civil)
    requires Valid(c)
    ensures DayBefore(c).Some? ==> Valid(DayBefore(c).value) && Micros(DayBefore(c).value) == Micros(c) - DAY
    ensures DayBefore(c).None? <==> Ordinal(c.year, c.month, c.day) == 1
  {
    FirstDay(c);
    if DayBefore(c).Some? {
      DayBeforeDate(c);
    }
  }

  /** `now - timedelta(days=n)`; None is the OverflowError below the year 1. */
  function Back(c: Civil, n: nat): Option<Civil>
    decreases n
  {
    if n == 0 then Some(c)
    else
      var b := DayBefore(c);
      if b.None? then None else Back(b.value, n - 1)
  }

  /** Going back n days subtracts them, and is possible from the year 1 on. */
  lemma {:induction false} BackIs(c: Civil, n: nat)
    requires Valid(c)
    ensures Back(c, n).Some? ==> Valid(Back(c, n).value) && Micros(Back(c, n).value) == Micros(c) - n * DAY
    ensures Back(c, n).Some? <==> Ordinal(c.year, c.month, c.day) > n
    decreases n
  {
    if n == 0 {
      FirstDay(c);
    } else {
      DayBeforeIs(c);
      if DayBefore(c).Some? {
        DayBeforeDate(c);
        BackIs(DayBefore(c).value, n - 1);
        assert n * DAY == DAY + (n - 1) * DAY;
      }
    }
  }
}
