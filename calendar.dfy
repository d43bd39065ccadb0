/** Naive (timezone-free) dates and times of the proleptic Gregorian calendar,
    as Python's `datetime` module has them: components compared
    lexicographically, and a day number (`toordinal`) through which adding
    days, subtracting dates and finding the weekday become integer arithmetic. */
module Calendar {

  datatype Date = Date(year: int, month: int, day: int)
  datatype Time = Time(hour: int, minute: int, second: int)
  /** `datetime.datetime`; `.date()` is the `date` field. */
  datatype DateTime = DateTime(date: Date, time: Time)

  predicate IsLeapYear(y: int) {
    y % 4 == 0 && (y % 100 != 0 || y % 400 == 0)
  }

  function DaysInYear(y: int): int {
    if IsLeapYear(y) then 366 else 365
  }

  function DaysInMonth(y: int, m: int): (n: int)
    requires 1 <= m <= 12
    ensures 28 <= n <= 31
    ensures n == 29 <==> m == 2 && IsLeapYear(y)
  {
    if m == 2 then (if IsLeapYear(y) then 29 else 28)
    else if m == 4 || m == 6 || m == 9 || m == 11 then 30
    else 31
  }

  predicate ValidDate(d: Date) {
    1 <= d.year && 1 <= d.month <= 12 && 1 <= d.day <= DaysInMonth(d.year, d.month)
  }

  predicate ValidTime(t: Time) {
    0 <= t.hour < 24 && 0 <= t.minute < 60 && 0 <= t.second < 60
  }

  predicate ValidDateTime(x: DateTime) {
    ValidDate(x.date) && ValidTime(x.time)
  }

  /** `date < date` in Python: year, then month, then day. */
  predicate DateLess(a: Date, b: Date) {
    a.year < b.year ||
    (a.year == b.year && (a.month < b.month || (a.month == b.month && a.day < b.day)))
  }

  predicate TimeLess(a: Time, b: Time) {
    a.hour < b.hour ||
    (a.hour == b.hour && (a.minute < b.minute || (a.minute == b.minute && a.second < b.second)))
  }

  /** `datetime <= datetime` in Python: the date first, then the time of day. */
  predicate DateTimeLessEq(a: DateTime, b: DateTime) {
    DateLess(a.date, b.date) || (a.date == b.date && (a.time == b.time || TimeLess(a.time, b.time)))
  }

  /** Days in the years 1 .. y-1. */
  function DaysBeforeYear(y: int): (n: int)
    requires 1 <= y
    ensures n >= 0
  {
    var p := y - 1;
    365 * p + p / 4 - p / 100 + p / 400
  }

  /** Days in the months 1 .. m-1 of year y. */
  function DaysBeforeMonth(y: int, m: int): (n: int)
    requires 1 <= m <= 12
    ensures 0 <= n <= 335
  {
    var table := [0, 31, 59, 90, 120, 151, 181, 212, 243, 273, 304, 334];
    table[m - 1] + (if m > 2 && IsLeapYear(y) then 1 else 0)
  }

  /** `date.toordinal()`: 0001-01-01 is day 1. */
  function Ordinal(d: Date): (n: int)
    requires ValidDate(d)
    ensures n >= 1
  {
    DaysBeforeYear(d.year) + DaysBeforeMonth(d.year, d.month) + d.day
  }

  /** `date - date`, as a number of days. */
  function DaysBetween(a: Date, b: Date): int
    requires ValidDate(a) && ValidDate(b)
  {
    Ordinal(a) - Ordinal(b)
  }

  /** `date.weekday()`: Monday is 0, Sunday is 6. */
  function Weekday(d: Date): (w: int)
    requires ValidDate(d)
    ensures 0 <= w < 7
  {
    (Ordinal(d) + 6) % 7
  }

  /** `date + timedelta(days=7)`: a week never spans more than one month
      boundary, since every month has at least 28 days. */
  function AddWeek(d: Date): (r: Date)
    requires ValidDate(d)
    ensures ValidDate(r)
    ensures !DateLess(r, d) && r != d
  {
    var n := DaysInMonth(d.year, d.month);
    if d.day + 7 <= n then Date(d.year, d.month, d.day + 7)
    else if d.month < 12 then Date(d.year, d.month + 1, d.day + 7 - n)
    else Date(d.year + 1, 1, d.day + 7 - n)
  }

  lemma DaysBeforeYearStep(y: int)
    requires 1 <= y
    ensures DaysBeforeYear(y + 1) == DaysBeforeYear(y) + DaysInYear(y)
  {
    NextQuotient(y - 1, 4);
    NextQuotient(y - 1, 100);
    NextQuotient(y - 1, 400);
    LeapDivisors(y);
  }

  /** A multiple of 400 is one of 100, and a multiple of 100 one of 4. */
  lemma LeapDivisors(y: int)
    ensures y % 400 == 0 ==> y % 100 == 0
    ensures y % 100 == 0 ==> y % 4 == 0
  {
    if y % 400 == 0 {
      DivUnique(y, 100, 4 * (y / 400), 0);
    }
    if y % 100 == 0 {
      DivUnique(y, 4, 25 * (y / 100), 0);
    }
  }

  /** Counting one more number adds one multiple of `k` exactly when the
      new number is one. */
  lemma NextQuotient(p: int, k: int)
    requires p >= 0 && k > 0
    ensures (p + 1) / k == p / k + (if (p + 1) % k == 0 then 1 else 0)
  {
    var q, r := p / k, p % k;
    if r == k - 1 {
      DivUnique(p + 1, k, q + 1, 0);
    } else {
      DivUnique(p + 1, k, q, r + 1);
    }
  }

  lemma DivUnique(a: int, k: int, q: int, r: int)
    requires k > 0 && 0 <= r < k && a == k * q + r
    ensures a / k == q && a % k == r
  {
    var d := a / k - q;
    assert k * d == r - a % k;
    MultipleBounds(k, d);
  }

  /** A non-zero multiple of `k` is at least `k` away from zero. */
  lemma MultipleBounds(k: int, d: int)
    requires k > 0
    ensures d >= 1 ==> k * d >= k
    ensures d <= -1 ==> k * d <= -k
  {
  }

  /** Every day of year y1 comes before every day of a later year. */
  lemma {:induction false} DaysBeforeYearGrows(y1: int, y2: int)
    requires 1 <= y1 < y2
    ensures DaysBeforeYear(y1) + DaysInYear(y1) <= DaysBeforeYear(y2)
    decreases y2 - y1
  {
    DaysBeforeYearStep(y1);
    if y1 + 1 < y2 {
      DaysBeforeYearGrows(y1 + 1, y2);
    }
  }

  lemma DaysBeforeMonthStep(y: int, m: int)
    requires 1 <= m <= 12
    ensures m < 12 ==> DaysBeforeMonth(y, m + 1) == DaysBeforeMonth(y, m) + DaysInMonth(y, m)
    ensures m == 12 ==> DaysBeforeMonth(y, m) + DaysInMonth(y, m) == DaysInYear(y)
  {
  }

  lemma {:induction false} DaysBeforeMonthGrows(y: int, m1: int, m2: int)
    requires 1 <= m1 < m2 <= 12
    ensures DaysBeforeMonth(y, m1) + DaysInMonth(y, m1) <= DaysBeforeMonth(y, m2)
    decreases m2 - m1
  {
    DaysBeforeMonthStep(y, m1);
    if m1 + 1 < m2 {
      DaysBeforeMonthGrows(y, m1 + 1, m2);
    }
  }

  /** The ordinal of a valid date lies within its own year. */
  lemma OrdinalWithinYear(d: Date)
    requires ValidDate(d)
    ensures DaysBeforeYear(d.year) < Ordinal(d) <= DaysBeforeYear(d.year) + DaysInYear(d.year)
  {
    if d.month < 12 {
      DaysBeforeMonthGrows(d.year, d.month, 12);
    }
    DaysBeforeMonthStep(d.year, 12);
  }

  /** Python's lexicographic date order is the order of the ordinals. */
  lemma {:induction false} OrdinalMonotone(a: Date, b: Date)
    requires ValidDate(a) && ValidDate(b)
    requires DateLess(a, b)
    ensures Ordinal(a) < Ordinal(b)
  {
    if a.year < b.year {
      OrdinalWithinYear(a);
      OrdinalWithinYear(b);
      DaysBeforeYearGrows(a.year, b.year);
    } else if a.month < b.month {
      DaysBeforeMonthGrows(a.year, a.month, b.month);
    }
  }

  /** On valid dates, comparing ordinals is comparing dates: `<` in both
      directions, and equality (the ordinal names one date only). */
  lemma OrdinalOrder(a: Date, b: Date)
    requires ValidDate(a) && ValidDate(b)
    ensures DateLess(a, b) <==> Ordinal(a) < Ordinal(b)
    ensures a == b <==> Ordinal(a) == Ordinal(b)
  {
    if DateLess(a, b) {
      OrdinalMonotone(a, b);
    } else if DateLess(b, a) {
      OrdinalMonotone(b, a);
    } else {
      assert a == b;
    }
  }

  /** AddWeek is Python's `+ timedelta(days=7)`: it moves the day number on
      by exactly seven, so (by OrdinalOrder) it is the only valid date seven
      days later. */
  lemma AddWeekOrdinal(d: Date)
    requires ValidDate(d)
    ensures Ordinal(AddWeek(d)) == Ordinal(d) + 7
    ensures Weekday(AddWeek(d)) == Weekday(d)
  {
    var n := DaysInMonth(d.year, d.month);
    if d.day + 7 <= n {
    } else if d.month < 12 {
      NextMonthOrdinal(d);
    } else {
      NextYearOrdinal(d);
    }
    WeekLater(Ordinal(d));
  }

  /** The day numbering is anchored where Python's is: 0001-01-01, day 1,
      is a Monday. */
  lemma FirstDayIsMonday()
    ensures Weekday(Date(1, 1, 1)) == 0
  {
  }

  /** Weekdays advance with the day count: `b` falls `b - a` days after
      `a`'s weekday, modulo a week. With `FirstDayIsMonday` this fixes the
      weekday of every date. */
  lemma WeekdayShift(a: Date, b: Date)
    requires ValidDate(a) && ValidDate(b)
    ensures Weekday(b) == (Weekday(a) + DaysBetween(b, a)) % 7
  {
    var x := Ordinal(a) + 6;
    var k := Ordinal(b) - Ordinal(a);
    DivUnique(x, 7, x / 7, x % 7);
    DivUnique(x + k, 7, x / 7 + (x % 7 + k) / 7, (x % 7 + k) % 7);
  }

  /** 2023-06-01 is a Thursday. */
  lemma ThursdayAnchor()
    ensures Weekday(Date(2023, 6, 1)) == 3
  {
    var d := Date(2023, 6, 1);
    assert DaysBeforeYear(2023) == 738520;
    assert DaysBeforeMonth(2023, 6) == 151;
    assert Ordinal(d) == 738672;
    assert (738672 + 6) % 7 == 3;
  }

  lemma NextMonthOrdinal(d: Date)
    requires ValidDate(d) && d.month < 12 && d.day + 7 > DaysInMonth(d.year, d.month)
    ensures Ordinal(AddWeek(d)) == Ordinal(d) + 7
  {
    DaysBeforeMonthStep(d.year, d.month);
  }

  lemma NextYearOrdinal(d: Date)
    requires ValidDate(d) && d.month == 12 && d.day + 7 > 31
    ensures Ordinal(AddWeek(d)) == Ordinal(d) + 7
  {
    DaysBeforeMonthStep(d.year, 12);
    DaysBeforeYearStep(d.year);
    assert DaysBeforeMonth(d.year + 1, 1) == 0;
  }

  lemma WeekLater(k: int)
    ensures (k + 7 + 6) % 7 == (k + 6) % 7
  {
  }
}
