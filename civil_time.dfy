/**
  Naive civil date-times as Python's `datetime.datetime` holds them: year 1 to 9999,
  the proleptic Gregorian calendar, microsecond resolution, no time zone.
  Python orders two datetimes field by field; the model also maps each one to a count
  of microseconds (`Micros`) so that "now minus N days" is plain subtraction, and
  `OrderAgreesWithMicros` proves the two orders are the same.
*/
module CivilTime {

  datatype DateTime = DateTime(year: int, month: int, day: int,
                               hour: int, minute: int, second: int, microsecond: int)

  predicate IsLeapYear(y: int) {
    y % 4 == 0 && (y % 100 != 0 || y % 400 == 0)
  }

  function DaysInYear(y: int): int {
    if IsLeapYear(y) then 366 else 365
  }

  function DaysInMonth(y: int, m: int): (n: int)
    requires 1 <= m <= 12
    ensures 28 <= n <= 31
  {
    if m == 2 then (if IsLeapYear(y) then 29 else 28)
    else if m == 4 || m == 6 || m == 9 || m == 11 then 30
    else 31
  }

  /** The field ranges the `datetime` constructor enforces. */
  predicate Valid(t: DateTime) {
    && 1 <= t.year <= 9999
    && 1 <= t.month <= 12
    && 1 <= t.day <= DaysInMonth(t.year, t.month)
    && 0 <= t.hour < 24
    && 0 <= t.minute < 60
    && 0 <= t.second < 60
    && 0 <= t.microsecond < 1000000
  }

  type Instant = t: DateTime | Valid(t) witness DateTime(1, 1, 1, 0, 0, 0, 0)

  /** Days in the years before `y` (year 1 starts at day 0). */
  function DaysBeforeYear(y: int): int
    requires y >= 1
  {
    var p := y - 1;
    p * 365 + p / 4 - p / 100 + p / 400
  }

  /** Days in the months of year `y` before month `m`. */
  function DaysBeforeMonth(y: int, m: int): int
    requires 1 <= m <= 12
  {
    [0, 31, 59, 90, 120, 151, 181, 212, 243, 273, 304, 334][m - 1]
      + (if m > 2 && IsLeapYear(y) then 1 else 0)
  }

  /** Day number of the date, 1 for 0001-01-01 (Python's `toordinal`). */
  function Ordinal(t: Instant): int {
    DaysBeforeYear(t.year) + DaysBeforeMonth(t.year, t.month) + t.day
  }

  const DAY_MICROS: int := 86400000000

  function TimeOfDayMicros(t: Instant): (r: int)
    ensures 0 <= r < DAY_MICROS
  {
    ((t.hour * 60 + t.minute) * 60 + t.second) * 1000000 + t.microsecond
  }

  /** Microseconds since 0001-01-01 00:00 minus one day: a strictly order-preserving count. */
  function Micros(t: Instant): int {
    Ordinal(t) * DAY_MICROS + TimeOfDayMicros(t)
  }

  const MIN_DATETIME: Instant := DateTime(1, 1, 1, 0, 0, 0, 0)
  const MAX_DATETIME: Instant := DateTime(9999, 12, 31, 23, 59, 59, 999999)

  /** The datetime with its microseconds dropped (what a second-resolution name keeps). */
  function Truncate(t: Instant): (r: Instant)
    ensures r.microsecond == 0
    ensures Micros(r) <= Micros(t) < Micros(r) + 1000000
  {
    t.(microsecond := 0)
  }

  /** Midnight at the start of the datetime's day (what a day-resolution name keeps). */
  function Midnight(t: Instant): (r: Instant)
    ensures r.hour == 0 && r.minute == 0 && r.second == 0 && r.microsecond == 0
    ensures Micros(r) <= Micros(t) < Micros(r) + DAY_MICROS
  {
    t.(hour := 0, minute := 0, second := 0, microsecond := 0)
  }

  /** Python's datetime `<`: lexicographic on (year, month, day, hour, minute, second, microsecond). */
  predicate Before(a: DateTime, b: DateTime) {
    || a.year < b.year
    || (a.year == b.year && a.month < b.month)
    || (a.year == b.year && a.month == b.month && a.day < b.day)
    || (a.year == b.year && a.month == b.month && a.day == b.day && a.hour < b.hour)
    || (a.year == b.year && a.month == b.month && a.day == b.day && a.hour == b.hour
        && a.minute < b.minute)
    || (a.year == b.year && a.month == b.month && a.day == b.day && a.hour == b.hour
        && a.minute == b.minute && a.second < b.second)
    || (a.year == b.year && a.month == b.month && a.day == b.day && a.hour == b.hour
        && a.minute == b.minute && a.second == b.second && a.microsecond < b.microsecond)
  }

  /** Crossing into year `p + 1` adds one multiple of `k` exactly when `k` divides `p + 1`. */
  lemma DivisionStep(p: int, k: int)
    requires p >= 0 && (k == 4 || k == 100 || k == 400)
    ensures (p + 1) / k == p / k + (if (p + 1) % k == 0 then 1 else 0)
  {
    if k == 4 {
    } else if k == 100 {
    } else {
    }
  }

  /** A multiple of `k * m` leaves no remainder modulo `k`. */
  lemma MultipleOfProduct(y: int, k: int, m: int)
    requires (k == 100 && m == 4) || (k == 4 && m == 25)
    requires y % (k * m) == 0
    ensures y % k == 0
  {
    var q := y / (k * m);
    assert y == k * (m * q);
    var d, r := y / k, y % k;
    assert y == k * d + r && 0 <= r < k;
    var e := m * q - d;
    assert k * e == r;
    assert e == 0;
  }

  /** A year adds its own length to the count of days before it (Gregorian leap rule). */
  lemma YearLength(y: int)
    requires y >= 1
    ensures DaysBeforeYear(y + 1) == DaysBeforeYear(y) + DaysInYear(y)
  {
    var p := y - 1;
    DivisionStep(p, 4);
    DivisionStep(p, 100);
    DivisionStep(p, 400);
    if y % 400 == 0 {
      MultipleOfProduct(y, 100, 4);
    }
    if y % 100 == 0 {
      MultipleOfProduct(y, 4, 25);
    }
    var a, b, c := y / 4 - p / 4, y / 100 - p / 100, y / 400 - p / 400;
    assert DaysBeforeYear(y + 1) == DaysBeforeYear(y) + 365 + a - b + c;
    assert DaysInYear(y) == 365 + a - b + c;
  }

  /** Every day of year `y1` comes before the first day of any later year. */
  lemma {:induction false} YearsAreOrdered(y1: int, y2: int)
    requires 1 <= y1 < y2
    ensures DaysBeforeYear(y1) + DaysInYear(y1) <= DaysBeforeYear(y2)
    decreases y2 - y1
  {
    YearLength(y1);
    if y1 + 1 < y2 {
      YearsAreOrdered(y1 + 1, y2);
    }
  }

  lemma DayOfYearBounds(t: Instant)
    ensures 1 <= DaysBeforeMonth(t.year, t.month) + t.day <= DaysInYear(t.year)
  {
  }

  lemma MonthsAreOrdered(y: int, m1: int, m2: int)
    requires 1 <= m1 < m2 <= 12
    ensures DaysBeforeMonth(y, m1) + DaysInMonth(y, m1) <= DaysBeforeMonth(y, m2)
  {
  }

  /** Dates ordered field by field have ordered day numbers. */
  lemma OrdinalOrder(a: Instant, b: Instant)
    ensures (a.year, a.month, a.day) == (b.year, b.month, b.day) ==> Ordinal(a) == Ordinal(b)
    ensures (|| a.year < b.year
             || (a.year == b.year && a.month < b.month)
             || (a.year == b.year && a.month == b.month && a.day < b.day))
            ==> Ordinal(a) < Ordinal(b)
  {
    DayOfYearBounds(a);
    DayOfYearBounds(b);
    if a.year < b.year {
      YearsAreOrdered(a.year, b.year);
    } else if a.year == b.year && a.month < b.month {
      MonthsAreOrdered(a.year, a.month, b.month);
    }
  }

  /** Comparing microsecond counts is exactly Python's datetime comparison. */
  lemma OrderAgreesWithMicros(a: Instant, b: Instant)
    ensures Before(a, b) <==> Micros(a) < Micros(b)
    ensures a == b <==> Micros(a) == Micros(b)
  {
    OrdinalOrder(a, b);
    OrdinalOrder(b, a);
  }

  /** Python's datetime `<` is a strict total order on valid datetimes. */
  lemma BeforeIsStrictOrder(a: Instant, b: Instant, c: Instant)
    ensures !Before(a, a)
    ensures Before(a, b) && Before(b, c) ==> Before(a, c)
    ensures a != b ==> Before(a, b) || Before(b, a)
  {
    OrderAgreesWithMicros(a, a);
    OrderAgreesWithMicros(a, b);
    OrderAgreesWithMicros(b, a);
    OrderAgreesWithMicros(b, c);
    OrderAgreesWithMicros(a, c);
  }

  lemma MonthLength(y: int, m: int)
    requires 1 <= m < 12
    ensures DaysBeforeMonth(y, m + 1) == DaysBeforeMonth(y, m) + DaysInMonth(y, m)
  {
  }

  lemma DecemberEndsYear(y: int)
    ensures DaysBeforeMonth(y, 12) + DaysInMonth(y, 12) == DaysInYear(y)
  {
  }

  /** The datetime one microsecond later (`t + timedelta(microseconds=1)`), carrying into each field in turn. */
  function NextMicro(t: Instant): (r: Instant)
    requires t != MAX_DATETIME
    ensures Micros(r) == Micros(t) + 1
  {
    if t.microsecond < 999999 then
      t.(microsecond := t.microsecond + 1)
    else if t.second < 59 then
      t.(second := t.second + 1, microsecond := 0)
    else if t.minute < 59 then
      t.(minute := t.minute + 1, second := 0, microsecond := 0)
    else if t.hour < 23 then
      t.(hour := t.hour + 1, minute := 0, second := 0, microsecond := 0)
    else if t.day < DaysInMonth(t.year, t.month) then
      DateTime(t.year, t.month, t.day + 1, 0, 0, 0, 0)
    else if t.month < 12 then
      MonthLength(t.year, t.month);
      DateTime(t.year, t.month + 1, 1, 0, 0, 0, 0)
    else
      YearLength(t.year);
      DecemberEndsYear(t.year);
      DateTime(t.year + 1, 1, 1, 0, 0, 0, 0)
  }

  /**
    The datetime whose microsecond count is `v`: every count between the first and the
    last datetime belongs to one, so "now minus N days" inside that range is a datetime.
  */
  function InstantAt(v: int): (c: Instant)
    requires Micros(MIN_DATETIME) <= v <= Micros(MAX_DATETIME)
    ensures Micros(c) == v
    decreases v - Micros(MIN_DATETIME)
  {
    if v == Micros(MIN_DATETIME) then MIN_DATETIME
    else NextMicro(InstantAt(v - 1))
  }
}
