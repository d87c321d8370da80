/**
 * Local wall-clock time as the calendar sees it through JavaScript `Date`:
 * an instant is a count of milliseconds from midnight of day 0 (1970-01-01),
 * with no time zone offset and no daylight-saving shifts. A calendar day is
 * identified by its day number; civil dates (year, month 1..12, day) are
 * converted to day numbers with the proleptic Gregorian calendar.
 */
module Time {

  // Durations are written as literal millisecond counts: 1000 a second, 60000 a minute,
  // 3600000 an hour, 86400000 a day (1800000 is half an hour).

  type Instant = int

  /** Day number of the day containing `t` (floor division, also for instants before day 0). */
  function DayOf(t: Instant): int {
    t / 86400000
  }

  /** `setHours(0, 0, 0, 0)`: midnight at the start of the day containing `t`. */
  function StartOfDay(t: Instant): (r: Instant)
    ensures r <= t < r + 86400000
    ensures DayOf(r) == DayOf(t)
  {
    DayOf(t) * 86400000
  }

  function MsOfDay(t: Instant): (r: int)
    ensures 0 <= r < 86400000
  {
    t % 86400000
  }

  /** `getHours()` */
  function HourOf(t: Instant): (h: int)
    ensures 0 <= h < 24
  {
    MsOfDay(t) / 3600000
  }

  /** `getMinutes()` */
  function MinuteOf(t: Instant): (m: int)
    ensures 0 <= m < 60
  {
    MsOfDay(t) % 3600000 / 60000
  }

  /** `getSeconds()` */
  function SecondOf(t: Instant): (s: int)
    ensures 0 <= s < 60
  {
    MsOfDay(t) % 60000 / 1000
  }

  /** `getMilliseconds()` */
  function MillisOf(t: Instant): (ms: int)
    ensures 0 <= ms < 1000
  {
    t % 1000
  }

  /**
   * The instant of day `day` at `h:m:s.ms`. Like the `Date` constructor and
   * `setHours`, out-of-range fields carry into the neighbouring units
   * (minute -15 is quarter to the previous hour, hour 24 is the next day).
   */
  function AtTime(day: int, h: int, m: int, s: int, ms: int): Instant {
    day * 86400000 + h * 3600000 + m * 60000 + s * 1000 + ms
  }

  /** `setHours(h, m)`: keeps the day, the seconds and the milliseconds of `t`. */
  function SetHoursMinutes(t: Instant, h: int, m: int): Instant {
    AtTime(DayOf(t), h, m, SecondOf(t), MillisOf(t))
  }

  /** `setHours(h)`: keeps the day, the minutes, the seconds and the milliseconds of `t`. */
  function SetHour(t: Instant, h: int): Instant {
    AtTime(DayOf(t), h, MinuteOf(t), SecondOf(t), MillisOf(t))
  }

  /** Minutes since midnight. */
  function MinuteOfDay(t: Instant): (r: int)
    ensures 0 <= r < 1440
  {
    HourOf(t) * 60 + MinuteOf(t)
  }

  /** Minutes since midnight are the whole minutes of the time of day. */
  lemma MinuteOfDayMeaning(t: Instant)
    ensures MinuteOfDay(t) == MsOfDay(t) / 60000
  {
    var r := MsOfDay(t);
    assert r == HourOf(t) * 3600000 + r % 3600000;
    assert r % 3600000 == MinuteOf(t) * 60000 + r % 60000;
  }

  /** Moving a whole-minute instant by `k` minutes moves its minute of the day by `k`, wrapping at midnight. */
  lemma MinuteOfDayShift(t: Instant, k: int)
    requires MsOfDay(t) % 60000 == 0
    ensures MsOfDay(t + k * 60000) % 60000 == 0
    ensures MinuteOfDay(t + k * 60000) == (MinuteOfDay(t) + k) % 1440
  {
    MinuteOfDayMeaning(t);
    var a := MinuteOfDay(t);
    assert MsOfDay(t) == a * 60000;
    var b := (a + k) % 1440;
    var q := (a + k) / 1440;
    var u := t + k * 60000;
    assert u == (DayOf(t) + q) * 86400000 + b * 60000 by {
      assert t == DayOf(t) * 86400000 + a * 60000;
      assert a + k == q * 1440 + b;
    }
    SplitDay(u, DayOf(t) + q, b * 60000);
    MinuteOfDayMeaning(u);
  }

  /** An instant written as a day and an offset within the day has that day and that offset. */
  lemma SplitDay(u: Instant, day: int, r: int)
    requires u == day * 86400000 + r && 0 <= r < 86400000
    ensures DayOf(u) == day && MsOfDay(u) == r
  {
    SplitUnit(u, 86400000, day, r);
  }

  /** Reading the fields of an instant and building it again gives the same instant. */
  lemma FieldsRoundTrip(t: Instant)
    ensures AtTime(DayOf(t), HourOf(t), MinuteOf(t), SecondOf(t), MillisOf(t)) == t
  {
    var r := MsOfDay(t);
    ModOfMod(r, 3600000, 60000);
    ModOfMod(r, 60000, 1000);
    ModOfMod(t, 86400000, 1000);
    assert t == DayOf(t) * 86400000 + r;
    assert r == HourOf(t) * 3600000 + r % 3600000;
    assert r % 3600000 == MinuteOf(t) * 60000 + r % 60000;
    assert r % 60000 == SecondOf(t) * 1000 + MillisOf(t);
  }

  /** `x` written as `q` whole units of `c` milliseconds and a remainder `r` below `c`. */
  lemma SplitUnit(x: int, c: int, q: int, r: int)
    requires c == 1000 || c == 60000 || c == 3600000 || c == 86400000
    requires 0 <= r < c
    requires c == 1000 ==> x == q * 1000 + r
    requires c == 60000 ==> x == q * 60000 + r
    requires c == 3600000 ==> x == q * 3600000 + r
    requires c == 86400000 ==> x == q * 86400000 + r
    ensures x / c == q && x % c == r
  {
    if c == 1000 {
    } else if c == 60000 {
    } else if c == 3600000 {
    } else {
    }
  }

  /** The remainder by a smaller unit is kept when first taking the remainder by a larger one. */
  lemma ModOfMod(x: int, big: int, small: int)
    requires (big, small) in {(86400000, 1000), (3600000, 60000), (60000, 1000)}
    ensures x % big % small == x % small
  {
    var y := x % big;
    if big == 86400000 {
      SplitUnit(x, 1000, 86400 * (x / 86400000) + y / 1000, y % 1000);
    } else if big == 3600000 {
      SplitUnit(x, 60000, 60 * (x / 3600000) + y / 60000, y % 60000);
    } else {
      SplitUnit(x, 1000, 60 * (x / 60000) + y / 1000, y % 1000);
    }
  }

  /** Building an instant from in-range fields and reading them back gives the same fields. */
  lemma AtTimeFields(day: int, h: int, m: int, s: int, ms: int)
    requires 0 <= h < 24 && 0 <= m < 60 && 0 <= s < 60 && 0 <= ms < 1000
    ensures var t := AtTime(day, h, m, s, ms);
      DayOf(t) == day && HourOf(t) == h && MinuteOf(t) == m && SecondOf(t) == s && MillisOf(t) == ms
  {
    var t := AtTime(day, h, m, s, ms);
    var rm := s * 1000 + ms;
    var rh := m * 60000 + rm;
    var r := h * 3600000 + rh;
    SplitUnit(t, 86400000, day, r);
    SplitUnit(r, 3600000, h, rh);
    SplitUnit(rh, 60000, m, rm);
    SplitUnit(rm, 1000, s, ms);
    ModOfMod(r, 3600000, 60000);
    ModOfMod(r, 60000, 1000);
    ModOfMod(t, 86400000, 1000);
  }

  /** `getDay()`: 0 is Sunday, 6 is Saturday; day 0 (1970-01-01) was a Thursday. */
  function Weekday(day: int): (w: int)
    ensures 0 <= w < 7
  {
    (day + 4) % 7
  }

  // ---------------------------------------------------------------------------
  // Civil dates

  datatype Date = Date(year: int, month: int, day: int)

  predicate IsLeapYear(y: int) {
    y % 4 == 0 && (y % 100 != 0 || y % 400 == 0)
  }

  /** Number of days of month `m` (1..12) of year `y`. */
  function DaysInMonth(y: int, m: int): (n: int)
    requires 1 <= m <= 12
    ensures 28 <= n <= 31
    ensures m == 2 ==> (n == 29 <==> IsLeapYear(y))
  {
    if m == 2 then (if IsLeapYear(y) then 29 else 28)
    else if m == 4 || m == 6 || m == 9 || m == 11 then 30
    else 31
  }

  /** Days of year `y` before the first of month `m`; month 13 stands for the whole year. */
  function DaysBeforeMonth(y: int, m: int): int
    requires 1 <= m <= 13
  {
    [0, 31, 59, 90, 120, 151, 181, 212, 243, 273, 304, 334, 365][m - 1]
      + (if m > 2 && IsLeapYear(y) then 1 else 0)
  }

  /** Leap years among the years before `y` (counted from year 1; negative for earlier years). */
  function LeapYearsBefore(y: int): int {
    (y - 1) / 4 - (y - 1) / 100 + (y - 1) / 400
  }

  /** Day number of 1 January of year `y`. */
  function DaysBeforeYear(y: int): int {
    365 * (y - 1970) + LeapYearsBefore(y) - LeapYearsBefore(1970)
  }

  /** Day number of a civil date; the day of month may be out of range and carries like `new Date(y, m, d)`. */
  function DaysFromCivil(d: Date): int
    requires 1 <= d.month <= 12
  {
    DaysBeforeYear(d.year) + DaysBeforeMonth(d.year, d.month) + d.day - 1
  }

  /** `(q - 1) / k` and `q / k` differ by one exactly when `k` divides `q`. */
  lemma FloorStep(q: int, k: int)
    requires k == 4 || k == 100 || k == 400
    ensures q / k - (q - 1) / k == if q % k == 0 then 1 else 0
  {
    if k == 4 {
    } else if k == 100 {
    } else {
    }
  }

  /** A year has 366 days when it is a leap year and 365 otherwise. */
  lemma YearLength(y: int)
    ensures DaysBeforeYear(y + 1) - DaysBeforeYear(y)
         == DaysBeforeMonth(y, 13)
         == if IsLeapYear(y) then 366 else 365
  {
    LeapCount(y);
  }

  /** Year `y` adds one to the count of leap years exactly when it is a leap year. */
  lemma LeapCount(y: int)
    ensures LeapYearsBefore(y + 1) - LeapYearsBefore(y) == if IsLeapYear(y) then 1 else 0
  {
    FloorStep(y, 4);
    FloorStep(y, 100);
    FloorStep(y, 400);
    if y % 400 == 0 {
      MultipleOfCentury(y, 4);
      MultipleOfCentury(y, 1);
    } else if y % 100 == 0 {
      MultipleOfCentury(y, 1);
    }
  }

  /** A multiple of `100 * c` years is a multiple of 100 and of 4. */
  lemma MultipleOfCentury(y: int, c: int)
    requires c == 1 || c == 4
    requires y % (100 * c) == 0
    ensures y % 100 == 0 && y % 4 == 0
  {
    var k := y / (100 * c);
    assert y == 100 * (c * k);
    assert y == 4 * (25 * c * k);
  }

  /** Normalised (year, month) of month `m + 1` of year `y`. */
  function NextMonth(y: int, m: int): (r: (int, int))
    requires 1 <= m <= 12
    ensures 1 <= r.1 <= 12
  {
    if m == 12 then (y + 1, 1) else (y, m + 1)
  }

  /** Normalised (year, month) of month `m - 1` of year `y`. */
  function PrevMonth(y: int, m: int): (r: (int, int))
    requires 1 <= m <= 12
    ensures 1 <= r.1 <= 12
  {
    if m == 1 then (y - 1, 12) else (y, m - 1)
  }

  /**
   * The first of the next month is the day after the last day of this month,
   * so `new Date(y, m + 1, 0)` is day `DaysInMonth(y, m)` of month `m`.
   */
  lemma {:induction false} MonthsAreContiguous(y: int, m: int)
    requires 1 <= m <= 12
    ensures var (ny, nm) := NextMonth(y, m);
      DaysFromCivil(Date(ny, nm, 1)) == DaysFromCivil(Date(y, m, DaysInMonth(y, m))) + 1
  {
    if m == 12 {
      YearLength(y);
    } else {
      assert DaysBeforeMonth(y, m + 1) == DaysBeforeMonth(y, m) + DaysInMonth(y, m);
    }
  }

  /** 1 January 2024 was a Monday and 1 January 1970 is day 0. */
  lemma KnownDates()
    ensures DaysFromCivil(Date(1970, 1, 1)) == 0
    ensures Weekday(DaysFromCivil(Date(2024, 1, 1))) == 1
  {
    assert LeapYearsBefore(1970) == 477;
    assert LeapYearsBefore(2024) == 490;
    assert DaysFromCivil(Date(2024, 1, 1)) == 19723;
  }
}
