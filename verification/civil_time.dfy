/** The ISO-8601 proleptic Gregorian calendar as java.time implements it:
    `LocalDate` as an epoch-day number, `LocalDateTime` as epoch seconds
    read in UTC, and the conversions between them and year/month/day,
    hour/minute/second fields. */
module CivilTime {
  import opened Wrappers

  /** `Year.MIN_VALUE` and `Year.MAX_VALUE`. */
  const MinYear := -999999999
  const MaxYear := 999999999
  const SecondsPerDay := 86400
  /** Days from 0001-01-01 to 1970-01-01. */
  const DaysTo1970 := 719162
  /** The range of `ChronoField.EPOCH_DAY`: 999999999 BCE-01-01 (year
      -999999999) to 999999999-12-31. */
  const MinEpochDay := -365243219162
  const MaxEpochDay := 365241780471
  /** The epoch seconds of `LocalDateTime.MIN` and `LocalDateTime.MAX`,
      whole seconds. */
  const MinEpochSecond := MinEpochDay * SecondsPerDay
  const MaxEpochSecond := MaxEpochDay * SecondsPerDay + SecondsPerDay - 1

  /** A `LocalDate`, as the number of days since 1970-01-01. */
  type Day = d: int | MinEpochDay <= d <= MaxEpochDay witness 0
  /** A whole-second `LocalDateTime`, as seconds since 1970-01-01T00:00
      read in UTC (what `toEpochSecond(ZoneOffset.UTC)` gives). */
  type Timestamp = s: int | MinEpochSecond <= s <= MaxEpochSecond witness 0

  predicate IsLeap(y: int) {
    y % 4 == 0 && (y % 100 != 0 || y % 400 == 0)
  }

  function YearLength(y: int): int {
    if IsLeap(y) then 366 else 365
  }

  function DaysInMonth(y: int, m: int): int
    requires 1 <= m <= 12
  {
    if m == 2 then (if IsLeap(y) then 29 else 28)
    else if m == 4 || m == 6 || m == 9 || m == 11 then 30
    else 31
  }

  /** Days from 0001-01-01 to the first day of year `y`. */
  function DaysBeforeYear(y: int): int {
    var q := y - 1;
    365 * q + q / 4 - q / 100 + q / 400
  }

  /** Days from the first of January to the first day of month `m`. */
  function DaysBeforeMonth(y: int, m: int): int
    requires 1 <= m <= 12
  {
    var common :=
      if m == 1 then 0 else if m == 2 then 31 else if m == 3 then 59
      else if m == 4 then 90 else if m == 5 then 120 else if m == 6 then 151
      else if m == 7 then 181 else if m == 8 then 212 else if m == 9 then 243
      else if m == 10 then 273 else if m == 11 then 304 else 334;
    if m > 2 && IsLeap(y) then common + 1 else common
  }

  lemma YearStep(y: int)
    ensures DaysBeforeYear(y + 1) == DaysBeforeYear(y) + YearLength(y)
  {
    StepBy4(y);
    StepBy100(y);
    StepBy400(y);
  }

  lemma StepBy4(y: int)
    ensures y / 4 == (y - 1) / 4 + (if y % 4 == 0 then 1 else 0)
  {
  }

  lemma StepBy100(y: int)
    ensures y / 100 == (y - 1) / 100 + (if y % 100 == 0 then 1 else 0)
  {
  }

  lemma StepBy400(y: int)
    ensures y / 400 == (y - 1) / 400 + (if y % 400 == 0 then 1 else 0)
  {
  }

  /** Later years start later: every year has at least 365 days. */
  lemma {:induction false} DaysBeforeYearMonotone(a: int, b: int)
    requires a <= b
    ensures DaysBeforeYear(a) + 365 * (b - a) <= DaysBeforeYear(b)
    decreases b - a
  {
    if a < b {
      YearStep(b - 1);
      DaysBeforeYearMonotone(a, b - 1);
    }
  }

  lemma MonthStep(y: int, m: int)
    requires 1 <= m <= 12
    ensures m < 12 ==> DaysBeforeMonth(y, m + 1) == DaysBeforeMonth(y, m) + DaysInMonth(y, m)
    ensures m == 12 ==> DaysBeforeMonth(y, m) + DaysInMonth(y, m) == YearLength(y)
  {
  }

  /** Later months start later, and a month ends no later than the next
      one starts. */
  lemma MonthMonotone(y: int, a: int, b: int)
    requires 1 <= a < b <= 12
    ensures DaysBeforeMonth(y, a) + DaysInMonth(y, a) <= DaysBeforeMonth(y, b)
  {
  }

  datatype Date = Date(year: int, month: int, day: int) {
    predicate Valid() {
      MinYear <= year <= MaxYear && 1 <= month <= 12 && 1 <= day <= DaysInMonth(year, month)
    }
  }

  /** A `LocalDate` as its fields: always a real calendar date. */
  type LocalDate = d: Date | d.Valid() witness Date(1970, 1, 1)

  /** `LocalDate.toEpochDay()`. */
  function EpochDay(d: LocalDate): int {
    DaysBeforeYear(d.year) + DaysBeforeMonth(d.year, d.month) + d.day - 1 - DaysTo1970
  }

  /** The year containing day `k` (counted from 0001-01-01), searched from
      year `y` towards it. */
  function FindYear(k: int, y: int): (r: int)
    ensures DaysBeforeYear(r) <= k < DaysBeforeYear(r + 1)
  {
    if DaysBeforeYear(y) > k then YearBelow(k, y - 1) else YearAbove(k, y)
  }

  /** The search downwards from a year that starts after day `k`. */
  function YearBelow(k: int, y: int): (r: int)
    requires k < DaysBeforeYear(y + 1)
    ensures DaysBeforeYear(r) <= k < DaysBeforeYear(r + 1)
    decreases DaysBeforeYear(y + 1) - k
  {
    YearStep(y);
    if DaysBeforeYear(y) > k then YearBelow(k, y - 1) else y
  }

  /** The search upwards from a year that starts no later than day `k`. */
  function YearAbove(k: int, y: int): (r: int)
    requires DaysBeforeYear(y) <= k
    ensures DaysBeforeYear(r) <= k < DaysBeforeYear(r + 1)
    decreases k - DaysBeforeYear(y)
  {
    YearStep(y);
    if DaysBeforeYear(y + 1) <= k then YearAbove(k, y + 1) else y
  }

  /** The month containing day-of-year `doy`, searched downwards from `m`. */
  function FindMonth(y: int, doy: int, m: int): (r: int)
    requires 1 <= m <= 12
    requires 0 <= doy < DaysBeforeMonth(y, m) + DaysInMonth(y, m)
    ensures 1 <= r <= m
    ensures DaysBeforeMonth(y, r) <= doy < DaysBeforeMonth(y, r) + DaysInMonth(y, r)
    decreases m
  {
    if DaysBeforeMonth(y, m) <= doy then m
    else
      MonthStep(y, m - 1);
      FindMonth(y, doy, m - 1)
  }

  lemma YearUnique(k: int, a: int, b: int)
    requires DaysBeforeYear(a) <= k < DaysBeforeYear(a + 1)
    requires DaysBeforeYear(b) <= k < DaysBeforeYear(b + 1)
    ensures a == b
  {
    if a < b {
      DaysBeforeYearMonotone(a + 1, b);
    } else if b < a {
      DaysBeforeYearMonotone(b + 1, a);
    }
  }

  lemma MonthUnique(y: int, doy: int, a: int, b: int)
    requires 1 <= a <= 12 && 1 <= b <= 12
    requires DaysBeforeMonth(y, a) <= doy < DaysBeforeMonth(y, a) + DaysInMonth(y, a)
    requires DaysBeforeMonth(y, b) <= doy < DaysBeforeMonth(y, b) + DaysInMonth(y, b)
    ensures a == b
  {
    if a < b {
      MonthMonotone(y, a, b);
    } else if b < a {
      MonthMonotone(y, b, a);
    }
  }

  /** A valid date's day of the year is less than the year's length. */
  lemma DayOfYearBound(d: LocalDate)
    ensures 0 <= DaysBeforeMonth(d.year, d.month) + d.day - 1 < YearLength(d.year)
  {
    MonthStep(d.year, 12);
    if d.month < 12 {
      MonthMonotone(d.year, d.month, 12);
    }
  }

  /** The dates java.time can represent are exactly the epoch days in
      [MinEpochDay, MaxEpochDay]. */
  lemma EpochDayInRange(d: LocalDate)
    ensures MinEpochDay <= EpochDay(d) <= MaxEpochDay
  {
    DayOfYearBound(d);
    YearStep(d.year);
    DaysBeforeYearMonotone(MinYear, d.year);
    DaysBeforeYearMonotone(d.year + 1, MaxYear + 1);
    YearStep(MaxYear);
  }

  /** `LocalDate.ofEpochDay(n)`: the calendar date `n` days after
      1970-01-01, or the exception java.time throws outside its range. */
  function DateOfEpochDay(n: int): (r: Result<LocalDate>)
    ensures r.Ok? <==> MinEpochDay <= n <= MaxEpochDay
    ensures r.Ok? ==> EpochDay(r.value) == n
  {
    if n < MinEpochDay || n > MaxEpochDay then Err("Invalid value for EpochDay")
    else
      var k := n + DaysTo1970;
      var y := FindYear(k, k / 365 + 1);
      YearStep(y);
      MonthStep(y, 12);
      var doy := k - DaysBeforeYear(y);
      var m := FindMonth(y, doy, 12);
      YearOfDayInRange(k, y);
      Ok(Date(y, m, doy - DaysBeforeMonth(y, m) + 1))
  }

  lemma YearOfDayInRange(k: int, y: int)
    requires MinEpochDay + DaysTo1970 <= k <= MaxEpochDay + DaysTo1970
    requires DaysBeforeYear(y) <= k < DaysBeforeYear(y + 1)
    ensures MinYear <= y <= MaxYear
  {
    YearStep(MaxYear);
    if y < MinYear {
      DaysBeforeYearMonotone(y + 1, MinYear);
    } else if y > MaxYear {
      DaysBeforeYearMonotone(MaxYear + 1, y);
    }
  }

  /** Every date survives the trip through its epoch-day number. */
  lemma DateOfEpochDayOfDate(d: LocalDate)
    ensures DateOfEpochDay(EpochDay(d)) == Ok(d)
  {
    EpochDayInRange(d);
    var r := DateOfEpochDay(EpochDay(d));
    assert r.Ok? && EpochDay(r.value) == EpochDay(d);
    SameEpochDaySameDate(r.value, d);
  }

  /** Different dates have different epoch days. */
  lemma SameEpochDaySameDate(a: LocalDate, b: LocalDate)
    requires EpochDay(a) == EpochDay(b)
    ensures a == b
  {
    var k := EpochDay(a) + DaysTo1970;
    DayOfYearBound(a);
    DayOfYearBound(b);
    YearStep(a.year);
    YearStep(b.year);
    YearUnique(k, a.year, b.year);
    var doy := k - DaysBeforeYear(a.year);
    MonthStep(a.year, a.month);
    MonthStep(b.year, b.month);
    MonthUnique(a.year, doy, a.month, b.month);
  }

  /** Every epoch day in range survives the trip through its date. */
  lemma EpochDayOfDateOfEpochDay(n: Day)
    ensures DateOfEpochDay(n).Ok? && EpochDay(DateOfEpochDay(n).value) == n
  {
  }

  /** Lexicographic (chronological) order of dates. */
  predicate DateBefore(a: Date, b: Date) {
    a.year < b.year
    || (a.year == b.year && (a.month < b.month || (a.month == b.month && a.day < b.day)))
  }

  /** Epoch-day numbering preserves and reflects chronological order. */
  lemma EpochDayMonotone(a: LocalDate, b: LocalDate)
    ensures DateBefore(a, b) <==> EpochDay(a) < EpochDay(b)
  {
    if DateBefore(a, b) {
      EarlierDateSmallerDay(a, b);
    } else if DateBefore(b, a) {
      EarlierDateSmallerDay(b, a);
    } else {
      assert a == b;
    }
  }

  lemma EarlierDateSmallerDay(a: LocalDate, b: LocalDate)
    requires DateBefore(a, b)
    ensures EpochDay(a) < EpochDay(b)
  {
    DayOfYearBound(a);
    if a.year < b.year {
      YearStep(a.year);
      DaysBeforeYearMonotone(a.year + 1, b.year);
    } else if a.month < b.month {
      MonthMonotone(a.year, a.month, b.month);
    }
  }

  // ---- Time of day ----

  datatype Time = Time(hour: int, minute: int, second: int, nano: int) {
    predicate Valid() {
      0 <= hour < 24 && 0 <= minute < 60 && 0 <= second < 60 && 0 <= nano < 1000000000
    }
    /** `LocalTime.toSecondOfDay()`. */
    function SecondOfDay(): int {
      hour * 3600 + minute * 60 + second
    }
  }

  type LocalTime = t: Time | t.Valid() witness Time(0, 0, 0, 0)

  /** `LocalTime.ofSecondOfDay(sod)`. */
  function TimeOfSecondOfDay(sod: int): (t: LocalTime)
    requires 0 <= sod < SecondsPerDay
    ensures t.SecondOfDay() == sod && t.nano == 0
  {
    Time(sod / 3600, (sod / 60) % 60, sod % 60, 0)
  }

  lemma TimeOfSecondOfDayOfTime(t: LocalTime)
    ensures 0 <= t.SecondOfDay() < SecondsPerDay
    ensures TimeOfSecondOfDay(t.SecondOfDay()) == t.(nano := 0)
  {
    var sod := t.SecondOfDay();
    ByHour(sod, t.hour, t.minute * 60 + t.second);
    ByMinute(sod, t.hour * 60 + t.minute, t.second);
    ByMinute(t.hour * 60 + t.minute, t.hour, t.minute);
  }

  datatype DateTime = DateTime(date: Date, time: Time)

  /** A `LocalDateTime`: a valid date and a valid time of day. */
  type LocalDateTime = dt: DateTime | dt.date.Valid() && dt.time.Valid()
    witness DateTime(Date(1970, 1, 1), Time(0, 0, 0, 0))

  /** `toEpochSecond(ZoneOffset.UTC)`: the sub-second part is dropped. */
  function EpochSecond(dt: LocalDateTime): int {
    EpochDay(dt.date) * SecondsPerDay + dt.time.SecondOfDay()
  }

  /** `LocalDateTime.ofEpochSecond(s, 0, ZoneOffset.UTC)`: floor division
      into a day and a second of that day. */
  function OfEpochSecond(s: int): (r: Result<LocalDateTime>)
    ensures r.Ok? <==> MinEpochSecond <= s <= MaxEpochSecond
  {
    match DateOfEpochDay(s / SecondsPerDay)
    case Ok(d) => Ok(DateTime(d, TimeOfSecondOfDay(s % SecondsPerDay)))
    case Err(e) => Err(e)
  }

  lemma EpochSecondOfOfEpochSecond(s: int)
    requires OfEpochSecond(s).Ok?
    ensures EpochSecond(OfEpochSecond(s).value) == s
  {
  }

  lemma OfEpochSecondOfEpochSecond(dt: LocalDateTime)
    ensures OfEpochSecond(EpochSecond(dt)) == Ok(dt.(time := dt.time.(nano := 0)))
  {
    var s := EpochSecond(dt);
    TimeOfSecondOfDayOfTime(dt.time);
    assert s / SecondsPerDay == EpochDay(dt.date);
    assert s % SecondsPerDay == dt.time.SecondOfDay();
    DateOfEpochDayOfDate(dt.date);
  }

  /** Lexicographic order of date-times, down to the nanosecond. */
  predicate DateTimeBefore(a: DateTime, b: DateTime) {
    DateBefore(a.date, b.date)
    || (a.date == b.date &&
        (a.time.hour < b.time.hour
         || (a.time.hour == b.time.hour &&
             (a.time.minute < b.time.minute
              || (a.time.minute == b.time.minute &&
                  (a.time.second < b.time.second
                   || (a.time.second == b.time.second && a.time.nano < b.time.nano)))))))
  }

  lemma EpochSecondMonotone(a: LocalDateTime, b: LocalDateTime)
    requires a.time.nano == 0 && b.time.nano == 0
    ensures DateTimeBefore(a, b) <==> EpochSecond(a) < EpochSecond(b)
  {
    EpochDayMonotone(a.date, b.date);
    EpochDayMonotone(b.date, a.date);
    var sa, sb := a.time.SecondOfDay(), b.time.SecondOfDay();
    assert 0 <= sa < SecondsPerDay && 0 <= sb < SecondsPerDay;
    if a.date == b.date {
      assert DateTimeBefore(a, b) <==> sa < sb;
    } else {
      if EpochDay(a.date) == EpochDay(b.date) {
        SameEpochDaySameDate(a.date, b.date);
      }
      assert DateBefore(a.date, b.date) || DateBefore(b.date, a.date);
    }
  }

  // ---- Fields of a timestamp ----

  /** `toLocalDate()` of a timestamp: its epoch day. */
  function DayOf(s: int): int {
    s / SecondsPerDay
  }

  /** `getHour()` of a timestamp. */
  function HourOf(s: int): (h: int)
    ensures 0 <= h < 24
  {
    (s % SecondsPerDay) / 3600
  }

  /** `getMinute()` of a timestamp. */
  function MinuteOf(s: int): (m: int)
    ensures 0 <= m < 60
  {
    (s % 3600) / 60
  }

  /** The calendar date of a representable timestamp. */
  function DateOf(s: Timestamp): LocalDate {
    DateOfEpochDay(DayOf(s)).value
  }

  /** The date-time fields of a representable timestamp. */
  function CivilOf(s: Timestamp): LocalDateTime {
    OfEpochSecond(s).value
  }

  /** The fields agree with the date-time breakdown. */
  lemma FieldsOfCivil(s: Timestamp)
    ensures CivilOf(s).date == DateOf(s)
    ensures CivilOf(s).time.hour == HourOf(s) && CivilOf(s).time.minute == MinuteOf(s)
  {
    var sod := s % SecondsPerDay;
    assert OfEpochSecond(s) == Ok(DateTime(DateOf(s), TimeOfSecondOfDay(sod)));
    HourWithinDay(s);
    assert (sod / 60) % 60 == (s % 3600) / 60;
  }

  /** A timestamp's position within its hour is its second of day's
      position within the hour. */
  lemma HourWithinDay(s: int)
    ensures s % 3600 == (s % SecondsPerDay) % 3600
    ensures s % 60 == (s % SecondsPerDay) % 60
  {
    var d, sod := s / 86400, s % 86400;
    assert s == 86400 * d + sod;
    var h, r := sod / 3600, sod % 3600;
    assert sod == 3600 * h + r;
    ByHour(s, 24 * d + h, r);
    var m, x := r / 60, r % 60;
    assert r == 60 * m + x;
    ByMinute(s, 1440 * d + 60 * h + m, x);
    ByMinute(sod, 60 * h + m, x);
  }

  lemma ByHour(s: int, k: int, r: int)
    requires s == 3600 * k + r && 0 <= r < 3600
    ensures s / 3600 == k && s % 3600 == r
  {
  }

  lemma ByMinute(s: int, k: int, r: int)
    requires s == 60 * k + r && 0 <= r < 60
    ensures s / 60 == k && s % 60 == r
  {
  }

  // ---- Composing a date-time from a date and a time of day ----

  /** Day and second of day split a timestamp uniquely. */
  lemma SplitDay(day: int, sod: int)
    requires 0 <= sod < SecondsPerDay
    ensures (day * SecondsPerDay + sod) / SecondsPerDay == day
    ensures (day * SecondsPerDay + sod) % SecondsPerDay == sod
    ensures (day * SecondsPerDay + sod) % 3600 == sod % 3600
  {
    var x := day * SecondsPerDay + sod;
    assert x == (day * 24) * 3600 + sod;
  }

  /** `LocalDateTime.of(date, s.toLocalTime())`: the given day at the time of
      day `s` has. */
  function AtDate(s: int, day: int): (r: int)
    ensures DayOf(r) == day
    ensures r % SecondsPerDay == s % SecondsPerDay
    ensures HourOf(r) == HourOf(s) && MinuteOf(r) == MinuteOf(s) && r % 60 == s % 60
  {
    var r := day * SecondsPerDay + s % SecondsPerDay;
    SplitDay(day, s % SecondsPerDay);
    HourWithinDay(s);
    HourWithinDay(r);
    r
  }

  /** `LocalDateTime.of(s.toLocalDate(), LocalTime.of(hour, minute))`: the
      day of `s` at that hour and minute, second 0. */
  function AtTime(s: int, hour: int, minute: int): (r: int)
    requires 0 <= hour < 24 && 0 <= minute < 60
    ensures DayOf(r) == DayOf(s)
    ensures HourOf(r) == hour && MinuteOf(r) == minute && r % 60 == 0
  {
    SplitDay(DayOf(s), hour * 3600 + minute * 60);
    DayOf(s) * SecondsPerDay + hour * 3600 + minute * 60
  }

  /** Putting a timestamp's own day back changes nothing. */
  lemma AtOwnDate(s: int)
    ensures AtDate(s, DayOf(s)) == s
  {
  }
}
