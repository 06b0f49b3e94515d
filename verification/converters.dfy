/** Room's type converter between a stored `Long` column and a
    `LocalDateTime`: epoch seconds read in UTC, nullable in both
    directions. */
module Converters {
  import opened Wrappers
  import opened CivilTime

  /** `fromTimestamp`: null stays null; a number becomes the UTC civil
      date-time that many seconds after 1970-01-01T00:00:00. Outside the
      range java.time can represent, `ofEpochSecond` throws. */
  function FromTimestamp(value: Option<int>): (r: Result<Option<LocalDateTime>>)
    ensures value.None? ==> r == Ok(None)
    ensures value.Some? ==> (r.Ok? <==> MinEpochSecond <= value.value <= MaxEpochSecond)
    ensures value.Some? && r.Ok? ==>
      r.value.Some? && EpochSecond(r.value.value) == value.value && r.value.value.time.nano == 0
  {
    match value
    case None => Ok(None)
    case Some(s) =>
      var dt := OfEpochSecond(s);
      if dt.Ok? then
        EpochSecondOfOfEpochSecond(s);
        Ok(Some(dt.value))
      else Err(dt.error)
  }

  /** `dateToTimestamp`: null stays null; a date-time becomes its whole
      epoch seconds in UTC, the sub-second part dropped. */
  function DateToTimestamp(date: Option<LocalDateTime>): (r: Option<int>)
    ensures r.Some? <==> date.Some?
    ensures r.Some? ==> MinEpochSecond <= r.value <= MaxEpochSecond
    ensures r.Some? ==> OfEpochSecond(r.value) == Ok(date.value.(time := date.value.time.(nano := 0)))
  {
    match date
    case None => None
    case Some(dt) =>
      OfEpochSecondOfEpochSecond(dt);
      Some(EpochSecond(dt))
  }

  /** The first 86400 seconds are 1970-01-01, at the time of day the
      number counts (second zero is midnight). */
  lemma FromTimestampFirstDay(s: int)
    requires 0 <= s < SecondsPerDay
    ensures FromTimestamp(Some(s)) == Ok(Some(DateTime(Date(1970, 1, 1), TimeOfSecondOfDay(s))))
  {
    var dt: LocalDateTime := DateTime(Date(1970, 1, 1), TimeOfSecondOfDay(s));
    assert EpochDay(dt.date) == 0;
    assert EpochSecond(dt) == s;
    assert DateToTimestamp(Some(dt)) == Some(s);
    DateTimeRoundTrip(dt);
  }

  /** Every storable number survives a read followed by a write. */
  lemma TimestampRoundTrip(s: int)
    requires MinEpochSecond <= s <= MaxEpochSecond
    ensures FromTimestamp(Some(s)).Ok?
    ensures DateToTimestamp(FromTimestamp(Some(s)).value) == Some(s)
  {
  }

  /** A write followed by a read gives the date-time back without its
      sub-second part. */
  lemma DateTimeRoundTrip(dt: LocalDateTime)
    ensures FromTimestamp(DateToTimestamp(Some(dt))) == Ok(Some(dt.(time := dt.time.(nano := 0))))
  {
    OfEpochSecondOfEpochSecond(dt);
  }

  /** On whole-second date-times the stored number is strictly monotone, so
      SQL comparisons of the column agree with chronological order. */
  lemma DateToTimestampMonotone(a: LocalDateTime, b: LocalDateTime)
    requires a.time.nano == 0 && b.time.nano == 0
    ensures DateTimeBefore(a, b) <==> DateToTimestamp(Some(a)).value < DateToTimestamp(Some(b)).value
  {
    EpochSecondMonotone(a, b);
  }
}
