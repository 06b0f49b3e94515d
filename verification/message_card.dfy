/** The time shown on a message card (`formatMessageTime`): `HH:mm` for a
    message from the same calendar day as now, `MM-dd HH:mm` otherwise.
    "Now" is a parameter and both times are read in one zone. */
module MessageTime {
  import opened Text
  import CivilTime

  function HourMinute(s: int): string {
    Pair(CivilTime.HourOf(s), ':', CivilTime.MinuteOf(s))
  }

  /** The short five-character form is shown exactly for messages from
      today's calendar day. */
  function FormatMessageTime(dateTime: CivilTime.Timestamp, now: CivilTime.Timestamp): (text: string)
    ensures |text| == 5 <==> CivilTime.DayOf(dateTime) == CivilTime.DayOf(now)
  {
    if CivilTime.DayOf(dateTime) == CivilTime.DayOf(now) then
      PairRoundTrip(CivilTime.HourOf(dateTime), ':', CivilTime.MinuteOf(dateTime));
      HourMinute(dateTime)
    else
      var d := CivilTime.DateOf(dateTime);
      Pair(d.month, '-', d.day) + " " + HourMinute(dateTime)
  }

  /** Today's messages show five characters that read back as their hour
      and minute. */
  lemma TodayShowsTime(dateTime: CivilTime.Timestamp, now: CivilTime.Timestamp)
    requires CivilTime.DayOf(dateTime) == CivilTime.DayOf(now)
    ensures var f := FormatMessageTime(dateTime, now);
      |f| == 5 && f[2] == ':'
      && ReadsAs(f[..2], CivilTime.HourOf(dateTime)) && ReadsAs(f[3..], CivilTime.MinuteOf(dateTime))
  {
    PairRoundTrip(CivilTime.HourOf(dateTime), ':', CivilTime.MinuteOf(dateTime));
  }

  /** Messages from any other day show eleven characters that read back
      as their month, day, hour and minute; the year is not among them. */
  lemma OtherDayShowsDate(dateTime: CivilTime.Timestamp, now: CivilTime.Timestamp)
    requires CivilTime.DayOf(dateTime) != CivilTime.DayOf(now)
    ensures var f := FormatMessageTime(dateTime, now);
      |f| == 11 && f[2] == '-' && f[5] == ' ' && f[8] == ':'
      && ReadsAs(f[..2], CivilTime.DateOf(dateTime).month) && ReadsAs(f[3..5], CivilTime.DateOf(dateTime).day)
      && ReadsAs(f[6..8], CivilTime.HourOf(dateTime)) && ReadsAs(f[9..], CivilTime.MinuteOf(dateTime))
  {
    var d := CivilTime.DateOf(dateTime);
    assert FormatMessageTime(dateTime, now) == Pair(d.month, '-', d.day) + " " + HourMinute(dateTime);
    TwoPairsRoundTrip(d.month, '-', d.day, CivilTime.HourOf(dateTime), ':', CivilTime.MinuteOf(dateTime));
  }

  /** The choice is by calendar day, not by elapsed time: a message sent a
      minute before midnight shows its date from midnight on. */
  lemma DateShownAfterMidnight(now: CivilTime.Timestamp)
    requires now % CivilTime.SecondsPerDay == 0 && now - 60 >= CivilTime.MinEpochSecond
    ensures |FormatMessageTime(now - 60, now)| == 11
  {
    assert CivilTime.DayOf(now - 60) == CivilTime.DayOf(now) - 1;
    OtherDayShowsDate(now - 60, now);
  }

  /** Messages a whole number of years apart (on days other than today)
      with the same month, day, hour and minute show the same text. */
  lemma YearNotShown(a: CivilTime.Timestamp, b: CivilTime.Timestamp, now: CivilTime.Timestamp)
    requires CivilTime.DayOf(a) != CivilTime.DayOf(now) && CivilTime.DayOf(b) != CivilTime.DayOf(now)
    requires CivilTime.DateOf(a).month == CivilTime.DateOf(b).month && CivilTime.DateOf(a).day == CivilTime.DateOf(b).day
    requires CivilTime.HourOf(a) == CivilTime.HourOf(b) && CivilTime.MinuteOf(a) == CivilTime.MinuteOf(b)
    ensures FormatMessageTime(a, now) == FormatMessageTime(b, now)
  {
  }
}
