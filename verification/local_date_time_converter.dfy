/** Room's text converter for `LocalDateTime` with the pattern
    `yyyy-MM-dd HH:mm:ss`, as java.time's `DateTimeFormatter.ofPattern`
    prints and parses it (strict parsing, SMART resolution). */
module LocalDateTimeConverter {
  import opened Wrappers
  import opened Text
  import opened CivilTime

  /** What the pattern's text yields before resolution. */
  datatype Fields = Fields(yearOfEra: nat, month: nat, day: nat, hour: nat, minute: nat, second: nat)

  /** `yyyy` is year-of-era: year 0 is 1 BCE, year -1 is 2 BCE, and so on;
      the era itself is not printed. */
  function YearOfEra(year: int): (n: nat)
    ensures n >= 1
    ensures year >= 1 ==> n == year
  {
    if year >= 1 then year else 1 - year
  }

  /** At least four digits; a `+` when more than four are needed. */
  function YearText(yoe: nat): string {
    if yoe > 9999 then "+" + Digits(yoe) else ZeroPad(yoe, 4)
  }

  /** The tens and units digits of a two-digit field (`MM`, `dd`, ...). */
  function Tens(n: nat): char
    requires n < 100
  {
    DigitChar(n / 10)
  }

  function Units(n: nat): char
    requires n < 100
  {
    DigitChar(n % 10)
  }

  /** Everything after the year: `-MM-dd HH:mm:ss`. */
  function TailText(month: nat, day: nat, hour: nat, minute: nat, second: nat): string
    requires month < 100 && day < 100 && hour < 100 && minute < 100 && second < 100
  {
    ['-', Tens(month), Units(month), '-', Tens(day), Units(day), ' ', Tens(hour), Units(hour),
     ':', Tens(minute), Units(minute), ':', Tens(second), Units(second)]
  }

  function FieldsOf(dt: LocalDateTime): Fields {
    Fields(YearOfEra(dt.date.year), dt.date.month, dt.date.day, dt.time.hour, dt.time.minute, dt.time.second)
  }

  /** The separators of `-MM-dd HH:mm:ss` in place and digits elsewhere. */
  predicate TailShape(t: string) {
    |t| == 15 && t[0] == '-' && t[3] == '-' && t[6] == ' ' && t[9] == ':' && t[12] == ':'
    && IsDigit(t[1]) && IsDigit(t[2]) && IsDigit(t[4]) && IsDigit(t[5]) && IsDigit(t[7])
    && IsDigit(t[8]) && IsDigit(t[10]) && IsDigit(t[11]) && IsDigit(t[13]) && IsDigit(t[14])
  }

  /** A year field the strict parser accepts: four digits, or a `+` and
      five to nineteen digits. */
  predicate YearShape(t: string) {
    (|t| == 4 && AllDigits(t)) || (6 <= |t| <= 20 && t[0] == '+' && AllDigits(t[1..]))
  }

  /** Text in the pattern's shape (whatever the values). */
  predicate Matches(s: string) {
    |s| >= 19 && YearShape(s[..|s| - 15]) && TailShape(s[|s| - 15..])
  }

  /** The 19-character form of years 1 to 9999. */
  predicate PlainShape(s: string) {
    |s| == 19 && AllDigits(s[..4]) && TailShape(s[4..])
  }

  /** `fromLocalDateTime`: null stays null, otherwise the formatted text. */
  function FromLocalDateTime(value: Option<LocalDateTime>): (r: Option<string>)
    ensures r.Some? <==> value.Some?
    ensures r.Some? ==> Lex(r.value) == Ok(FieldsOf(value.value))
    ensures r.Some? && 1 <= value.value.date.year <= 9999 ==> PlainShape(r.value)
  {
    match value
    case None => None
    case Some(dt) => Some(Format(dt))
  }

  /** `LocalDateTime.format(formatter)`; sub-second digits are not printed. */
  function Format(dt: LocalDateTime): (s: string)
    ensures Lex(s) == Ok(FieldsOf(dt))
    ensures 1 <= dt.date.year <= 9999 ==> PlainShape(s)
  {
    var t := TailText(dt.date.month, dt.date.day, dt.time.hour, dt.time.minute, dt.time.second);
    LexOfText(YearOfEra(dt.date.year), dt.date.month, dt.date.day, dt.time.hour, dt.time.minute, dt.time.second);
    YearText(YearOfEra(dt.date.year)) + t
  }

  /** The year field at the start of `s`: its value and its length. */
  function LexYear(s: string): (r: Result<(nat, nat)>)
    ensures r.Ok? ==> r.value.1 <= |s| && YearShape(s[..r.value.1])
  {
    if s != [] && s[0] == '+' then
      var n := DigitRun(s[1..]);
      if 5 <= n <= 19 then
        assert s[..n + 1][1..] == s[1..][..n];
        Ok((ParseDigits(s[1..][..n]), n + 1))
      else Err("Text could not be parsed")
    else
      var n := DigitRun(s);
      if n == 4 then Ok((ParseDigits(s[..4]), 4)) else Err("Text could not be parsed")
  }

  /** The value of the two digits at `t[i]` and `t[i + 1]`. */
  function Two(t: string, i: nat): nat
    requires i + 2 <= |t| && IsDigit(t[i]) && IsDigit(t[i + 1])
  {
    DigitValue(t[i]) * 10 + DigitValue(t[i + 1])
  }

  /** The strict parse of the text into fields, before any range check:
      every character must match the pattern and nothing may follow. */
  function Lex(s: string): (r: Result<Fields>)
    ensures r.Ok? ==> Matches(s)
  {
    match LexYear(s)
    case Err(e) => Err(e)
    case Ok((yoe, p)) =>
      var t := s[p..];
      if TailShape(t) then
        assert s[..|s| - 15] == s[..p] && s[|s| - 15..] == t;
        Ok(Fields(yoe, Two(t, 1), Two(t, 4), Two(t, 7), Two(t, 10), Two(t, 13)))
      else Err("Text could not be parsed")
  }

  function Min(a: int, b: int): int {
    if a <= b then a else b
  }

  /** SMART resolution: each field is range-checked; a day-of-month from 1
      to 31 is clamped to the month's last day; `24:00:00` is midnight at
      the start of the next day. */
  function Resolve(f: Fields): (r: Result<LocalDateTime>)
    ensures r.Ok? ==> r.value.time.nano == 0
    ensures r.Ok? && f.hour < 24 ==>
      r.value.date == Date(f.yearOfEra, f.month, r.value.date.day)
      && r.value.time == Time(f.hour, f.minute, f.second, 0)
  {
    if !(1 <= f.yearOfEra <= MaxYear) then Err("Invalid value for YearOfEra")
    else if !(1 <= f.month <= 12) then Err("Invalid value for MonthOfYear")
    else if !(1 <= f.day <= 31) then Err("Invalid value for DayOfMonth")
    else if f.minute > 59 then Err("Invalid value for MinuteOfHour")
    else
      var date: LocalDate := Date(f.yearOfEra, f.month, Min(f.day, DaysInMonth(f.yearOfEra, f.month)));
      if f.hour == 24 && f.minute == 0 && f.second == 0 then
        match DateOfEpochDay(EpochDay(date) + 1)
        case Ok(next) =>
          Ok(DateTime(next, Time(0, 0, 0, 0)))
        case Err(e) => Err(e)
      else if f.hour > 23 then Err("Invalid value for HourOfDay")
      else if f.second > 59 then Err("Invalid value for SecondOfMinute")
      else Ok(DateTime(date, Time(f.hour, f.minute, f.second, 0)))
  }

  /** `LocalDateTime.parse(text, formatter)`. */
  function Parse(s: string): (r: Result<LocalDateTime>)
    ensures r.Ok? ==> Matches(s)
    ensures r.Ok? ==> r.value.time.nano == 0
  {
    match Lex(s)
    case Ok(f) => Resolve(f)
    case Err(e) => Err(e)
  }

  /** `toLocalDateTime`: null stays null, otherwise the parsed date-time or
      the parse failure. */
  function ToLocalDateTime(value: Option<string>): (r: Result<Option<LocalDateTime>>)
    ensures value.None? ==> r == Ok(None)
    ensures value.Some? ==> (r.Ok? <==> Parse(value.value).Ok?)
    ensures value.Some? && r.Ok? ==> r.value == Some(Parse(value.value).value)
  {
    match value
    case None => Ok(None)
    case Some(s) =>
      match Parse(s)
      case Ok(dt) => Ok(Some(dt))
      case Err(e) => Err(e)
  }

  // ---- Proofs about the printed text ----

  lemma TwoOfTail(month: nat, day: nat, hour: nat, minute: nat, second: nat)
    requires month < 100 && day < 100 && hour < 100 && minute < 100 && second < 100
    ensures var t := TailText(month, day, hour, minute, second);
      TailShape(t) && Two(t, 1) == month && Two(t, 4) == day && Two(t, 7) == hour
      && Two(t, 10) == minute && Two(t, 13) == second
  {
  }

  /** Two digit characters are the tens and units of the value they spell. */
  lemma TailOfTwo(t: string)
    requires TailShape(t)
    ensures t == TailText(Two(t, 1), Two(t, 4), Two(t, 7), Two(t, 10), Two(t, 13))
  {
    DigitsOfTwo(t[1], t[2]);
    DigitsOfTwo(t[4], t[5]);
    DigitsOfTwo(t[7], t[8]);
    DigitsOfTwo(t[10], t[11]);
    DigitsOfTwo(t[13], t[14]);
  }

  lemma DigitsOfTwo(a: char, b: char)
    requires IsDigit(a) && IsDigit(b)
    ensures var n := DigitValue(a) * 10 + DigitValue(b); n < 100 && Tens(n) == a && Units(n) == b
  {
  }

  lemma LexOfText(yoe: nat, month: nat, day: nat, hour: nat, minute: nat, second: nat)
    requires 1 <= yoe <= MaxYear + 1
    requires month < 100 && day < 100 && hour < 100 && minute < 100 && second < 100
    ensures var s := YearText(yoe) + TailText(month, day, hour, minute, second);
      Lex(s) == Ok(Fields(yoe, month, day, hour, minute, second))
      && (yoe <= 9999 ==> PlainShape(s))
  {
    var t := TailText(month, day, hour, minute, second);
    TwoOfTail(month, day, hour, minute, second);
    if yoe > 9999 {
      LexYearLong(yoe, t);
      var s := YearText(yoe) + t;
      assert s == "+" + Digits(yoe) + t;
      assert s[|s| - 15..] == t;
    } else {
      LexYearShort(yoe, t);
    }
  }

  lemma LexYearLong(yoe: nat, t: string)
    requires 9999 < yoe <= MaxYear + 1 && TailShape(t)
    ensures LexYear("+" + Digits(yoe) + t) == Ok((yoe, |Digits(yoe)| + 1))
  {
    var d := Digits(yoe);
    var s := "+" + d + t;
    assert 5 <= |d| <= 10 by {
      DigitsLength(yoe, 4);
      DigitsLength(yoe, 10);
      Pow10Values();
    }
    assert DigitRun(s[1..]) == |d| by {
      assert s[1..] == d + t;
      DigitRunOf(d, t);
    }
    assert ParseDigits(s[1..][..|d|]) == yoe by {
      assert s[1..][..|d|] == d;
      ParseDigitsOfDigits(yoe);
    }
    assert s != [] && s[0] == '+';
    assert LexYear(s) == Ok((ParseDigits(s[1..][..|d|]), |d| + 1));
  }

  lemma Pow10Values()
    ensures Pow10(4) == 10000 && Pow10(10) == 10000000000
  {
    assert Pow10(2) == 100;
    assert Pow10(4) == 10000;
    assert Pow10(6) == 1000000;
    assert Pow10(8) == 100000000;
  }

  lemma LexYearShort(yoe: nat, t: string)
    requires 1 <= yoe <= 9999 && TailShape(t)
    ensures var s := YearText(yoe) + t;
      LexYear(s) == Ok((yoe, 4)) && s[4..] == t && |s| == 19 && AllDigits(s[..4])
  {
    var s := YearText(yoe) + t;
    DigitsLength(yoe, 4);
    assert Pow10(4) == 10000;
    var d := ZeroPad(yoe, 4);
    DigitRunOf(d, t);
    assert s[..4] == d && s[4..] == t;
    ParseZeroPad(yoe, 4);
  }

  // ---- Round trips ----

  /** Formatting then parsing gives back any date-time from year 1 on,
      truncated to whole seconds. */
  lemma ParseOfFormat(dt: LocalDateTime)
    requires dt.date.year >= 1
    ensures ToLocalDateTime(FromLocalDateTime(Some(dt))) == Ok(Some(dt.(time := dt.time.(nano := 0))))
  {
    var f := FieldsOf(dt);
    var s := Format(dt);
    assert FromLocalDateTime(Some(dt)) == Some(s);
    assert Parse(s) == Resolve(f);
    assert f.yearOfEra == dt.date.year && f.hour < 24;
    ResolveInRange(f);
    assert dt.(time := dt.time.(nano := 0)) == DateTime(Date(f.yearOfEra, f.month, f.day), Time(f.hour, f.minute, f.second, 0));
  }

  /** Fields naming a valid whole-second date-time resolve to it. */
  lemma ResolveInRange(f: Fields)
    requires 1 <= f.yearOfEra <= MaxYear && 1 <= f.month <= 12 && 1 <= f.day <= DaysInMonth(f.yearOfEra, f.month)
    requires f.hour < 24 && f.minute < 60 && f.second < 60
    ensures Resolve(f) == Ok(DateTime(Date(f.yearOfEra, f.month, f.day), Time(f.hour, f.minute, f.second, 0)))
  {
    assert Min(f.day, DaysInMonth(f.yearOfEra, f.month)) == f.day;
  }

  /** A valid date-time named in the 19-character form formats back to the
      same text. */
  lemma FormatOfParse(s: string)
    requires PlainShape(s)
    requires var f := Lex(s);
      f.Ok? && 1 <= f.value.yearOfEra && 1 <= f.value.month <= 12
      && 1 <= f.value.day <= DaysInMonth(f.value.yearOfEra, f.value.month)
      && f.value.hour < 24 && f.value.minute < 60 && f.value.second < 60
    ensures ToLocalDateTime(Some(s)).Ok?
    ensures FromLocalDateTime(ToLocalDateTime(Some(s)).value) == Some(s)
  {
    var f := Lex(s).value;
    var y, t := s[..4], s[4..];
    DigitRunOf(y, t);
    assert s == y + t;
    assert f.yearOfEra == ParseDigits(y);
    ZeroPadOfParseDigits(y);
    assert f.yearOfEra <= 9999 by {
      DigitsLength(f.yearOfEra, 4);
      assert Pow10(4) == 10000;
    }
    assert Min(f.day, DaysInMonth(f.yearOfEra, f.month)) == f.day;
    var dt := Parse(s).value;
    assert FieldsOf(dt) == f;
    TailOfTwo(t);
  }

  // ---- How resolution treats edge values ----

  lemma Year2023()
    ensures YearText(2023) == "2023"
  {
    assert Digits(2) == "2" && Digits(20) == "20" && Digits(202) == "202";
    assert Digits(2023) == "2023";
  }

  /** The example texts below, printed as `Format` prints fields. */
  lemma ClampExampleText()
    ensures YearText(2023) + TailText(2, 30, 0, 0, 0) == "2023-02-30 00:00:00"
  {
    assert YearText(2023) == "2023" by {
      Year2023();
    }
    assert TailText(2, 30, 0, 0, 0) == "-02-30 00:00:00" by {
      assert Tens(2) == '0' && Units(2) == '2' && Tens(30) == '3' && Units(30) == '0';
      assert Tens(0) == '0' && Units(0) == '0' && Tens(0) == '0' && Units(0) == '0';
    }
    assert "2023" + "-02-30 00:00:00" == "2023-02-30 00:00:00";
  }

  lemma Day32ExampleText()
    ensures YearText(2023) + TailText(1, 32, 0, 0, 0) == "2023-01-32 00:00:00"
  {
    assert YearText(2023) == "2023" by {
      Year2023();
    }
    assert TailText(1, 32, 0, 0, 0) == "-01-32 00:00:00" by {
      assert Tens(1) == '0' && Units(1) == '1' && Tens(32) == '3' && Units(32) == '2';
      assert Tens(0) == '0' && Units(0) == '0' && Tens(0) == '0' && Units(0) == '0';
    }
    assert "2023" + "-01-32 00:00:00" == "2023-01-32 00:00:00";
  }

  lemma EndOfDayExampleText()
    ensures YearText(2023) + TailText(12, 31, 24, 0, 0) == "2023-12-31 24:00:00"
  {
    assert YearText(2023) == "2023" by {
      Year2023();
    }
    assert TailText(12, 31, 24, 0, 0) == "-12-31 24:00:00" by {
      assert Tens(12) == '1' && Units(12) == '2' && Tens(31) == '3' && Units(31) == '1';
      assert Tens(24) == '2' && Units(24) == '4' && Tens(0) == '0' && Units(0) == '0';
    }
    assert "2023" + "-12-31 24:00:00" == "2023-12-31 24:00:00";
  }

  /** A day-of-month past the month's end is clamped, not rejected:
      "2023-02-30 00:00:00" (see `ClampExampleText`) reads as 28 February 2023. */
  lemma ParseClampsDayOfMonth()
    ensures Parse(YearText(2023) + TailText(2, 30, 0, 0, 0)) == Ok(DateTime(Date(2023, 2, 28), Time(0, 0, 0, 0)))
  {
    LexOfText(2023, 2, 30, 0, 0, 0);
    assert Resolve(Fields(2023, 2, 30, 0, 0, 0)) == Ok(DateTime(Date(2023, 2, 28), Time(0, 0, 0, 0))) by {
      assert DaysInMonth(2023, 2) == 28;
    }
  }

  /** A day-of-month above 31 is rejected: "2023-01-32 00:00:00" fails. */
  lemma ParseRejectsDay32()
    ensures Parse(YearText(2023) + TailText(1, 32, 0, 0, 0)).Err?
  {
    LexOfText(2023, 1, 32, 0, 0, 0);
  }

  lemma ResolveEndOfYear()
    ensures Resolve(Fields(2023, 12, 31, 24, 0, 0)) == Ok(DateTime(Date(2024, 1, 1), Time(0, 0, 0, 0)))
  {
    var last: LocalDate := Date(2023, 12, 31);
    var first: LocalDate := Date(2024, 1, 1);
    assert Min(31, DaysInMonth(2023, 12)) == 31;
    assert EpochDay(first) == EpochDay(last) + 1;
    DateOfEpochDayOfDate(first);
  }

  /** `24:00:00` is the first instant of the next day: "2023-12-31
      24:00:00" reads as midnight on 1 January 2024. */
  lemma ParseEndOfDay()
    ensures Parse(YearText(2023) + TailText(12, 31, 24, 0, 0)) == Ok(DateTime(Date(2024, 1, 1), Time(0, 0, 0, 0)))
  {
    LexOfText(2023, 12, 31, 24, 0, 0);
    ResolveEndOfYear();
  }

  /** Years before 1 do not survive: year-of-era drops the era, so 29
      February of year 0 (1 BCE, a leap year) prints as "0001-02-29" and
      reads back as 28 February of year 1. */
  lemma FormatLosesEra()
    ensures var leapDay: LocalDateTime := DateTime(Date(0, 2, 29), Time(0, 0, 0, 0));
      Parse(Format(leapDay)) == Ok(DateTime(Date(1, 2, 28), Time(0, 0, 0, 0)))
  {
    var leapDay: LocalDateTime := DateTime(Date(0, 2, 29), Time(0, 0, 0, 0));
    var f := Fields(1, 2, 29, 0, 0, 0);
    assert Lex(Format(leapDay)) == Ok(f);
    assert Resolve(f) == Ok(DateTime(Date(1, 2, 28), Time(0, 0, 0, 0))) by {
      assert DaysInMonth(1, 2) == 28;
    }
  }
}
