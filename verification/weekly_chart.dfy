/** The labels of the weekly completed-tasks chart
    (`WeeklyCompletedTasksChart`): the largest count, the y-axis label
    step and labels, and the seven `MM/dd` x-axis labels. The drawing itself
    is not modelled. */
module WeeklyChart {
  import opened Wrappers
  import opened Text
  import CivilTime

  /** `completedTasks.maxOrNull() ?: 0`. */
  function MaxTasks(counts: seq<int>): (m: int)
    ensures counts == [] ==> m == 0
    ensures counts != [] ==> m in counts && forall c :: c in counts ==> c <= m
  {
    if counts == [] then 0
    else if |counts| == 1 then counts[0]
    else
      var rest := MaxTasks(counts[1..]);
      assert forall c :: c in counts ==> c == counts[0] || c in counts[1..];
      if counts[0] >= rest then counts[0] else rest
  }

  /** `(maxTasks / 5).coerceIn(1, maxTasks)`. */
  function Step(maxTasks: int): (step: int)
    requires maxTasks > 0
    ensures 1 <= step <= maxTasks
    ensures maxTasks < 10 ==> step == 1
    ensures maxTasks >= 10 ==> step == maxTasks / 5
  {
    var q := maxTasks / 5;
    if q < 1 then 1 else if q > maxTasks then maxTasks else q
  }

  /** The progression `first..last step step`. */
  function Progression(first: int, last: int, step: int): seq<int>
    requires step > 0
    decreases last - first
  {
    if first > last then [] else [first] + Progression(first + step, last, step)
  }

  /** The progression's elements are `first + i * step`, as long as they
      do not pass `last`, and the last one is within a step of `last`. */
  lemma {:induction false} ProgressionShape(first: int, last: int, step: int)
    requires step > 0
    ensures forall i :: 0 <= i < |Progression(first, last, step)| ==>
      Progression(first, last, step)[i] == first + i * step && Progression(first, last, step)[i] <= last
    ensures first <= last ==> |Progression(first, last, step)| > 0
    ensures first <= last ==> Progression(first, last, step)[|Progression(first, last, step)| - 1] > last - step
    ensures first > last ==> Progression(first, last, step) == []
    decreases last - first
  {
    if first <= last {
      var p := Progression(first, last, step);
      var rest := Progression(first + step, last, step);
      ProgressionShape(first + step, last, step);
      assert p == [first] + rest;
      forall i | 0 < i < |p|
        ensures p[i] == first + i * step
      {
        assert p[i] == rest[i - 1];
        assert rest[i - 1] == first + step + (i - 1) * step;
      }
    }
  }

  /** The y-axis labels: with a positive maximum, `0..maxTasks step step`;
      otherwise only 0. */
  function YLabels(maxTasks: int): (labels: seq<int>)
    ensures |labels| > 0 && labels[0] == 0
    ensures forall i :: 0 <= i < |labels| ==> 0 <= labels[i] <= (if maxTasks > 0 then maxTasks else 0)
  {
    if maxTasks > 0 then ProgressionShape(0, maxTasks, Step(maxTasks)); Progression(0, maxTasks, Step(maxTasks))
    else [0]
  }

  /** The labels start at 0, climb by the step, never pass the maximum and
      end within a step of it; with no positive maximum only 0 is
      labelled. */
  lemma YLabelsShape(maxTasks: int)
    ensures |YLabels(maxTasks)| > 0 && YLabels(maxTasks)[0] == 0
    ensures maxTasks > 0 ==> forall i :: 0 <= i < |YLabels(maxTasks)| ==>
      YLabels(maxTasks)[i] == i * Step(maxTasks) && 0 <= YLabels(maxTasks)[i] <= maxTasks
    ensures maxTasks > 0 ==> YLabels(maxTasks)[|YLabels(maxTasks)| - 1] > maxTasks - Step(maxTasks)
    ensures maxTasks <= 0 ==> YLabels(maxTasks) == [0]
  {
    if maxTasks > 0 {
      ProgressionShape(0, maxTasks, Step(maxTasks));
    }
  }

  /** Below 10 every number from 0 to the maximum is labelled. */
  lemma SmallMaximumLabelsAll(maxTasks: int)
    requires 0 < maxTasks < 10
    ensures YLabels(maxTasks) == seq(maxTasks + 1, i => i)
  {
    var labels := YLabels(maxTasks);
    ProgressionShape(0, maxTasks, 1);
    assert labels[|labels| - 1] == |labels| - 1;
  }

  /** The text drawn for each y label. */
  function YLabelTexts(completedTasks: seq<int>): (texts: seq<string>)
    ensures |texts| == |YLabels(MaxTasks(completedTasks))|
    ensures forall i :: 0 <= i < |texts| ==> texts[i] == ShowInt(YLabels(MaxTasks(completedTasks))[i])
  {
    var labels := YLabels(MaxTasks(completedTasks));
    seq(|labels|, i requires 0 <= i < |labels| => ShowInt(labels[i]))
  }

  /** With no completed tasks in the week the axis shows only "0". */
  lemma EmptyWeekShowsZero(completedTasks: seq<int>)
    requires forall c :: c in completedTasks ==> c <= 0
    ensures YLabelTexts(completedTasks) == ["0"]
  {
    YLabelsShape(MaxTasks(completedTasks));
    assert Digits(0) == "0";
  }

  /** A date as `MM/dd`. */
  function MonthDay(d: CivilTime.LocalDate): string {
    Pair(d.month, '/', d.day)
  }

  lemma MonthDayRoundTrip(d: CivilTime.LocalDate)
    ensures |MonthDay(d)| == 5 && MonthDay(d)[2] == '/'
    ensures ReadsAs(MonthDay(d)[..2], d.month) && ReadsAs(MonthDay(d)[3..], d.day)
  {
    PairRoundTrip(d.month, '/', d.day);
  }

  /** The label of the day `n`. */
  function DayLabel(n: int): string
    requires CivilTime.MinEpochDay <= n <= CivilTime.MaxEpochDay
  {
    MonthDay(CivilTime.DateOfEpochDay(n).value)
  }

  /** The x-axis labels: today minus 6, ..., today as `MM/dd`, oldest
      first. `minusDays` fails before the first representable day. */
  function XLabels(today: CivilTime.LocalDate): (r: Result<seq<string>>)
    ensures r.Ok? <==> CivilTime.EpochDay(today) - 6 >= CivilTime.MinEpochDay
    ensures r.Ok? ==> |r.value| == 7
  {
    var t := CivilTime.EpochDay(today);
    CivilTime.EpochDayInRange(today);
    if t - 6 < CivilTime.MinEpochDay then Err("DateTimeException")
    else Ok(seq(7, j requires 0 <= j < 7 => DayLabel(t - 6 + j)))
  }

  /** Label `j` is the day `6 - j` days before today. */
  lemma XLabelAt(today: CivilTime.LocalDate, j: int)
    requires XLabels(today).Ok? && 0 <= j < 7
    ensures var n := CivilTime.EpochDay(today) - (6 - j);
      CivilTime.MinEpochDay <= n <= CivilTime.MaxEpochDay && XLabels(today).value[j] == DayLabel(n)
  {
    CivilTime.EpochDayInRange(today);
  }

  /** There are seven labels; label `j` is the month and day (which
      `MonthDayRoundTrip` reads back) of the date `6 - j` days before
      today. */
  lemma XLabelsDays(today: CivilTime.LocalDate, j: int)
    requires XLabels(today).Ok? && 0 <= j < 7
    ensures |XLabels(today).value| == 7
    ensures var d := CivilTime.DateOfEpochDay(CivilTime.EpochDay(today) - (6 - j));
      d.Ok? && CivilTime.EpochDay(d.value) == CivilTime.EpochDay(today) - (6 - j)
      && XLabels(today).value[j] == MonthDay(d.value)
  {
    var n := CivilTime.EpochDay(today) - (6 - j);
    XLabelAt(today, j);
    CivilTime.EpochDayOfDateOfEpochDay(n);
  }

  /** The last label is today's. */
  lemma LastXLabelIsToday(today: CivilTime.LocalDate)
    requires XLabels(today).Ok?
    ensures XLabels(today).value[6] == MonthDay(today)
  {
    XLabelAt(today, 6);
    CivilTime.DateOfEpochDayOfDate(today);
  }
}
