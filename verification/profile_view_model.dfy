/** The profile screen's statistics (`ProfileViewModel`): today's focus
    minutes per hour of the day, and the completed-task counts of the last
    seven days. "Today" is a parameter (an epoch day); times are epoch
    seconds. */
module Profile {
  import opened Wrappers
  import CivilTime
  import opened FocusSessions
  import TodoStore
  import LocalUsers

  const Hour := 3600
  const Slots := 24

  /** `minutesInThisHour` for the visit at `cur` of the session
      `[start, end)`. Hours are compared by hour of day only. */
  function VisitMinutes(cur: int, start: int, end: int): (minutes: int)
    ensures minutes <= 60
  {
    var h := CivilTime.HourOf(cur);
    if h == CivilTime.HourOf(start) && h == CivilTime.HourOf(end) then
      CivilTime.MinuteOf(end) - CivilTime.MinuteOf(start)
    else if h == CivilTime.HourOf(start) then 60 - CivilTime.MinuteOf(start)
    else if h == CivilTime.HourOf(end) then CivilTime.MinuteOf(end)
    else 60
  }

  /** What the visits `cur`, `cur + 1h`, ... that are at most `last` add to
      slot `h`. The code visits from `start` while before `end`, that is up
      to `end - 1`. */
  function SlotFrom(start: int, end: int, cur: int, last: int, h: int): int
    decreases last - cur
  {
    if cur > last then 0
    else (if CivilTime.HourOf(cur) == h then VisitMinutes(cur, start, end) else 0)
         + SlotFrom(start, end, cur + Hour, last, h)
  }

  /** The minutes those visits add over all slots. */
  function VisitTotal(start: int, end: int, cur: int, last: int): int
    decreases last - cur
  {
    if cur > last then 0
    else VisitMinutes(cur, start, end) + VisitTotal(start, end, cur + Hour, last)
  }

  /** One session's contribution to slot `h`, as the code computes it. */
  function SessionSlot(s: FocusSession, h: int): int {
    SlotFrom(s.startTime, s.endTime, s.startTime, s.endTime - 1, h)
  }

  /** All sessions' contributions to slot `h`. */
  function Total(sessions: seq<FocusSession>, h: int): int {
    if sessions == [] then 0 else SessionSlot(sessions[0], h) + Total(sessions[1..], h)
  }

  /** Contributions add slot-wise: the slots of two batches of sessions are
      the sums of each batch's slots. */
  lemma {:induction false} TotalAppend(a: seq<FocusSession>, b: seq<FocusSession>, h: int)
    ensures Total(a + b, h) == Total(a, h) + Total(b, h)
    decreases |a|
  {
    if a != [] {
      assert (a + b)[1..] == a[1..] + b;
      TotalAppend(a[1..], b, h);
    } else {
      assert a + b == b;
    }
  }

  /** The hourly bucketing of `loadFocusData` over one list of sessions:
      a 24-slot buffer, each session's visits added to the slot of their
      hour. */
  method FocusMinutes(sessions: seq<FocusSession>) returns (slots: seq<int>)
    ensures |slots| == Slots
    ensures forall h :: 0 <= h < Slots ==> slots[h] == Total(sessions, h)
  {
    var focusMinutes := new int[Slots](_ => 0);
    var i := 0;
    while i < |sessions|
      invariant 0 <= i <= |sessions|
      invariant forall h :: 0 <= h < Slots ==> focusMinutes[h] + Total(sessions[i..], h) == Total(sessions, h)
    {
      var startTime := sessions[i].startTime;
      var endTime := sessions[i].endTime;
      assert sessions[i..][1..] == sessions[i + 1..];
      var currentHour := startTime;
      while currentHour < endTime
        invariant forall h :: 0 <= h < Slots ==>
          focusMinutes[h] + SlotFrom(startTime, endTime, currentHour, endTime - 1, h) + Total(sessions[i + 1..], h)
          == Total(sessions, h)
        decreases endTime - currentHour
      {
        var hourIndex := CivilTime.HourOf(currentHour);
        var minutesInThisHour := VisitMinutes(currentHour, startTime, endTime);
        focusMinutes[hourIndex] := focusMinutes[hourIndex] + minutesInThisHour;
        currentHour := currentHour + Hour;
      }
      i := i + 1;
    }
    slots := focusMinutes[..];
  }

  /** The part of slots `0..n-1` that visits from `cur` contribute. */
  function SlotsSum(start: int, end: int, cur: int, last: int, n: nat): int {
    if n == 0 then 0 else SlotsSum(start, end, cur, last, n - 1) + SlotFrom(start, end, cur, last, n - 1)
  }

  function Indicator(k: int, amount: int, n: nat): int {
    if 0 <= k < n then amount else 0
  }

  lemma {:induction false} SlotsSumStep(start: int, end: int, cur: int, last: int, n: nat)
    requires cur <= last
    ensures SlotsSum(start, end, cur, last, n)
         == Indicator(CivilTime.HourOf(cur), VisitMinutes(cur, start, end), n) + SlotsSum(start, end, cur + Hour, last, n)
  {
    if n > 0 {
      SlotsSumStep(start, end, cur, last, n - 1);
    }
  }

  /** The 24 slots together hold every visit's minutes: summing a session's
      slots gives its total. */
  lemma {:induction false} SlotsSumToTotal(start: int, end: int, cur: int, last: int)
    ensures SlotsSum(start, end, cur, last, Slots) == VisitTotal(start, end, cur, last)
    decreases last - cur
  {
    if cur > last {
      ZeroSlots(start, end, cur, last, Slots);
    } else {
      SlotsSumStep(start, end, cur, last, Slots);
      SlotsSumToTotal(start, end, cur + Hour, last);
    }
  }

  lemma {:induction false} ZeroSlots(start: int, end: int, cur: int, last: int, n: nat)
    requires cur > last
    ensures SlotsSum(start, end, cur, last, n) == 0
  {
    if n > 0 {
      ZeroSlots(start, end, cur, last, n - 1);
    }
  }

  // ---- Sessions within one day ----

  /** The fields of `day` at `hour:position` (position = seconds into the
      hour). */
  lemma Fields(day: int, hour: int, position: int)
    requires 0 <= hour < 24 && 0 <= position < Hour
    ensures CivilTime.DayOf(day * 86400 + hour * Hour + position) == day
    ensures CivilTime.HourOf(day * 86400 + hour * Hour + position) == hour
    ensures CivilTime.MinuteOf(day * 86400 + hour * Hour + position) == position / 60
  {
    CivilTime.SplitDay(day, hour * Hour + position);
    assert (hour * Hour + position) / Hour == hour;
    assert (hour * Hour + position) % Hour == position;
  }

  /** Each visit of a session that ends no earlier than it starts, within
      one day, adds between 0 and 60 minutes. */
  lemma VisitMinutesBounds(cur: int, start: int, end: int)
    requires start <= end && CivilTime.DayOf(start) == CivilTime.DayOf(end)
    ensures 0 <= VisitMinutes(cur, start, end) <= 60
  {
    var hs, ps := Decompose(start);
    var he, pe := Decompose(end);
  }

  /** The minutes of a visit at `hc:pc` to the session from `hs:ps` to
      `he:pe` of the same day. */
  lemma MinutesAt(day: int, hs: int, ps: int, he: int, pe: int, hc: int, pc: int)
    requires 0 <= hs < 24 && 0 <= he < 24 && 0 <= hc < 24
    requires 0 <= ps < Hour && 0 <= pe < Hour && 0 <= pc < Hour
    ensures VisitMinutes(day * 86400 + hc * Hour + pc, day * 86400 + hs * Hour + ps, day * 86400 + he * Hour + pe)
         == if hc == hs && hc == he then pe / 60 - ps / 60
            else if hc == hs then 60 - ps / 60
            else if hc == he then pe / 60
            else 60
  {
    Fields(day, hs, ps);
    Fields(day, he, pe);
    Fields(day, hc, pc);
  }

  /** As written, the visits after the first one (at hour `hc`, same
      position in the hour as the start) add 60 for every hour before the
      end's; the end's hour is visited, for its `end.minute`, only when the
      end's position in the hour is later than the start's. */
  lemma {:induction false} AsWrittenTail(day: int, hs: int, ps: int, he: int, pe: int, hc: int)
    requires 0 <= hs < hc <= he < 24 && 0 <= ps < Hour && 0 <= pe < Hour
    ensures VisitTotal(day * 86400 + hs * Hour + ps, day * 86400 + he * Hour + pe,
                       day * 86400 + hc * Hour + ps, day * 86400 + he * Hour + pe - 1)
         == 60 * (he - hc) + (if pe > ps then pe / 60 else 0)
    decreases he - hc
  {
    var cur := day * 86400 + hc * Hour + ps;
    MinutesAt(day, hs, ps, he, pe, hc, ps);
    if hc < he {
      assert cur + Hour == day * 86400 + (hc + 1) * Hour + ps;
      AsWrittenTail(day, hs, ps, he, pe, hc + 1);
    }
  }

  /** The time of day of `x` in whole minutes. */
  function MinuteOfDay(x: int): int {
    CivilTime.HourOf(x) * 60 + CivilTime.MinuteOf(x)
  }

  /** `x` as its day, hour and seconds into the hour. */
  lemma Decompose(x: int) returns (hour: int, position: int)
    ensures 0 <= hour < 24 && 0 <= position < Hour
    ensures x == CivilTime.DayOf(x) * 86400 + hour * Hour + position
    ensures CivilTime.HourOf(x) == hour && CivilTime.MinuteOf(x) == position / 60 && x % Hour == position
  {
    var sod := x % 86400;
    hour, position := sod / Hour, sod % Hour;
    assert sod == hour * Hour + position;
    CivilTime.SplitDay(CivilTime.DayOf(x), sod);
    Fields(CivilTime.DayOf(x), hour, position);
  }

  lemma AsWrittenFromFields(day: int, hs: int, ps: int, he: int, pe: int, s: int, e: int)
    requires 0 <= hs <= he < 24 && 0 <= ps < Hour && 0 <= pe < Hour
    requires s == day * 86400 + hs * Hour + ps && e == day * 86400 + he * Hour + pe && s < e
    ensures VisitTotal(s, e, s, e - 1) == 60 * (he - hs) + (if pe > ps then pe / 60 else 0) - ps / 60
  {
    MinutesAt(day, hs, ps, he, pe, hs, ps);
    if hs < he {
      assert s + Hour == day * 86400 + (hs + 1) * Hour + ps;
      AsWrittenTail(day, hs, ps, he, pe, hs + 1);
    }
  }

  /** The total the code gives a session `[start, end)` within one day:
      the minutes between them when the end's position in its hour is
      later than the start's; otherwise the end hour's `end.minute`
      minutes are lost. */
  lemma AsWrittenSessionTotal(start: int, end: int)
    requires start < end && CivilTime.DayOf(start) == CivilTime.DayOf(end)
    ensures VisitTotal(start, end, start, end - 1)
         == MinuteOfDay(end) - MinuteOfDay(start) - (if end % Hour > start % Hour then 0 else CivilTime.MinuteOf(end))
  {
    var hs, ps := Decompose(start);
    var he, pe := Decompose(end);
    AsWrittenFromFields(CivilTime.DayOf(start), hs, ps, he, pe, start, end);
  }

  /** The input that shows it: a session from 10:30 to 11:15 on
      1970-01-01 is counted as 30 minutes, not 45. */
  lemma AsWrittenDropsLastPartialHour()
    ensures VisitTotal(37800, 40500, 37800, 40499) == 30
    ensures IntendedTotal(37800, 40500) == 45
  {
    AsWrittenSessionTotal(37800, 40500);
    IntendedSessionTotalExact(37800, 40500);
  }

  /** The evidently intended bucketing visits every clock hour from the
      start's to the end's: the first visit is the start of the start's
      hour and the loop runs while not after the end. */
  function IntendedTotal(start: int, end: int): int {
    VisitTotal(start, end, start - start % Hour, end)
  }

  lemma {:induction false} IntendedTail(day: int, hs: int, ps: int, he: int, pe: int, hc: int)
    requires 0 <= hs < hc <= he < 24 && 0 <= ps < Hour && 0 <= pe < Hour
    ensures VisitTotal(day * 86400 + hs * Hour + ps, day * 86400 + he * Hour + pe,
                       day * 86400 + hc * Hour, day * 86400 + he * Hour + pe)
         == 60 * (he - hc) + pe / 60
    decreases he - hc
  {
    var cur := day * 86400 + hc * Hour;
    MinutesAt(day, hs, ps, he, pe, hc, 0);
    assert cur == day * 86400 + hc * Hour + 0;
    if hc < he {
      assert cur + Hour == day * 86400 + (hc + 1) * Hour;
      IntendedTail(day, hs, ps, he, pe, hc + 1);
    }
  }

  lemma IntendedFromFields(day: int, hs: int, ps: int, he: int, pe: int, s: int, e: int)
    requires 0 <= hs <= he < 24 && 0 <= ps < Hour && 0 <= pe < Hour
    requires s == day * 86400 + hs * Hour + ps && e == day * 86400 + he * Hour + pe && s <= e
    requires s % Hour == ps
    ensures IntendedTotal(s, e) == 60 * (he - hs) + pe / 60 - ps / 60
  {
    var first := day * 86400 + hs * Hour;
    assert s - s % Hour == first + 0;
    MinutesAt(day, hs, ps, he, pe, hs, 0);
    assert IntendedTotal(s, e) == VisitMinutes(first, s, e) + VisitTotal(s, e, first + Hour, e);
    if hs < he {
      assert first + Hour == day * 86400 + (hs + 1) * Hour;
      IntendedTail(day, hs, ps, he, pe, hs + 1);
    } else {
      assert first + Hour > e;
    }
  }

  /** With the intended loop every session within one day that ends no
      earlier than it starts totals exactly its minutes of the day. */
  lemma IntendedSessionTotalExact(start: int, end: int)
    requires start <= end && CivilTime.DayOf(start) == CivilTime.DayOf(end)
    ensures IntendedTotal(start, end) == MinuteOfDay(end) - MinuteOfDay(start)
  {
    var hs, ps := Decompose(start);
    var he, pe := Decompose(end);
    IntendedFromFields(CivilTime.DayOf(start), hs, ps, he, pe, start, end);
  }

  // ---- The weekly series ----

  /** The completed count recorded for that user and day, or 0. */
  function CompletedOn(records: seq<TodoStore.TodoRecord>, userId: int, date: int): (n: int)
    ensures (forall r :: r in records ==> !(r.userId == userId && r.date == date)) ==> n == 0
    ensures (exists r :: r in records && r.userId == userId && r.date == date) ==>
      exists r :: r in records && r.userId == userId && r.date == date && n == r.completedCount
  {
    match TodoStore.TodayRecord(records, userId, date)
    case Some(r) => r.completedCount
    case None => 0
  }

  /** `getWeeklyCompletedTasks`: the seven days ending today, oldest
      first. */
  method WeeklyCompletedTasks(records: seq<TodoStore.TodoRecord>, userId: int, today: int) returns (completedTasks: seq<int>)
    ensures |completedTasks| == 7
    ensures forall i :: 0 <= i < 7 ==> completedTasks[i] == CompletedOn(records, userId, today - 6 + i)
    ensures completedTasks[6] == CompletedOn(records, userId, today)
  {
    var startOfWeek := today - 6;
    completedTasks := [];
    for day := 0 to 7
      invariant |completedTasks| == day
      invariant forall i :: 0 <= i < day ==> completedTasks[i] == CompletedOn(records, userId, startOfWeek + i)
    {
      var date := startOfWeek + day;
      var record := TodoStore.TodayRecord(records, userId, date);
      completedTasks := completedTasks + [if record.Some? then record.value.completedCount else 0];
    }
  }

  class ProfileViewModel {
    var user: Option<LocalUsers.User>
    var focusData: seq<int>
    var weeklyCompletedTasks: seq<int>

    constructor ()
      ensures user == None && focusData == seq(Slots, _ => 0) && weeklyCompletedTasks == seq(7, _ => 0)
    {
      user := None;
      focusData := seq(Slots, _ => 0);
      weeklyCompletedTasks := seq(7, _ => 0);
    }

    /** `loadFocusData`: today's sessions of the user, those starting at or
        after midnight and ending before the next midnight, bucketed by
        hour; no sessions give 24 zeros. */
    method LoadFocusData(dao: FocusSessionDao, userId: int, today: int)
      modifies this
      ensures |focusData| == Slots
      ensures forall h :: 0 <= h < Slots ==>
        focusData[h] == Total(dao.GetFocusSessionsByUserIdAndTimeRange(userId, today * 86400, (today + 1) * 86400), h)
      ensures user == old(user) && weeklyCompletedTasks == old(weeklyCompletedTasks)
    {
      var sessions := dao.GetFocusSessionsByUserIdAndTimeRange(userId, today * 86400, (today + 1) * 86400);
      if sessions == [] {
        focusData := seq(Slots, _ => 0);
        return;
      }
      focusData := FocusMinutes(sessions);
    }

    /** `getWeeklyCompletedTasks`. */
    method GetWeeklyCompletedTasks(dao: TodoStore.TodoDao, userId: int, today: int)
      modifies this
      ensures |weeklyCompletedTasks| == 7
      ensures forall i :: 0 <= i < 7 ==> weeklyCompletedTasks[i] == CompletedOn(dao.records, userId, today - 6 + i)
      ensures user == old(user) && focusData == old(focusData)
    {
      weeklyCompletedTasks := WeeklyCompletedTasks(dao.records, userId, today);
    }

    /** Each emission of the user flow: the user is stored and both
        statistics are reloaded. */
    method OnUser(u: Option<LocalUsers.User>, sessions: FocusSessionDao, todos: TodoStore.TodoDao, userId: int, today: int)
      modifies this
      ensures user == u && |focusData| == Slots && |weeklyCompletedTasks| == 7
      ensures forall h :: 0 <= h < Slots ==>
        focusData[h] == Total(sessions.GetFocusSessionsByUserIdAndTimeRange(userId, today * 86400, (today + 1) * 86400), h)
      ensures forall i :: 0 <= i < 7 ==> weeklyCompletedTasks[i] == CompletedOn(todos.records, userId, today - 6 + i)
    {
      user := u;
      LoadFocusData(sessions, userId, today);
      GetWeeklyCompletedTasks(todos, userId, today);
    }
  }
}
