/** The new-task dialog (`NewTodoDialog`): empty fields, the due date
    starting at "now", the platform date and time pickers, and three
    priority buttons. "Now" is a parameter. */
module NewTodo {
  import opened Wrappers
  import opened TodoCards
  import EditTodo
  import CivilTime

  /** The priority the dialog starts with, as the code writes it: the
      label "中", not the code "MEDIUM". */
  const InitialPriority := "中"

  /** The date picker callback: `LocalDate.of(year, month + 1, day)` from
      the picker's zero-based month, which throws on a date that does not
      exist. */
  function PickedDate(year: int, month0: int, day: int): (r: Result<CivilTime.LocalDate>)
    ensures r.Ok? <==> CivilTime.Date(year, month0 + 1, day).Valid()
    ensures r.Ok? ==> r.value.year == year && r.value.month == month0 + 1 && r.value.day == day
  {
    var d := CivilTime.Date(year, month0 + 1, day);
    if d.Valid() then Ok(d) else Err("Invalid date")
  }

  /** The picker's initial selection: year, `monthValue - 1`, day of month. */
  function PickerArgs(s: CivilTime.Timestamp): (int, int, int) {
    var d := CivilTime.DateOf(s);
    (d.year, d.month - 1, d.day)
  }

  /** Confirming the date picker on its initial selection picks the due
      date's own day, and leaves the due date as it was. */
  lemma PickerRoundTrip(s: CivilTime.Timestamp)
    ensures PickedDate(PickerArgs(s).0, PickerArgs(s).1, PickerArgs(s).2) == Ok(CivilTime.DateOf(s))
    ensures CivilTime.AtDate(s, CivilTime.EpochDay(CivilTime.DateOf(s))) == s
  {
    CivilTime.EpochDayOfDateOfEpochDay(CivilTime.DayOf(s));
    CivilTime.AtOwnDate(s);
  }

  /** A representable date at any time of day is a representable
      timestamp. */
  lemma AtDateInRange(s: int, d: CivilTime.LocalDate)
    ensures CivilTime.MinEpochSecond <= CivilTime.AtDate(s, CivilTime.EpochDay(d)) <= CivilTime.MaxEpochSecond
  {
    CivilTime.EpochDayInRange(d);
  }

  /** Whether a button shows as selected, as the code tests it: the stored
      priority equals the button's label. */
  predicate ButtonSelected(priority: string, button: string) {
    priority == button
  }

  /** The code a button stores: the same map as the edit dialog's selector. */
  function ButtonCode(button: string): (code: string)
    requires button in EditTodo.Options
    ensures IsPriorityCode(code) && PriorityLabel(code) == button
  {
    EditTodo.Clicked(button, None).value
  }

  /** As written, a click stores a code that no button's label equals, so
      after any click no button shows as selected. */
  lemma ClickClearsHighlight(button: string, other: string)
    requires button in EditTodo.Options && other in EditTodo.Options
    ensures !ButtonSelected(ButtonCode(button), other)
  {
  }

  /** As written, confirming without a click stores the label "中": the
      card's badge for it is empty and the edit dialog selects no option. */
  lemma DefaultPriorityHasNoBadge(option: string)
    ensures !IsPriorityCode(InitialPriority)
    ensures PriorityLabel(InitialPriority) == ""
    ensures !EditTodo.Selected(Some(InitialPriority), option)
  {
  }

  /** The evidently intended default: the code for "中". */
  const IntendedInitialPriority := Medium

  /** The evidently intended highlight: by code, as the edit dialog does. */
  predicate IntendedSelected(priority: string, button: string) {
    EditTodo.Selected(Some(priority), button)
  }

  /** With the intended default and highlight, "中" shows as selected at
      first and renders as the "中" badge, and after a click exactly the
      clicked button shows as selected. */
  lemma IntendedHighlightFollowsClicks(button: string, other: string)
    requires button in EditTodo.Options
    ensures PriorityLabel(IntendedInitialPriority) == "中"
    ensures IntendedSelected(IntendedInitialPriority, other) <==> other == "中"
    ensures IntendedSelected(ButtonCode(button), other) <==> other == button
  {
    EditTodo.ClickSelectsExactly(button, None, other);
  }

  class NewTodoDialog {
    var title: string
    var description: string
    var tag: string
    var dueDate: CivilTime.Timestamp
    var priority: string

    constructor (now: CivilTime.Timestamp)
      ensures title == "" && description == "" && tag == ""
      ensures dueDate == now && priority == InitialPriority
    {
      title := "";
      description := "";
      tag := "";
      dueDate := now;
      priority := InitialPriority;
    }

    predicate Highlighted(button: string)
      reads this
    {
      ButtonSelected(priority, button)
    }

    /** The date picker's callback: the picked day at the old time of day. */
    method DateSet(year: int, month0: int, day: int)
      requires PickedDate(year, month0, day).Ok?
      modifies this
      ensures dueDate == CivilTime.AtDate(old(dueDate), CivilTime.EpochDay(PickedDate(year, month0, day).value))
      ensures CivilTime.DateOf(dueDate) == PickedDate(year, month0, day).value
      ensures CivilTime.HourOf(dueDate) == CivilTime.HourOf(old(dueDate))
      ensures CivilTime.MinuteOf(dueDate) == CivilTime.MinuteOf(old(dueDate))
      ensures title == old(title) && description == old(description) && tag == old(tag) && priority == old(priority)
    {
      var d := PickedDate(year, month0, day).value;
      AtDateInRange(dueDate, d);
      dueDate := CivilTime.AtDate(dueDate, CivilTime.EpochDay(d));
      CivilTime.DateOfEpochDayOfDate(d);
    }

    /** The time picker's callback: the same day at the picked hour and
        minute, second 0. */
    method TimeSet(hour: int, minute: int)
      requires 0 <= hour < 24 && 0 <= minute < 60
      modifies this
      ensures dueDate == CivilTime.AtTime(old(dueDate), hour, minute)
      ensures CivilTime.DayOf(dueDate) == CivilTime.DayOf(old(dueDate))
      ensures CivilTime.HourOf(dueDate) == hour && CivilTime.MinuteOf(dueDate) == minute && dueDate % 60 == 0
      ensures title == old(title) && description == old(description) && tag == old(tag) && priority == old(priority)
    {
      var r := CivilTime.AtTime(dueDate, hour, minute);
      CivilTime.AtOwnDate(dueDate);
      dueDate := r;
    }

    /** A priority button's `onClick`. */
    method ClickPriority(button: string)
      requires button in EditTodo.Options
      modifies this
      ensures priority == ButtonCode(button)
      ensures forall o :: o in EditTodo.Options ==> !Highlighted(o)
      ensures title == old(title) && description == old(description) && tag == old(tag) && dueDate == old(dueDate)
    {
      priority := ButtonCode(button);
      forall o | o in EditTodo.Options
        ensures !Highlighted(o)
      {
        ClickClearsHighlight(button, o);
      }
    }

    /** The confirm button: the values as stored, the priority passed
        through unchanged. */
    method Confirm() returns (c: EditTodo.Confirmation)
      ensures c.title == title && c.description == Some(description) && c.tag == tag
      ensures c.dueDate == dueDate && c.priority == priority
    {
      c := EditTodo.Confirmation(title, Some(description), tag, dueDate, priority);
    }
  }
}
