/** The edit dialog (`EditTodoDialog`): fields seeded from the todo, a
    three-way priority selector that shows labels and stores codes, and date
    and time pickers that rebuild the due date. The day picked in the date
    picker is a parameter (its time-zone conversion is not modelled). */
module EditTodo {
  import opened Wrappers
  import opened TodoStore
  import opened TodoCards
  import CivilTime

  /** The selector's options, in screen order. */
  const Options := ["低", "中", "高"]

  /** Whether an option shows as selected: the option is the label of the
      stored code; a null or unknown priority selects nothing. */
  function Selected(priority: Option<string>, option: string): (on: bool)
    ensures on <==> priority.Some? && IsPriorityCode(priority.value) && PriorityLabel(priority.value) == option
  {
    match priority
    case Some(p) =>
      if p == Low then option == "低"
      else if p == Medium then option == "中"
      else if p == High then option == "高"
      else false
    case None => false
  }

  /** The priority after clicking an option: the option's code; anything
      that is not an option leaves it as it was. */
  function Clicked(option: string, priority: Option<string>): (r: Option<string>)
    ensures option in Options ==> r.Some? && IsPriorityCode(r.value) && PriorityLabel(r.value) == option
    ensures option !in Options ==> r == priority
  {
    if option == "低" then Some(Low)
    else if option == "中" then Some(Medium)
    else if option == "高" then Some(High)
    else priority
  }

  /** After a click exactly the clicked option is selected. */
  lemma ClickSelectsExactly(option: string, priority: Option<string>, other: string)
    requires option in Options
    ensures Selected(Clicked(option, priority), other) <==> other == option
  {
  }

  /** The selector's option-to-code map inverts the badge's code-to-label
      map on the three codes. */
  lemma ClickInvertsLabel(code: string, priority: Option<string>)
    requires IsPriorityCode(code)
    ensures PriorityLabel(code) in Options
    ensures Clicked(PriorityLabel(code), priority) == Some(code)
  {
  }

  /** The priority handed to `onConfirm`: the stored one, `"MEDIUM"` when
      it is null. */
  function ConfirmedPriority(priority: Option<string>): (p: string)
    ensures priority.Some? ==> p == priority.value
    ensures priority.None? ==> p == Medium && PriorityLabel(p) == "中"
  {
    if priority.Some? then priority.value else Medium
  }

  /** What the confirm button hands to the card. */
  datatype Confirmation = Confirmation(title: string, description: Option<string>, tag: string, dueDate: int, priority: string)

  class EditTodoDialog {
    var title: string
    var description: Option<string>
    var tag: string
    var dueDate: int
    var priority: Option<string>
    var isDatePickerDialogVisible: bool
    var isTimePickerDialogVisible: bool
    /** Set once `onDismiss` has been called. */
    var dismissed: bool

    /** The dialog opens on the todo's own values with no picker shown. */
    constructor (todo: Todo)
      ensures title == todo.title && description == todo.description && tag == todo.tag
      ensures dueDate == todo.dueDate && priority == todo.priority
      ensures !isDatePickerDialogVisible && !isTimePickerDialogVisible && !dismissed
    {
      title := todo.title;
      description := todo.description;
      tag := todo.tag;
      dueDate := todo.dueDate;
      priority := todo.priority;
      isDatePickerDialogVisible := false;
      isTimePickerDialogVisible := false;
      dismissed := false;
    }

    /** A segmented button's `onClick`. */
    method ClickOption(option: string)
      modifies this
      ensures priority == Clicked(option, old(priority))
      ensures option in Options ==> forall o :: Selected(priority, o) <==> o == option
      ensures title == old(title) && description == old(description) && tag == old(tag) && dueDate == old(dueDate)
      ensures isDatePickerDialogVisible == old(isDatePickerDialogVisible)
      ensures isTimePickerDialogVisible == old(isTimePickerDialogVisible) && dismissed == old(dismissed)
    {
      priority := Clicked(option, priority);
    }

    /** The "choose date" button. */
    method OpenDatePicker()
      modifies this
      ensures isDatePickerDialogVisible
      ensures title == old(title) && description == old(description) && tag == old(tag)
      ensures dueDate == old(dueDate) && priority == old(priority)
      ensures isTimePickerDialogVisible == old(isTimePickerDialogVisible) && dismissed == old(dismissed)
    {
      isDatePickerDialogVisible := true;
    }

    /** The date picker's confirm: the picked day at the old time of day,
        then the time picker opens. */
    method ConfirmDate(selectedDay: int)
      requires isDatePickerDialogVisible
      modifies this
      ensures dueDate == CivilTime.AtDate(old(dueDate), selectedDay)
      ensures CivilTime.DayOf(dueDate) == selectedDay
      ensures CivilTime.HourOf(dueDate) == CivilTime.HourOf(old(dueDate))
      ensures CivilTime.MinuteOf(dueDate) == CivilTime.MinuteOf(old(dueDate))
      ensures !isDatePickerDialogVisible && isTimePickerDialogVisible
      ensures title == old(title) && description == old(description) && tag == old(tag)
      ensures priority == old(priority) && dismissed == old(dismissed)
    {
      dueDate := CivilTime.AtDate(dueDate, selectedDay);
      isDatePickerDialogVisible := false;
      isTimePickerDialogVisible := true;
    }

    /** The date picker's cancel button calls the dialog's `onDismiss`;
        tapping outside only hides the picker. */
    method CancelDate()
      requires isDatePickerDialogVisible
      modifies this
      ensures dismissed
      ensures title == old(title) && description == old(description) && tag == old(tag)
      ensures dueDate == old(dueDate) && priority == old(priority)
      ensures isDatePickerDialogVisible == old(isDatePickerDialogVisible)
      ensures isTimePickerDialogVisible == old(isTimePickerDialogVisible)
    {
      dismissed := true;
    }

    method DismissDatePicker()
      requires isDatePickerDialogVisible
      modifies this
      ensures !isDatePickerDialogVisible
      ensures title == old(title) && description == old(description) && tag == old(tag)
      ensures dueDate == old(dueDate) && priority == old(priority)
      ensures isTimePickerDialogVisible == old(isTimePickerDialogVisible) && dismissed == old(dismissed)
    {
      isDatePickerDialogVisible := false;
    }

    /** The time picker's confirm: the same day at the picked hour and
        minute, second 0. */
    method ConfirmTime(hour: int, minute: int)
      requires 0 <= hour < 24 && 0 <= minute < 60
      requires isTimePickerDialogVisible
      modifies this
      ensures dueDate == CivilTime.AtTime(old(dueDate), hour, minute)
      ensures CivilTime.DayOf(dueDate) == CivilTime.DayOf(old(dueDate))
      ensures CivilTime.HourOf(dueDate) == hour && CivilTime.MinuteOf(dueDate) == minute && dueDate % 60 == 0
      ensures !isTimePickerDialogVisible
      ensures title == old(title) && description == old(description) && tag == old(tag)
      ensures priority == old(priority) && dismissed == old(dismissed)
      ensures isDatePickerDialogVisible == old(isDatePickerDialogVisible)
    {
      dueDate := CivilTime.AtTime(dueDate, hour, minute);
      isTimePickerDialogVisible := false;
    }

    /** The confirm button: the edited values, with a null priority sent as
        `"MEDIUM"`. */
    method Confirm() returns (c: Confirmation)
      ensures c.title == title && c.description == description && c.tag == tag && c.dueDate == dueDate
      ensures c.priority == ConfirmedPriority(priority)
    {
      c := Confirmation(title, description, tag, dueDate, ConfirmedPriority(priority));
    }
  }

  /** Confirming a dialog opened on a task with a code, unedited, gives the
      card back the todo unchanged. */
  lemma UneditedConfirmKeepsTask(t: Todo, c: Confirmation)
    requires t.priority.Some?
    requires c == Confirmation(t.title, t.description, t.tag, t.dueDate, ConfirmedPriority(t.priority))
    ensures Edited(t, c.title, c.description, c.tag, c.dueDate, c.priority) == t
  {
  }
}
