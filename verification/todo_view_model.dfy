/** The todo list screen's state (`TodoViewModel`): the user's live tasks as
    loaded from the table, the today-only and search filters over them,
    completion with its credit award, and the one-hour-before reminders kept
    as unique work items. "Now" and "today" are parameters. */
module TodoList {
  import opened Wrappers
  import opened Text
  import opened Rows
  import opened TodoStore
  import LocalUsers
  import CivilTime

  const CompletionCredits := 10
  /** Reminders fire one hour before the due time. */
  const ReminderLead := 3600
  const DefaultReminderContent := "您有一个待办事项即将到期。"
  const WorkNamePrefix := "todo_notification_"

  /** `todo.dueDate.toLocalDate() == today` */
  function DueOn(today: int): Todo -> bool {
    (t: Todo) => CivilTime.DayOf(t.dueDate) == today
  }

  /** `filterTodos`: with today-only on, the loaded tasks due today; else all
      loaded tasks. */
  function Filtered(original: seq<Todo>, showTodayOnly: bool, today: int): (shown: seq<Todo>)
    ensures Subsequence(shown, original)
    ensures multiset(shown) <= multiset(original)
  {
    if showTodayOnly then
      FilterIsSubsequence(original, DueOn(today));
      FilterMembers(original, DueOn(today));
      Filter(original, DueOn(today))
    else
      SubsequenceReflexive(original);
      original
  }

  /** The search test: title, description (a null one never matches) or tag
      contains the query, ignoring case. */
  predicate MatchesQuery(t: Todo, query: string, cm: CaseMapping) {
    ContainsIgnoreCase(t.title, query, cm)
    || (t.description.Some? && ContainsIgnoreCase(t.description.value, query, cm))
    || ContainsIgnoreCase(t.tag, query, cm)
  }

  function Matching(query: string, cm: CaseMapping): Todo -> bool {
    (t: Todo) => MatchesQuery(t, query, cm)
  }

  /** `searchTodos`: a blank query is `filterTodos`; otherwise the matching
      tasks, then the today-only filter when it is on. */
  function Searched(original: seq<Todo>, query: string, showTodayOnly: bool, today: int, cm: CaseMapping): (shown: seq<Todo>)
    ensures multiset(shown) <= multiset(original)
  {
    if IsBlank(query) then Filtered(original, showTodayOnly, today)
    else
      var found := Filter(original, Matching(query, cm));
      FilterMembers(original, Matching(query, cm));
      if showTodayOnly then FilterMembers(found, DueOn(today)); Filter(found, DueOn(today)) else found
  }

  /** The today-only filter keeps exactly the loaded tasks due today, in
      their loaded order; with it off the list is shown as loaded. */
  lemma FilteredExact(original: seq<Todo>, showTodayOnly: bool, today: int)
    ensures !showTodayOnly ==> Filtered(original, showTodayOnly, today) == original
    ensures Subsequence(Filtered(original, showTodayOnly, today), original)
    ensures showTodayOnly ==> forall i :: 0 <= i < |Filtered(original, showTodayOnly, today)| ==>
      CivilTime.DayOf(Filtered(original, showTodayOnly, today)[i].dueDate) == today
    ensures showTodayOnly ==> forall i :: 0 <= i < |original| && CivilTime.DayOf(original[i].dueDate) == today ==>
      original[i] in Filtered(original, showTodayOnly, today)
  {
    FilterIsSubsequence(original, DueOn(today));
    FilterMembers(original, DueOn(today));
    if !showTodayOnly {
      SubsequenceReflexive(original);
    }
  }

  lemma {:induction false} SubsequenceReflexive<T>(s: seq<T>)
    ensures Subsequence(s, s)
    decreases |s|
  {
    if s != [] {
      SubsequenceReflexive(s[1..]);
    }
  }

  /** A non-blank search keeps exactly the matching tasks that the current
      filter shows, in order; so its result is a sub-sequence of what
      `filterTodos` would show. */
  lemma SearchedWithinFiltered(original: seq<Todo>, query: string, showTodayOnly: bool, today: int, cm: CaseMapping)
    requires !IsBlank(query)
    ensures Searched(original, query, showTodayOnly, today, cm)
         == Filter(Filtered(original, showTodayOnly, today), Matching(query, cm))
    ensures Subsequence(Searched(original, query, showTodayOnly, today, cm), Filtered(original, showTodayOnly, today))
    ensures forall i :: 0 <= i < |Searched(original, query, showTodayOnly, today, cm)| ==>
      MatchesQuery(Searched(original, query, showTodayOnly, today, cm)[i], query, cm)
  {
    var shown := Filtered(original, showTodayOnly, today);
    if showTodayOnly {
      var both := (t: Todo) => MatchesQuery(t, query, cm) && CivilTime.DayOf(t.dueDate) == today;
      FilterFilter(original, Matching(query, cm), DueOn(today), both);
      FilterFilter(original, DueOn(today), Matching(query, cm), both);
    }
    FilterIsSubsequence(shown, Matching(query, cm));
    FilterMembers(shown, Matching(query, cm));
  }

  // ---- Reminders ----

  /** The input data of a reminder work request. */
  datatype Reminder = Reminder(delayMillis: int, todoId: string, title: string, content: string)

  /** The unique work name of a task's reminder. */
  function WorkName(id: int): string {
    WorkNamePrefix + ShowInt(id)
  }

  /** Different tasks have different work names, so REPLACE keeps at most one
      pending reminder per task. */
  lemma WorkNameInjective(a: int, b: int)
    requires WorkName(a) == WorkName(b)
    ensures a == b
  {
    assert WorkName(a)[|WorkNamePrefix|..] == ShowInt(a);
    assert WorkName(b)[|WorkNamePrefix|..] == ShowInt(b);
    ShowIntInjective(a, b);
  }

  /** `Duration.between(now, dueDate.minusHours(1)).toMillis()` on whole
      seconds. */
  function DelayMillis(dueDate: int, now: int): int {
    (dueDate - ReminderLead - now) * 1000
  }

  /** `scheduleNotification`: a reminder is enqueued (REPLACE) under the
      task's work name exactly when due time minus one hour is strictly
      after now, with that gap as its delay; no other task's entry changes. */
  function Scheduled(pending: map<string, Reminder>, t: Todo, now: int): (r: map<string, Reminder>)
    ensures t.dueDate - ReminderLead > now ==>
      WorkName(t.id) in r && r[WorkName(t.id)].delayMillis == (t.dueDate - ReminderLead - now) * 1000
      && r[WorkName(t.id)].title == t.title
    ensures t.dueDate - ReminderLead <= now ==> r == pending
    ensures forall name :: name != WorkName(t.id) ==>
      (name in r <==> name in pending) && (name in pending ==> r[name] == pending[name])
  {
    var delay := DelayMillis(t.dueDate, now);
    if delay > 0 then
      pending[WorkName(t.id) := Reminder(delay, ShowInt(t.id), t.title,
        if t.description.Some? then t.description.value else DefaultReminderContent)]
    else pending
  }

  /** `cancelNotification`. */
  function Cancelled(pending: map<string, Reminder>, t: Todo): map<string, Reminder> {
    pending - {WorkName(t.id)}
  }

  /** Rescheduling a task with a future reminder replaces its earlier one;
      cancelling after scheduling leaves no reminder for it. */
  lemma ScheduleReplacesAndCancelClears(pending: map<string, Reminder>, t: Todo, u: Todo, now: int, later: int)
    requires u.id == t.id && u.dueDate - ReminderLead > later
    ensures Scheduled(Scheduled(pending, t, now), u, later) == Scheduled(pending, u, later)
    ensures Cancelled(Scheduled(pending, t, now), t) == Cancelled(pending, t)
    ensures WorkName(t.id) !in Cancelled(pending, t)
  {
  }

  /** A completion toggle: `completed` flipped, every other field, including
      `lastModified`, as it was. */
  function Toggled(t: Todo): (r: Todo)
    ensures r.completed == !t.completed
    ensures r.(completed := t.completed) == t
  {
    t.(completed := !t.completed)
  }

  /** A completion toggle written back never reaches the incremental query
      of a cursor at or after the todo's old stamp. */
  lemma ToggleInvisibleToSync(rows: seq<Todo>, t: Todo, userId: int, lastSyncTime: int)
    requires StrictlySortedBy(rows, IdOf) && t in rows && t.lastModified <= lastSyncTime
    ensures IncrementalData(ReplaceById(rows, Toggled(t)), userId, lastSyncTime) == IncrementalData(rows, userId, lastSyncTime)
  {
    EditKeepingStampInvisible(rows, t, Toggled(t), userId, lastSyncTime);
  }

  class TodoViewModel {
    /** `_todos`: the list on screen. */
    var todos: seq<Todo>
    var userId: int
    var showTodayOnly: bool
    var originalTodos: seq<Todo>
    /** WorkManager's unique work, by name. */
    var pending: map<string, Reminder>
    const dao: TodoDao
    const users: LocalUsers.UserDao

    /** Only the user's live tasks are ever loaded, and the screen shows only
        loaded tasks. */
    predicate Valid()
      reads this, dao, users
    {
      dao.Valid() && users.Valid()
      && (forall i :: 0 <= i < |originalTodos| ==> originalTodos[i].userId == userId && !originalTodos[i].deleted)
      && (forall i :: 0 <= i < |todos| ==> todos[i] in originalTodos)
    }

    /** The initial state, with the user id read from the preferences. */
    constructor (dao: TodoDao, users: LocalUsers.UserDao, userId: int)
      requires dao.Valid() && users.Valid()
      ensures Valid() && this.dao == dao && this.users == users && this.userId == userId
      ensures todos == [] && originalTodos == [] && showTodayOnly && pending == map[]
    {
      this.dao := dao;
      this.users := users;
      this.userId := userId;
      todos := [];
      originalTodos := [];
      showTodayOnly := true;
      pending := map[];
    }

    /** One emission of the `getNotDeletedTodosByUser` flow collected by
        `loadTodos`: the snapshot is stored and re-filtered. */
    method LoadTodos(today: int)
      requires Valid()
      modifies this
      ensures Valid() && unchanged(dao) && unchanged(users)
      ensures originalTodos == NotDeletedTodosByUser(dao.todos, userId)
      ensures todos == Filtered(originalTodos, showTodayOnly, today)
      ensures showTodayOnly == old(showTodayOnly) && userId == old(userId) && pending == old(pending)
    {
      NotDeletedIsLiveSubsequence(dao.todos, userId);
      originalTodos := NotDeletedTodosByUser(dao.todos, userId);
      FilterTodos(today);
    }

    /** `filterTodos`. */
    method FilterTodos(today: int)
      requires (forall i :: 0 <= i < |originalTodos| ==> originalTodos[i].userId == userId && !originalTodos[i].deleted)
      requires dao.Valid() && users.Valid()
      modifies this
      ensures Valid()
      ensures todos == Filtered(originalTodos, showTodayOnly, today)
      ensures originalTodos == old(originalTodos) && showTodayOnly == old(showTodayOnly)
      ensures userId == old(userId) && pending == old(pending)
    {
      if showTodayOnly {
        FilterMembers(originalTodos, DueOn(today));
      }
      todos := Filtered(originalTodos, showTodayOnly, today);
    }

    /** `toggleShowTodayOnly`: flips the flag and re-filters. */
    method ToggleShowTodayOnly(today: int)
      requires Valid()
      modifies this
      ensures Valid()
      ensures showTodayOnly == !old(showTodayOnly)
      ensures todos == Filtered(originalTodos, showTodayOnly, today)
      ensures originalTodos == old(originalTodos) && userId == old(userId) && pending == old(pending)
    {
      showTodayOnly := !showTodayOnly;
      FilterTodos(today);
    }

    /** `searchTodos`. */
    method SearchTodos(query: string, today: int, cm: CaseMapping)
      requires Valid()
      modifies this
      ensures Valid()
      ensures todos == Searched(originalTodos, query, showTodayOnly, today, cm)
      ensures originalTodos == old(originalTodos) && showTodayOnly == old(showTodayOnly)
      ensures userId == old(userId) && pending == old(pending)
    {
      if IsBlank(query) {
        FilterTodos(today);
        return;
      }
      var found := Filter(originalTodos, Matching(query, cm));
      FilterMembers(originalTodos, Matching(query, cm));
      FilterMembers(found, DueOn(today));
      todos := if showTodayOnly then Filter(found, DueOn(today)) else found;
    }

    /** `updateTodoCompletionStatus`: the todo is written back with
        `completed` flipped and its old `lastModified`; completing (not
        un-completing) awards the screen's user 10 credits. */
    method UpdateTodoCompletionStatus(todo: Todo)
      requires Valid()
      modifies dao, users
      ensures Valid()
      ensures dao.todos == ReplaceById(old(dao.todos), Toggled(todo))
      ensures dao.sequence == old(dao.sequence) && dao.records == old(dao.records)
      ensures users.users == if !todo.completed then LocalUsers.Credited(old(users.users), userId, CompletionCredits)
                             else old(users.users)
    {
      var toggled := Toggled(todo);
      dao.Update(toggled);
      if toggled.completed {
        users.AddCredits(userId, CompletionCredits);
      }
    }

    /** `scheduleNotification`. */
    method ScheduleNotification(todo: Todo, now: int)
      requires Valid()
      modifies this
      ensures Valid() && pending == Scheduled(old(pending), todo, now)
      ensures todos == old(todos) && originalTodos == old(originalTodos)
      ensures showTodayOnly == old(showTodayOnly) && userId == old(userId)
    {
      pending := Scheduled(pending, todo, now);
    }

    /** `cancelNotification`. */
    method CancelNotification(todo: Todo)
      requires Valid()
      modifies this
      ensures Valid() && pending == Cancelled(old(pending), todo)
      ensures todos == old(todos) && originalTodos == old(originalTodos)
      ensures showTodayOnly == old(showTodayOnly) && userId == old(userId)
    {
      pending := Cancelled(pending, todo);
    }

    /** `deleteTodo`: the row is removed and the reminder under the same
        work name is cancelled. */
    method DeleteTodo(todo: Todo)
      requires Valid()
      modifies this, dao
      ensures Valid()
      ensures dao.todos == RemoveById(old(dao.todos), todo.id)
      ensures pending == Cancelled(old(pending), todo) && WorkName(todo.id) !in pending
      ensures todos == old(todos) && originalTodos == old(originalTodos)
    {
      dao.Delete(todo);
      CancelNotification(todo);
    }
  }
}
