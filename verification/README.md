# QuickTodo core in Dafny

QuickTodo is an Android to-do app with focus timers, credits and messages.
This project models the logic behind its screens and its local Room tables.
That logic is made of these parts:

- **Task store.** The `todos` and `todo_record` tables with their queries. These include the incremental-sync query `lastModified > :lastSyncTime`, the soft-delete filter and the physical delete.
- **Preferences.** The token, the user id and the sync cursor. The cursor is one global key `lastSyncTime`, shared by every user and removed by `clear()`.
- **Two timestamp serialisers.** Epoch seconds to and from a UTC civil date-time, and `yyyy-MM-dd HH:mm:ss` text to and from a date-time.
- **Task list view model.** The today-only filter, search, the completion toggle with its credits, and reminder scheduling.
- **Task card and the two task dialogs.** Swipe classification, hint texts, priority codes and labels, and date and time composition.
- **Profile statistics.** Hourly focus minutes and the seven-day completed-task series, plus the weekly chart's axis labels.
- **Focus sessions.** The session table, the repository that starts and stops sessions and awards minute credits, and the two timer state machines (`TimerService` and `FocusScreen`).
- **Users, accounts and messages.** The user table with its credits, the username/password table with register and login, the registration form's checks, and the message table with mark-as-read.
- **Small mappings.** The message-time formatter and the bottom-bar route/tab mapping.

**How the model is built**

- **Times and dates.** A time is an integer number of epoch seconds, read as a civil date-time in UTC; this is what the Room converter stores. A date is an epoch-day number. "Now" and "today" are parameters.
- **Calendar.** The proleptic ISO calendar of java.time is modelled in `CivilTime`, with the same representable range. The round trips between dates and day numbers are proved there.
- **State-changing code.** Tables, view models, screens and services that change state are classes, and their methods state the whole new state.
- **Queries and pure mappings.** These are functions, with lemmas for the properties the code promises.
- **Storage.**
  - Tables keyed by an integer rowid are sequences in rowid order.
  - UUID-keyed tables are sequences in insertion order, where REPLACE re-appends the row.
  - The user and account tables are maps.

**Reading date-time text**

- **Impossible dates.** `LocalDateTime.parse` with a pattern formatter uses the SMART resolver, which rejects a day-of-month above 31 but clamps days 29 to 31 to the month's last day. It also reads `24:00:00` as the next midnight. See `LocalDateTimeConverter.ParseClampsDayOfMonth`, `ParseRejectsDay32` and `ParseEndOfDay`.
- **The round trip.** Date-time text round-trips only for years 1 to 9999 and for dates that really exist.

## Model

| member | source | states |
|---|---|---|
| TodoStore.TodoById | app/src/main/java/com/xfei33/quicktodo/data/local/dao/TodoDao.kt:28-29 | the lookup finds a row exactly when some stored row has that id, and then returns a stored row with that id |
| TodoStore.TodoByIdFinds | app/src/main/java/com/xfei33/quicktodo/data/local/dao/TodoDao.kt:28-29 | with the primary key unique, the lookup of a stored row's id returns that very row |
| TodoStore.TodosByUserExact | app/src/main/java/com/xfei33/quicktodo/data/local/dao/TodoDao.kt:19-20 | the user's list holds exactly that user's rows, deleted ones included, each as often as stored, ascending by due date |
| TodoStore.NotDeletedIsLiveSubsequence | app/src/main/java/com/xfei33/quicktodo/data/local/dao/TodoDao.kt:22-23 | the not-deleted list is the full user list with the deleted rows left out, in the same order, so it is a sub-sequence of it |
| TodoStore.IncrementalDataExact | app/src/main/java/com/xfei33/quicktodo/data/local/dao/TodoDao.kt:25-26 | a row is returned exactly when it belongs to the user and was modified strictly after the cursor; the boundary stamp is excluded and deleted rows are kept |
| TodoStore.IncrementalDataAntitone | app/src/main/java/com/xfei33/quicktodo/data/local/dao/TodoDao.kt:25-26 | a later cursor returns exactly the rows of an earlier cursor's result that were modified after the later one, a sub-sequence of it |
| TodoStore.InsertThenGet | app/src/main/java/com/xfei33/quicktodo/data/local/dao/TodoDao.kt:31-32 | after inserting a new id, the ids stay strictly ascending, the lookup of that id finds the new row and every other lookup is as before |
| TodoStore.InsertByBound | app/src/main/java/com/xfei33/quicktodo/model/Todo.kt:9 | inserting a row under the autoincrement counter keeps every id at or below the counter |
| TodoStore.AppendAboveBound | app/src/main/java/com/xfei33/quicktodo/model/Todo.kt:9 | a generated id one above the counter goes after every stored row and keeps the ids strictly ascending |
| TodoStore.ReplaceById | app/src/main/java/com/xfei33/quicktodo/data/local/dao/TodoDao.kt:34-35 | the update rewrites exactly the positions holding the row's id and leaves every other row and the length as they were |
| TodoStore.ReplaceKeepsIds | app/src/main/java/com/xfei33/quicktodo/data/local/dao/TodoDao.kt:34-35 | an update keeps every position's id, so the primary key order is untouched |
| TodoStore.UpdateThenGet | app/src/main/java/com/xfei33/quicktodo/data/local/dao/TodoDao.kt:34-35 | after an update the lookup of that id finds the new row only if the id was stored, and every other lookup is unchanged |
| TodoStore.DeleteLeavesNoTombstone | app/src/main/java/com/xfei33/quicktodo/data/local/dao/TodoDao.kt:37-38 | after a physical delete the id finds nothing and the incremental query can never report the deletion; the rest of its result is as before |
| TodoStore.UpdateKeepingStampInvisible | app/src/main/java/com/xfei33/quicktodo/model/Todo.kt:17 | an update that keeps `lastModified` at or before the cursor leaves the incremental query's result unchanged |
| TodoStore.EditKeepingStampInvisible | app/src/main/java/com/xfei33/quicktodo/model/Todo.kt:17 | writing back a stored row edited in any field but `lastModified` is invisible to every cursor at or after the old stamp |
| TodoStore.ReplaceInvisible | app/src/main/java/com/xfei33/quicktodo/data/local/dao/TodoDao.kt:34-35 | an update whose old and new rows both fail a query's test leaves that query's result unchanged |
| TodoStore.TodayRecord | app/src/main/java/com/xfei33/quicktodo/data/local/dao/TodoDao.kt:40-41 | a record is returned exactly when one exists for that user and date, and it is a stored record for them |
| TodoStore.TodoDao.GetTodosByUser | app/src/main/java/com/xfei33/quicktodo/data/local/dao/TodoDao.kt:19-20 | the user's rows, each as often as stored, deleted ones included, ascending by due date (with `TodoStore.TodosByUserExact`) |
| TodoStore.TodoDao.GetNotDeletedTodosByUser | app/src/main/java/com/xfei33/quicktodo/data/local/dao/TodoDao.kt:22-23 | only the user's stored live rows, as a sub-sequence of `getTodosByUser`'s list (with `TodoStore.NotDeletedIsLiveSubsequence`) |
| TodoStore.TodoDao.GetIncrementalData | app/src/main/java/com/xfei33/quicktodo/data/local/dao/TodoDao.kt:25-26 | a row exactly when it belongs to the user and was modified strictly after the cursor (with `TodoStore.IncrementalDataExact`) |
| TodoStore.TodoDao.GetTodoById | app/src/main/java/com/xfei33/quicktodo/data/local/dao/TodoDao.kt:28-29 | a row exactly when one with that id is stored, and then a stored row with that id (with `TodoStore.TodoByIdFinds`) |
| TodoStore.TodoDao.GetTodayRecord | app/src/main/java/com/xfei33/quicktodo/data/local/dao/TodoDao.kt:40-41 | a record exactly when one exists for that user and day, and then such a stored record |
| TodoStore.TodoDao.constructor | app/src/main/java/com/xfei33/quicktodo/data/local/dao/TodoDao.kt:16-45 | both tables start empty with the id counter at 0 |
| TodoStore.TodoDao.Insert | app/src/main/java/com/xfei33/quicktodo/data/local/dao/TodoDao.kt:31-32 | id 0 gets the next autoincrement id and is stored; a given id already stored aborts with the table unchanged; a new given id is stored as is and raises the counter |
| TodoStore.TodoDao.Update | app/src/main/java/com/xfei33/quicktodo/data/local/dao/TodoDao.kt:34-35 | the row with the same id is rewritten; the other rows, the counter and the record table are untouched |
| TodoStore.TodoDao.Delete | app/src/main/java/com/xfei33/quicktodo/data/local/dao/TodoDao.kt:37-38 | the row with the todo's id is removed, and the counter keeps its value so the id is never handed out again |
| TodoStore.TodoDao.InsertOrUpdate | app/src/main/java/com/xfei33/quicktodo/data/local/dao/TodoDao.kt:43-44 | the record replaces any record with the same id, keeping record ids unique; the todos are untouched |
| Rows.SortBy | app/src/main/java/com/xfei33/quicktodo/data/local/dao/TodoDao.kt:19-20 | `ORDER BY` yields an ascending permutation of its input |
| Rows.FilterSortBy | app/src/main/java/com/xfei33/quicktodo/data/local/dao/TodoDao.kt:22-23 | filtering the ordered rows gives the same sequence as ordering the filtered rows |
| Rows.FilterMembers | app/src/main/java/com/xfei33/quicktodo/data/local/dao/TodoDao.kt:22-23 | a `WHERE` keeps every row that passes and adds no row |
| Rows.UpsertReplaces | app/src/main/java/com/xfei33/quicktodo/data/local/dao/MessageDao.kt:22-23 | REPLACE leaves the new row as the only one with its key and keeps every row with another key |
| Rows.UpsertThenFind | app/src/main/java/com/xfei33/quicktodo/data/local/dao/FocusSessionDao.kt:14-15 | after REPLACE the new row is found under its key and every other key finds what it found before |
| Rows.ReplaceThenFind | app/src/main/java/com/xfei33/quicktodo/data/local/dao/FocusSessionDao.kt:20-21 | an UPDATE keeps keys unique; a stored key then finds the new row, and other keys find what they did |
| Converters.FromTimestamp | app/src/main/java/com/xfei33/quicktodo/data/local/converter/Converters.kt:15-17 | null stays null; a number in java.time's range becomes the date-time whose epoch second it is; outside the range the call throws |
| Converters.DateToTimestamp | app/src/main/java/com/xfei33/quicktodo/data/local/converter/Converters.kt:20-22 | null stays null; a date-time becomes an in-range number that reads back as the date-time without its sub-second part |
| Converters.FromTimestampFirstDay | app/src/main/java/com/xfei33/quicktodo/data/local/converter/Converters.kt:15-17 | the first 86400 seconds read as 1970-01-01 at that second of the day; 0 is midnight |
| Converters.TimestampRoundTrip | app/src/main/java/com/xfei33/quicktodo/data/local/converter/Converters.kt:15-22 | every storable number survives reading then writing |
| Converters.DateTimeRoundTrip | app/src/main/java/com/xfei33/quicktodo/data/local/converter/Converters.kt:15-22 | writing then reading gives the date-time back with its nanoseconds set to 0 |
| Converters.DateToTimestampMonotone | app/src/main/java/com/xfei33/quicktodo/data/local/converter/Converters.kt:20-22 | on whole-second date-times the stored number is strictly monotone in both directions, so SQL comparisons agree with chronological order |
| CivilTime.DateOfEpochDay | app/src/main/java/com/xfei33/quicktodo/data/local/converter/Converters.kt:16 | a day number gives a date exactly in java.time's range, and the date's day number is the input |
| CivilTime.DateOfEpochDayOfDate | app/src/main/java/com/xfei33/quicktodo/data/local/converter/Converters.kt:16 | every valid date survives the trip through its day number |
| CivilTime.EpochDayOfDateOfEpochDay | app/src/main/java/com/xfei33/quicktodo/data/local/converter/Converters.kt:16 | every day number in range survives the trip through its date |
| CivilTime.SameEpochDaySameDate | app/src/main/java/com/xfei33/quicktodo/data/local/converter/Converters.kt:21 | different dates have different day numbers |
| CivilTime.EpochDayInRange | app/src/main/java/com/xfei33/quicktodo/data/local/converter/Converters.kt:21 | every representable date has a day number within java.time's range |
| CivilTime.EpochDayMonotone | app/src/main/java/com/xfei33/quicktodo/data/local/converter/Converters.kt:21 | day numbering preserves and reflects chronological order of dates |
| CivilTime.EarlierDateSmallerDay | app/src/main/java/com/xfei33/quicktodo/data/local/converter/Converters.kt:21 | an earlier date has a smaller day number |
| CivilTime.DaysBeforeYearMonotone | app/src/main/java/com/xfei33/quicktodo/data/local/converter/Converters.kt:21 | each year has at least 365 days, so later years start later |
| CivilTime.MonthMonotone | app/src/main/java/com/xfei33/quicktodo/data/local/converter/Converters.kt:21 | a month ends no later than any later month starts |
| CivilTime.FindYear | app/src/main/java/com/xfei33/quicktodo/data/local/converter/Converters.kt:16 | the year found contains the day |
| CivilTime.FindMonth | app/src/main/java/com/xfei33/quicktodo/data/local/converter/Converters.kt:16 | the month found contains the day of the year |
| CivilTime.YearUnique | app/src/main/java/com/xfei33/quicktodo/data/local/converter/Converters.kt:16 | a day lies in only one year |
| CivilTime.MonthUnique | app/src/main/java/com/xfei33/quicktodo/data/local/converter/Converters.kt:16 | a day of the year lies in only one month |
| CivilTime.TimeOfSecondOfDay | app/src/main/java/com/xfei33/quicktodo/data/local/converter/Converters.kt:16 | the time of day built from a second of the day has that second of the day and no nanoseconds |
| CivilTime.TimeOfSecondOfDayOfTime | app/src/main/java/com/xfei33/quicktodo/data/local/converter/Converters.kt:21 | a time of day survives the trip through its second of the day, less its nanoseconds |
| CivilTime.OfEpochSecond | app/src/main/java/com/xfei33/quicktodo/data/local/converter/Converters.kt:16 | an epoch second gives a date-time exactly within java.time's range |
| CivilTime.EpochSecondOfOfEpochSecond | app/src/main/java/com/xfei33/quicktodo/data/local/converter/Converters.kt:15-22 | the date-time of an epoch second converts back to that second |
| CivilTime.OfEpochSecondOfEpochSecond | app/src/main/java/com/xfei33/quicktodo/data/local/converter/Converters.kt:15-22 | a date-time converts to seconds and back with its nanoseconds set to 0 |
| CivilTime.EpochSecondMonotone | app/src/main/java/com/xfei33/quicktodo/data/local/converter/Converters.kt:20-22 | on whole seconds, chronological order and the order of epoch seconds agree both ways |
| CivilTime.FieldsOfCivil | app/src/main/java/com/xfei33/quicktodo/data/local/converter/Converters.kt:16 | the date, hour and minute read from a timestamp are those of its civil date-time |
| CivilTime.HourOf | app/src/main/java/com/xfei33/quicktodo/viewmodel/ProfileViewModel.kt:74 | the hour of any timestamp is between 0 and 23, which makes it a valid slot index |
| CivilTime.MinuteOf | app/src/main/java/com/xfei33/quicktodo/viewmodel/ProfileViewModel.kt:75 | the minute of any timestamp is between 0 and 59 |
| CivilTime.AtDate | app/src/main/java/com/xfei33/quicktodo/ui/todo/EditTodoDialog.kt:229-236 | combining a new date with a timestamp's time of day gives that date at the same hour, minute and second |
| CivilTime.AtTime | app/src/main/java/com/xfei33/quicktodo/ui/todo/EditTodoDialog.kt:213-218 | setting an hour and minute keeps the day and leaves second 0 |
| CivilTime.AtOwnDate | app/src/main/java/com/xfei33/quicktodo/ui/todo/NewTodoDialog.kt:52-55 | putting a timestamp's own date back changes nothing |
| LocalDateTimeConverter.YearOfEra | app/src/main/java/com/xfei33/quicktodo/data/converter/LocalDateTimeConverter.kt:8 | `yyyy` prints a year of era of at least 1, equal to the year from year 1 on |
| LocalDateTimeConverter.FromLocalDateTime | app/src/main/java/com/xfei33/quicktodo/data/converter/LocalDateTimeConverter.kt:10-13 | null stays null; a date-time becomes text that the strict pattern reads back as its fields, 19 characters with the separators in place for years 1 to 9999 |
| LocalDateTimeConverter.Format | app/src/main/java/com/xfei33/quicktodo/data/converter/LocalDateTimeConverter.kt:12 | the formatted text lexes back to the date-time's fields, and for years 1 to 9999 has the plain 19-character shape |
| LocalDateTimeConverter.LexYear | app/src/main/java/com/xfei33/quicktodo/data/converter/LocalDateTimeConverter.kt:8 | an accepted year field is four digits, or a `+` and five to nineteen digits |
| LocalDateTimeConverter.Lex | app/src/main/java/com/xfei33/quicktodo/data/converter/LocalDateTimeConverter.kt:17 | only text in the pattern's shape is accepted |
| LocalDateTimeConverter.Resolve | app/src/main/java/com/xfei33/quicktodo/data/converter/LocalDateTimeConverter.kt:17 | resolved fields give a whole-second date-time, on the named day when the hour is below 24 |
| LocalDateTimeConverter.Parse | app/src/main/java/com/xfei33/quicktodo/data/converter/LocalDateTimeConverter.kt:17 | only text in the pattern's shape parses, and the result has no sub-second part |
| LocalDateTimeConverter.ToLocalDateTime | app/src/main/java/com/xfei33/quicktodo/data/converter/LocalDateTimeConverter.kt:15-18 | null stays null; text gives the parsed date-time or the parse failure |
| LocalDateTimeConverter.ParseOfFormat | app/src/main/java/com/xfei33/quicktodo/data/converter/LocalDateTimeConverter.kt:10-18 | formatting then parsing gives back any date-time from year 1 on, truncated to whole seconds |
| LocalDateTimeConverter.FormatOfParse | app/src/main/java/com/xfei33/quicktodo/data/converter/LocalDateTimeConverter.kt:10-18 | 19-character text naming a real date and time parses and formats back to the same text |
| LocalDateTimeConverter.ResolveInRange | app/src/main/java/com/xfei33/quicktodo/data/converter/LocalDateTimeConverter.kt:17 | fields naming a real whole-second date-time resolve to exactly it |
| LocalDateTimeConverter.ParseClampsDayOfMonth | app/src/main/java/com/xfei33/quicktodo/data/converter/LocalDateTimeConverter.kt:17 | "2023-02-30 00:00:00" is not rejected but reads as 28 February 2023 |
| LocalDateTimeConverter.ParseRejectsDay32 | app/src/main/java/com/xfei33/quicktodo/data/converter/LocalDateTimeConverter.kt:17 | "2023-01-32 00:00:00" fails to parse |
| LocalDateTimeConverter.ResolveEndOfYear | app/src/main/java/com/xfei33/quicktodo/data/converter/LocalDateTimeConverter.kt:17 | hour 24 on 31 December resolves to midnight on 1 January of the next year |
| LocalDateTimeConverter.ParseEndOfDay | app/src/main/java/com/xfei33/quicktodo/data/converter/LocalDateTimeConverter.kt:17 | "2023-12-31 24:00:00" reads as 2024-01-01 00:00:00 |
| LocalDateTimeConverter.FormatLosesEra | app/src/main/java/com/xfei33/quicktodo/data/converter/LocalDateTimeConverter.kt:8 | 29 February of year 0 prints as "0001-02-29" and reads back as 28 February of year 1, so years before 1 do not round-trip |
| Preferences.TokenOf | app/src/main/java/com/xfei33/quicktodo/data/preferences/UserPreferences.kt:36-39 | the token is the stored string, or `""` when the key is absent |
| Preferences.UserIdOf | app/src/main/java/com/xfei33/quicktodo/data/preferences/UserPreferences.kt:49-52 | the user id is the stored long, or 0 when the key is absent |
| Preferences.LastSyncTimeOf | app/src/main/java/com/xfei33/quicktodo/data/preferences/UserPreferences.kt:62-65 | the cursor is the stored string, or "0001-01-01T00:00:00" when the key is absent |
| Preferences.Cleared | app/src/main/java/com/xfei33/quicktodo/data/preferences/UserPreferences.kt:68-74 | clearing removes exactly the three keys and keeps every other entry |
| Preferences.KeysDistinct | app/src/main/java/com/xfei33/quicktodo/data/preferences/UserPreferences.kt:19-21 | the token, user id and cursor keys are pairwise different |
| Preferences.SaveTokenThenRead | app/src/main/java/com/xfei33/quicktodo/data/preferences/UserPreferences.kt:29-33 | after saving a token the token getter returns it and the other two getters are unchanged |
| Preferences.SaveUserIdThenRead | app/src/main/java/com/xfei33/quicktodo/data/preferences/UserPreferences.kt:42-46 | after saving a user id the id getter returns it and the other two getters are unchanged |
| Preferences.SaveLastSyncTimeThenRead | app/src/main/java/com/xfei33/quicktodo/data/preferences/UserPreferences.kt:55-59 | after saving a cursor the cursor getter returns it and the other two getters are unchanged |
| Preferences.ClearResets | app/src/main/java/com/xfei33/quicktodo/data/preferences/UserPreferences.kt:68-74 | after clearing every getter gives its default, and clearing again changes nothing |
| Preferences.UserPreferences.constructor | app/src/main/java/com/xfei33/quicktodo/data/preferences/UserPreferences.kt:23-25 | a fresh store gives every getter its default |
| Preferences.UserPreferences.SaveToken | app/src/main/java/com/xfei33/quicktodo/data/preferences/UserPreferences.kt:29-33 | the token key is written; the token reads back and the other values are unchanged |
| Preferences.UserPreferences.SaveUserId | app/src/main/java/com/xfei33/quicktodo/data/preferences/UserPreferences.kt:42-46 | the user id key is written; the id reads back and the other values are unchanged |
| Preferences.UserPreferences.SaveLastSyncTime | app/src/main/java/com/xfei33/quicktodo/data/preferences/UserPreferences.kt:55-59 | the cursor key is written; the cursor reads back and the other values are unchanged |
| Preferences.UserPreferences.Clear | app/src/main/java/com/xfei33/quicktodo/data/preferences/UserPreferences.kt:68-74 | the three keys are removed and every getter returns its default |
| Preferences.UserPreferences.Token | app/src/main/java/com/xfei33/quicktodo/data/preferences/UserPreferences.kt:36-39 | the stored token, or `""` when the key is absent (read-back with `Preferences.SaveTokenThenRead`) |
| Preferences.UserPreferences.UserId | app/src/main/java/com/xfei33/quicktodo/data/preferences/UserPreferences.kt:49-52 | the stored user id, or 0 when the key is absent (read-back with `Preferences.SaveUserIdThenRead`) |
| Preferences.UserPreferences.LastSyncTime | app/src/main/java/com/xfei33/quicktodo/data/preferences/UserPreferences.kt:62-65 | the stored cursor, or "0001-01-01T00:00:00" when the key is absent (read-back with `Preferences.SaveLastSyncTimeThenRead`) |
| TodoList.FilteredExact | app/src/main/java/com/xfei33/quicktodo/viewmodel/TodoViewModel.kt:62-72 | with today-only on, the list is exactly the loaded tasks due today, in loaded order; with it off, the loaded list itself |
| TodoList.Filtered | app/src/main/java/com/xfei33/quicktodo/viewmodel/TodoViewModel.kt:62-72 | the list shown is a sub-sequence of the loaded list and holds no todo more often than it; `TodoList.FilteredExact` states it keeps exactly the todos due today, in order |
| TodoList.Searched | app/src/main/java/com/xfei33/quicktodo/viewmodel/TodoViewModel.kt:79-99 | the search result holds no todo more often than the loaded list; `TodoList.SearchedWithinFiltered` states it keeps exactly the matching todos the filter shows |
| TodoList.SearchedWithinFiltered | app/src/main/java/com/xfei33/quicktodo/viewmodel/TodoViewModel.kt:85-98 | a non-blank search keeps exactly the matching tasks the current filter shows, in order, a sub-sequence of `filterTodos`' list |
| TodoList.Toggled | app/src/main/java/com/xfei33/quicktodo/viewmodel/TodoViewModel.kt:104 | the toggle flips `completed` and keeps every other field, `lastModified` included |
| TodoList.ToggleInvisibleToSync | app/src/main/java/com/xfei33/quicktodo/viewmodel/TodoViewModel.kt:104-105 | a toggle written back is never returned by the incremental query of a cursor at or after the todo's old stamp |
| TodoList.WorkNameInjective | app/src/main/java/com/xfei33/quicktodo/viewmodel/TodoViewModel.kt:160-164 | different tasks get different unique work names, so REPLACE keeps at most one reminder per task |
| TodoList.Scheduled | app/src/main/java/com/xfei33/quicktodo/viewmodel/TodoViewModel.kt:142-166 | a reminder is enqueued under the todo's name, with the gap as its delay, exactly when due time minus an hour is after now; no other entry changes |
| TodoList.ScheduleReplacesAndCancelClears | app/src/main/java/com/xfei33/quicktodo/viewmodel/TodoViewModel.kt:142-170 | rescheduling replaces the earlier reminder; cancelling after scheduling leaves no reminder for the todo |
| TodoList.TodoViewModel.constructor | app/src/main/java/com/xfei33/quicktodo/viewmodel/TodoViewModel.kt:35-44 | the lists and reminders start empty and today-only starts on |
| TodoList.TodoViewModel.LoadTodos | app/src/main/java/com/xfei33/quicktodo/viewmodel/TodoViewModel.kt:53-60 | the loaded snapshot is the user's not-deleted tasks and the list shown is its filtered view |
| TodoList.TodoViewModel.FilterTodos | app/src/main/java/com/xfei33/quicktodo/viewmodel/TodoViewModel.kt:62-72 | the list shown becomes the filtered snapshot, which holds only the user's live tasks |
| TodoList.TodoViewModel.ToggleShowTodayOnly | app/src/main/java/com/xfei33/quicktodo/viewmodel/TodoViewModel.kt:74-77 | the flag flips and the list shown is re-filtered from the unchanged snapshot under the new flag |
| TodoList.TodoViewModel.SearchTodos | app/src/main/java/com/xfei33/quicktodo/viewmodel/TodoViewModel.kt:79-99 | the list shown becomes the search result over the unchanged snapshot; a blank query is `filterTodos` |
| TodoList.TodoViewModel.UpdateTodoCompletionStatus | app/src/main/java/com/xfei33/quicktodo/viewmodel/TodoViewModel.kt:102-110 | the todo is written back toggled; completing awards exactly 10 credits to the user and un-completing awards nothing |
| TodoList.TodoViewModel.ScheduleNotification | app/src/main/java/com/xfei33/quicktodo/viewmodel/TodoViewModel.kt:142-166 | the pending reminders become the scheduled ones; the lists are unchanged |
| TodoList.TodoViewModel.CancelNotification | app/src/main/java/com/xfei33/quicktodo/viewmodel/TodoViewModel.kt:168-170 | the todo's reminder is removed and nothing else changes |
| TodoList.TodoViewModel.DeleteTodo | app/src/main/java/com/xfei33/quicktodo/viewmodel/TodoViewModel.kt:134-140 | the row is removed and no reminder remains under the todo's work name |
| TodoCards.PriorityLabel | app/src/main/java/com/xfei33/quicktodo/ui/todo/TodoCard.kt:281-287 | a badge text is non-empty exactly for the three codes and is one of 低, 中, 高 or empty |
| TodoCards.PriorityLabelInjective | app/src/main/java/com/xfei33/quicktodo/ui/todo/TodoCard.kt:281-287 | different codes get different labels |
| TodoCards.PriorityBadge | app/src/main/java/com/xfei33/quicktodo/ui/todo/TodoCard.kt:243 | a card renders its badge exactly when the priority is non-null, and fails otherwise |
| TodoCards.SwipeDirectionOf | app/src/main/java/com/xfei33/quicktodo/ui/todo/TodoCard.kt:71-79 | Right exactly beyond the threshold, Left exactly below its negation, no swipe within both bounds |
| TodoCards.SwipeSymmetric | app/src/main/java/com/xfei33/quicktodo/ui/todo/TodoCard.kt:71-79 | the opposite offset gives the opposite direction, and exactly plus or minus the threshold is no swipe |
| TodoCards.HintText | app/src/main/java/com/xfei33/quicktodo/ui/todo/TodoCard.kt:147-151 | the hint is empty exactly without a swipe, "编辑" exactly for Left, and names completion for Right |
| TodoCards.RightHintNamesToggle | app/src/main/java/com/xfei33/quicktodo/ui/todo/TodoCard.kt:147-151 | the right-swipe hint names the completion state the toggle leads to |
| TodoCards.Edited | app/src/main/java/com/xfei33/quicktodo/ui/todo/TodoCard.kt:195-203 | the edit replaces title, description, tag, due date and priority, and keeps id, owner, completion, deletion and `lastModified` |
| TodoCards.CardEditInvisibleToSync | app/src/main/java/com/xfei33/quicktodo/ui/todo/TodoCard.kt:196-200 | an edit from the card written back is invisible to any cursor at or after the todo's old stamp |
| TodoCards.SwipeableTodoCard.constructor | app/src/main/java/com/xfei33/quicktodo/ui/todo/TodoCard.kt:68-82 | the card starts unswiped with both dialogs closed and no callback made |
| TodoCards.SwipeableTodoCard.DragStart | app/src/main/java/com/xfei33/quicktodo/ui/todo/TodoCard.kt:90 | a drag sets the swiping flag and nothing else |
| TodoCards.SwipeableTodoCard.Drag | app/src/main/java/com/xfei33/quicktodo/ui/todo/TodoCard.kt:109-113 | the offset moves by the drag amount and nothing else changes |
| TodoCards.SwipeableTodoCard.DragEnd | app/src/main/java/com/xfei33/quicktodo/ui/todo/TodoCard.kt:91-107 | Right calls `onComplete` once, Left opens the edit dialog, no swipe does neither; the offset returns to 0 and swiping ends |
| TodoCards.SwipeableTodoCard.LongPress | app/src/main/java/com/xfei33/quicktodo/ui/todo/TodoCard.kt:118-119 | a long press opens the delete dialog and deletes nothing |
| TodoCards.SwipeableTodoCard.ConfirmDelete | app/src/main/java/com/xfei33/quicktodo/ui/todo/TodoCard.kt:173-176 | confirming calls `onDelete` with the todo once and closes the dialog |
| TodoCards.SwipeableTodoCard.DismissDelete | app/src/main/java/com/xfei33/quicktodo/ui/todo/TodoCard.kt:166-189 | dismissing or cancelling closes the delete dialog without a callback |
| TodoCards.SwipeableTodoCard.DismissEdit | app/src/main/java/com/xfei33/quicktodo/ui/todo/TodoCard.kt:194 | dismissing the edit dialog closes it without a callback |
| TodoCards.SwipeableTodoCard.ConfirmEdit | app/src/main/java/com/xfei33/quicktodo/ui/todo/TodoCard.kt:195-203 | the five fields are written onto the todo, `onEdit` gets the edited task, and the dialog closes |
| EditTodo.Selected | app/src/main/java/com/xfei33/quicktodo/ui/todo/EditTodoDialog.kt:155-160 | an option is selected exactly when the stored priority is the code whose label it is; null or unknown selects none |
| EditTodo.Clicked | app/src/main/java/com/xfei33/quicktodo/ui/todo/EditTodoDialog.kt:163-170 | clicking an option stores the code whose label it is |
| EditTodo.ClickSelectsExactly | app/src/main/java/com/xfei33/quicktodo/ui/todo/EditTodoDialog.kt:155-170 | after a click exactly the clicked option is selected |
| EditTodo.ClickInvertsLabel | app/src/main/java/com/xfei33/quicktodo/ui/todo/EditTodoDialog.kt:164-169 | the option-to-code map inverts the badge's code-to-label map on the three codes |
| EditTodo.ConfirmedPriority | app/src/main/java/com/xfei33/quicktodo/ui/todo/EditTodoDialog.kt:204 | confirm passes the stored priority, or "MEDIUM" (shown as 中) when it is null |
| EditTodo.UneditedConfirmKeepsTask | app/src/main/java/com/xfei33/quicktodo/ui/todo/EditTodoDialog.kt:203-204 | confirming an unedited dialog on a todo with a code gives the todo back unchanged |
| EditTodo.EditTodoDialog.constructor | app/src/main/java/com/xfei33/quicktodo/ui/todo/EditTodoDialog.kt:54-61 | the dialog opens on the todo's own values with both pickers hidden |
| EditTodo.EditTodoDialog.ClickOption | app/src/main/java/com/xfei33/quicktodo/ui/todo/EditTodoDialog.kt:163-170 | the priority becomes the clicked option's code, exactly that option is selected, and nothing else changes |
| EditTodo.EditTodoDialog.OpenDatePicker | app/src/main/java/com/xfei33/quicktodo/ui/todo/EditTodoDialog.kt:122-124 | the date picker is shown and nothing else changes |
| EditTodo.EditTodoDialog.ConfirmDate | app/src/main/java/com/xfei33/quicktodo/ui/todo/EditTodoDialog.kt:229-236 | the due date moves to the picked day at the same hour and minute, and the time picker replaces the date picker |
| EditTodo.EditTodoDialog.CancelDate | app/src/main/java/com/xfei33/quicktodo/ui/todo/EditTodoDialog.kt:240-243 | cancelling the date picker dismisses the whole dialog and changes no value |
| EditTodo.EditTodoDialog.DismissDatePicker | app/src/main/java/com/xfei33/quicktodo/ui/todo/EditTodoDialog.kt:227 | tapping outside only hides the date picker |
| EditTodo.EditTodoDialog.ConfirmTime | app/src/main/java/com/xfei33/quicktodo/ui/todo/EditTodoDialog.kt:213-218 | the due date keeps its day and takes the picked hour and minute with second 0; the time picker closes |
| EditTodo.EditTodoDialog.Confirm | app/src/main/java/com/xfei33/quicktodo/ui/todo/EditTodoDialog.kt:203-204 | confirm hands over the edited values, with a null priority sent as "MEDIUM" |
| NewTodo.PickedDate | app/src/main/java/com/xfei33/quicktodo/ui/todo/NewTodoDialog.kt:52-55 | the callback's date exists exactly when year, month plus one and day name a real date, and is that date |
| NewTodo.PickerRoundTrip | app/src/main/java/com/xfei33/quicktodo/ui/todo/NewTodoDialog.kt:52-58 | confirming the picker's initial selection picks the due date's own day and leaves the due date unchanged |
| NewTodo.AtDateInRange | app/src/main/java/com/xfei33/quicktodo/ui/todo/NewTodoDialog.kt:54 | a picked date at any time of day is a representable timestamp |
| NewTodo.ButtonCode | app/src/main/java/com/xfei33/quicktodo/ui/todo/NewTodoDialog.kt:141-143 | a button stores the code whose label it shows |
| NewTodo.ClickClearsHighlight | app/src/main/java/com/xfei33/quicktodo/ui/todo/NewTodoDialog.kt:141-143 | as written, after any click no button shows as selected |
| NewTodo.DefaultPriorityHasNoBadge | app/src/main/java/com/xfei33/quicktodo/ui/todo/NewTodoDialog.kt:46 | as written, the default priority is not a code: its badge is empty and the edit dialog selects nothing for it |
| NewTodo.IntendedHighlightFollowsClicks | app/src/main/java/com/xfei33/quicktodo/ui/todo/NewTodoDialog.kt:141-143 | with the intended default and highlight, 中 is selected at first and after a click exactly the clicked button is |
| NewTodo.NewTodoDialog.constructor | app/src/main/java/com/xfei33/quicktodo/ui/todo/NewTodoDialog.kt:42-46 | empty title, description and tag, due now, priority "中" |
| NewTodo.NewTodoDialog.DateSet | app/src/main/java/com/xfei33/quicktodo/ui/todo/NewTodoDialog.kt:52-55 | the due date moves to the picked date at the same hour and minute; the other fields are unchanged |
| NewTodo.NewTodoDialog.TimeSet | app/src/main/java/com/xfei33/quicktodo/ui/todo/NewTodoDialog.kt:65-68 | the due date keeps its day and takes the picked hour and minute with second 0 |
| NewTodo.NewTodoDialog.ClickPriority | app/src/main/java/com/xfei33/quicktodo/ui/todo/NewTodoDialog.kt:141-143 | the priority becomes the button's code, after which no button is highlighted |
| NewTodo.NewTodoDialog.Confirm | app/src/main/java/com/xfei33/quicktodo/ui/todo/NewTodoDialog.kt:154-156 | confirm passes the values as stored, the priority unchanged |
| Profile.FocusMinutes | app/src/main/java/com/xfei33/quicktodo/viewmodel/ProfileViewModel.kt:60-90 | the hourly loops give 24 slots, each the sum over sessions of the minutes the code's visits add to that hour |
| Profile.TotalAppend | app/src/main/java/com/xfei33/quicktodo/viewmodel/ProfileViewModel.kt:66-87 | sessions' contributions add slot-wise |
| Profile.SlotsSumToTotal | app/src/main/java/com/xfei33/quicktodo/viewmodel/ProfileViewModel.kt:71-88 | summed over the 24 slots, a session's visits add up to its total: no minute lands outside a slot |
| Profile.SlotsSumStep | app/src/main/java/com/xfei33/quicktodo/viewmodel/ProfileViewModel.kt:72-88 | one visit adds its minutes to the slot of its hour only |
| Profile.ZeroSlots | app/src/main/java/com/xfei33/quicktodo/viewmodel/ProfileViewModel.kt:72 | once the visit time reaches the end, nothing more is added |
| Profile.VisitMinutesBounds | app/src/main/java/com/xfei33/quicktodo/viewmodel/ProfileViewModel.kt:74-86 | each visit of an ordered same-day session adds between 0 and 60 minutes |
| Profile.MinutesAt | app/src/main/java/com/xfei33/quicktodo/viewmodel/ProfileViewModel.kt:74-86 | the four cases of the `when` in terms of the start's, end's and visit's hour and minute |
| Profile.VisitMinutes | app/src/main/java/com/xfei33/quicktodo/viewmodel/ProfileViewModel.kt:74-86 | one visit never counts more than 60 minutes; `Profile.MinutesAt` gives its four `when` arms and `Profile.VisitMinutesBounds` bounds it by 0 and 60 |
| Profile.Fields | app/src/main/java/com/xfei33/quicktodo/viewmodel/ProfileViewModel.kt:74-75 | a time built from day, hour and seconds into the hour has that day, hour and minute |
| Profile.Decompose | app/src/main/java/com/xfei33/quicktodo/viewmodel/ProfileViewModel.kt:74-75 | every timestamp splits into its day, hour and seconds into the hour |
| Profile.AsWrittenTail | app/src/main/java/com/xfei33/quicktodo/viewmodel/ProfileViewModel.kt:72-88 | as written, later visits add 60 per hour before the end's, and the end's hour only when its position in the hour is past the start's |
| Profile.AsWrittenFromFields | app/src/main/java/com/xfei33/quicktodo/viewmodel/ProfileViewModel.kt:71-88 | as written, a session's total in terms of its start and end fields |
| Profile.AsWrittenSessionTotal | app/src/main/java/com/xfei33/quicktodo/viewmodel/ProfileViewModel.kt:71-88 | as written, a same-day session totals its minutes of the day when the end's position in its hour is past the start's, and loses the end's minutes otherwise |
| Profile.AsWrittenDropsLastPartialHour | app/src/main/java/com/xfei33/quicktodo/viewmodel/ProfileViewModel.kt:71-88 | a session from 10:30 to 11:15 is counted as 30 minutes, where the intended loop counts 45 |
| Profile.IntendedTail | app/src/main/java/com/xfei33/quicktodo/viewmodel/ProfileViewModel.kt:71-88 | the intended loop's later visits add 60 per hour before the end's and the end's minutes |
| Profile.IntendedFromFields | app/src/main/java/com/xfei33/quicktodo/viewmodel/ProfileViewModel.kt:71-88 | the intended total in terms of the start and end fields |
| Profile.IntendedSessionTotalExact | app/src/main/java/com/xfei33/quicktodo/viewmodel/ProfileViewModel.kt:71-88 | with the intended loop every ordered same-day session totals exactly its minutes of the day |
| Profile.CompletedOn | app/src/main/java/com/xfei33/quicktodo/viewmodel/ProfileViewModel.kt:101-104 | the day's count is a recorded count for that user and day, or 0 when there is no record |
| Profile.WeeklyCompletedTasks | app/src/main/java/com/xfei33/quicktodo/viewmodel/ProfileViewModel.kt:96-109 | seven entries, entry `i` the count for today minus 6 plus `i`, so the last is today's |
| Profile.ProfileViewModel.constructor | app/src/main/java/com/xfei33/quicktodo/viewmodel/ProfileViewModel.kt:28-35 | no user, 24 zero hourly slots and 7 zero daily counts |
| Profile.ProfileViewModel.LoadFocusData | app/src/main/java/com/xfei33/quicktodo/viewmodel/ProfileViewModel.kt:48-94 | the slots become the bucketing of the user's sessions that start at or after midnight and end before the next; no sessions give 24 zeros |
| Profile.ProfileViewModel.GetWeeklyCompletedTasks | app/src/main/java/com/xfei33/quicktodo/viewmodel/ProfileViewModel.kt:96-109 | the weekly series becomes the seven days' counts ending today; the rest is unchanged |
| Profile.ProfileViewModel.OnUser | app/src/main/java/com/xfei33/quicktodo/viewmodel/ProfileViewModel.kt:37-46 | each user emission stores the user and reloads both statistics |
| WeeklyChart.MaxTasks | app/src/main/java/com/xfei33/quicktodo/ui/profile/WeeklyCompletedTasksChart.kt:31 | the largest count, which is one of the counts, or 0 for an empty list |
| WeeklyChart.Step | app/src/main/java/com/xfei33/quicktodo/ui/profile/WeeklyCompletedTasksChart.kt:75-76 | the step lies in 1 to the maximum; it is 1 below 10 and a fifth of the maximum from 10 on |
| WeeklyChart.ProgressionShape | app/src/main/java/com/xfei33/quicktodo/ui/profile/WeeklyCompletedTasksChart.kt:77 | a stepped range climbs by the step, never passes its end and stops within a step of it |
| WeeklyChart.YLabelsShape | app/src/main/java/com/xfei33/quicktodo/ui/profile/WeeklyCompletedTasksChart.kt:77 | the labels start at 0, climb by the step, never pass the maximum and end within a step of it |
| WeeklyChart.YLabels | app/src/main/java/com/xfei33/quicktodo/ui/profile/WeeklyCompletedTasksChart.kt:75-77 | the labels are never empty, start at 0 and lie between 0 and the maximum (0 when there is no positive maximum); the step shape is stated by `WeeklyChart.YLabelsShape` and `WeeklyChart.SmallMaximumLabelsAll` |
| WeeklyChart.SmallMaximumLabelsAll | app/src/main/java/com/xfei33/quicktodo/ui/profile/WeeklyCompletedTasksChart.kt:76-77 | below 10 every number from 0 to the maximum is labelled |
| WeeklyChart.YLabelTexts | app/src/main/java/com/xfei33/quicktodo/ui/profile/WeeklyCompletedTasksChart.kt:79-90 | one text per label, each the label's decimal numeral |
| WeeklyChart.EmptyWeekShowsZero | app/src/main/java/com/xfei33/quicktodo/ui/profile/WeeklyCompletedTasksChart.kt:91-101 | a week with no completed tasks shows only "0" |
| WeeklyChart.MonthDayRoundTrip | app/src/main/java/com/xfei33/quicktodo/ui/profile/WeeklyCompletedTasksChart.kt:114-115 | `MM/dd` is five characters from which month and day read back |
| WeeklyChart.XLabels | app/src/main/java/com/xfei33/quicktodo/ui/profile/WeeklyCompletedTasksChart.kt:106-115 | seven labels exactly when the week starts within java.time's range |
| WeeklyChart.XLabelAt | app/src/main/java/com/xfei33/quicktodo/ui/profile/WeeklyCompletedTasksChart.kt:114-115 | label `j` is the day `6 - j` days before today |
| WeeklyChart.XLabelsDays | app/src/main/java/com/xfei33/quicktodo/ui/profile/WeeklyCompletedTasksChart.kt:106-115 | label `j` shows the month and day of the date `6 - j` days before today |
| WeeklyChart.LastXLabelIsToday | app/src/main/java/com/xfei33/quicktodo/ui/profile/WeeklyCompletedTasksChart.kt:106 | the last label is today's |
| FocusSessions.SessionsByUserExact | app/src/main/java/com/xfei33/quicktodo/data/local/dao/FocusSessionDao.kt:17-18 | the by-user query returns exactly that user's sessions, in table order |
| FocusSessions.SessionsInRangeExact | app/src/main/java/com/xfei33/quicktodo/data/local/dao/FocusSessionDao.kt:23-28 | the range query returns exactly the user's sessions starting at or after the start and ending before the end, a sub-sequence of the by-user query |
| FocusSessions.FocusSessionDao.GetFocusSessionsByUserId | app/src/main/java/com/xfei33/quicktodo/data/local/dao/FocusSessionDao.kt:17-18 | exactly the user's sessions, in table order (with `FocusSessions.SessionsByUserExact`) |
| FocusSessions.FocusSessionDao.GetFocusSessionsByUserIdAndTimeRange | app/src/main/java/com/xfei33/quicktodo/data/local/dao/FocusSessionDao.kt:23-28 | exactly the user's sessions starting at or after the start and ending before the end, a sub-sequence of the by-user query (with `FocusSessions.SessionsInRangeExact`) |
| FocusSessions.FocusSessionDao.constructor | app/src/main/java/com/xfei33/quicktodo/data/local/dao/FocusSessionDao.kt:12-29 | the table starts empty |
| FocusSessions.FocusSessionDao.Insert | app/src/main/java/com/xfei33/quicktodo/data/local/dao/FocusSessionDao.kt:14-15 | REPLACE: the session is then the one stored under its id and every other id finds what it did |
| FocusSessions.FocusSessionDao.Update | app/src/main/java/com/xfei33/quicktodo/data/local/dao/FocusSessionDao.kt:20-21 | the stored session with the id is rewritten in place; without one nothing changes |
| FocusSessionStore.FocusCredits | app/src/main/java/com/xfei33/quicktodo/data/repository/FocusSessionRepository.kt:40 | credits are the whole minutes of a non-negative duration whenever they fit in `Int`, and less than a minute either way earns 0 |
| FocusSessionStore.CreditsPerWholeMinute | app/src/main/java/com/xfei33/quicktodo/data/repository/FocusSessionRepository.kt:36-40 | a session of `m` whole minutes and up to 59 seconds more earns exactly `m` |
| FocusSessionStore.NewSession | app/src/main/java/com/xfei33/quicktodo/data/repository/FocusSessionRepository.kt:23-29 | a new session starts and ends now and has lasted 0 ms |
| FocusSessionStore.Stopped | app/src/main/java/com/xfei33/quicktodo/data/repository/FocusSessionRepository.kt:35-38 | a stopped session ends now and its duration is the milliseconds since its start; id, owner and start are kept |
| FocusSessionStore.FocusSessionRepository.constructor | app/src/main/java/com/xfei33/quicktodo/data/repository/FocusSessionRepository.kt:19-20 | there is no current session at first |
| FocusSessionStore.FocusSessionRepository.StartSession | app/src/main/java/com/xfei33/quicktodo/data/repository/FocusSessionRepository.kt:22-31 | the new session is stored and current; an earlier current session is not stopped and stays stored as it was |
| FocusSessionStore.FocusSessionRepository.StopSession | app/src/main/java/com/xfei33/quicktodo/data/repository/FocusSessionRepository.kt:33-43 | without a current session nothing is written; otherwise the stopped session is written back, its owner credited per whole minute, and current cleared, so a second stop is a no-op |
| FocusSessionStore.FocusSessionRepository.UpdateCreditsForFocusTime | app/src/main/java/com/xfei33/quicktodo/data/repository/FocusSessionRepository.kt:49-51 | the user's credits go up by the minutes given, nothing else changes |
| FocusSessionStore.FocusSessionRepository.GetFocusSessionsByUserId | app/src/main/java/com/xfei33/quicktodo/data/repository/FocusSessionRepository.kt:45-47 | passes the DAO's query through: exactly the user's stored sessions |
| Timer.TimerService.constructor | app/src/main/java/com/xfei33/quicktodo/service/TimerService.kt:29-36 | idle, not running, 0 seconds |
| Timer.TimerService.StartTimer | app/src/main/java/com/xfei33/quicktodo/service/TimerService.kt:51-54 | running, counting down from the total or up from 0, under a new loop; a loop that was still live is not cancelled and keeps ticking as an orphan |
| Timer.TimerService.Tick | app/src/main/java/com/xfei33/quicktodo/service/TimerService.kt:62-76 | one pass of any live loop, orphaned or current: a countdown loop takes one second off the shared counter and, on reaching 0 or less, ends and stops the whole service idle at 0, cancelling the current loop too; a count-up loop adds one |
| Timer.TimerService.RunTicks | app/src/main/java/com/xfei33/quicktodo/service/TimerService.kt:62-76 | while only the current loop ticks, a countdown never goes below 0 and stops at 0 once it runs out, and a count-up gains one second per tick; orphaned loops stay as they were |
| Timer.TimerService.PauseTimer | app/src/main/java/com/xfei33/quicktodo/service/TimerService.kt:79-83 | paused and not running, with the seconds kept at that moment; only the current loop is cancelled, so orphaned loops go on changing the seconds |
| Timer.TimerService.ResumeTimer | app/src/main/java/com/xfei33/quicktodo/service/TimerService.kt:85-87 | a fresh start, so a count-up timer restarts from 0 whatever seconds are given, and a live loop is left running as an orphan |
| Timer.TimerService.StopTimer | app/src/main/java/com/xfei33/quicktodo/service/TimerService.kt:89-96 | idle, not running, 0 seconds from any state, cancelling only the current loop; orphaned loops survive the stop |
| Timer.TimerService.FormatTime | app/src/main/java/com/xfei33/quicktodo/service/TimerService.kt:134-138 | below 100 minutes the notification text is `MM:SS` and reads back as the remaining seconds (with `Text.ClockFaceRoundTrip`) |
| Timer.PausedTimerStillCounts | app/src/main/java/com/xfei33/quicktodo/service/TimerService.kt:51-83 | starting a count-up twice and pausing leaves the first loop ticking: the service reports PAUSED and not running while the seconds still rise |
| Timer.OrphanCountdownStopsNewTimer | app/src/main/java/com/xfei33/quicktodo/service/TimerService.kt:51-96 | a countdown restarted as a count-up keeps its loop; that loop's next tick takes the shared counter below zero and stops the new timer idle after one second |
| Text.ClockFaceRoundTrip | app/src/main/java/com/xfei33/quicktodo/service/TimerService.kt:134-138 | below 6000 seconds `formatTime` is five-character `MM:SS` from which the seconds read back |
| Text.TruncDiv | app/src/main/java/com/xfei33/quicktodo/service/TimerService.kt:135-136 | Kotlin division truncates toward zero, agreeing with floor division on non-negative numbers |
| Text.TruncRem | app/src/main/java/com/xfei33/quicktodo/service/TimerService.kt:135-136 | Kotlin's remainder completes the truncated quotient and is smaller than the divisor in size |
| Text.PairRoundTrip | app/src/main/java/com/xfei33/quicktodo/ui/message/MessageCard.kt:37 | two numbers below 100 as `%02d` around a separator are five characters that read back as both numbers |
| Text.TwoPairsRoundTrip | app/src/main/java/com/xfei33/quicktodo/ui/message/MessageCard.kt:40 | `MM-dd HH:mm` is eleven characters that read back as all four numbers |
| Text.ShowIntInjective | app/src/main/java/com/xfei33/quicktodo/ui/profile/WeeklyCompletedTasksChart.kt:89 | different numbers get different label texts |
| Focus.ModeLabel | app/src/main/java/com/xfei33/quicktodo/ui/focus/FocusScreen.kt:92-95 | 番茄钟 exactly for Pomodoro and 倒计时 exactly for Countdown |
| Focus.ModeButtonEnabled | app/src/main/java/com/xfei33/quicktodo/ui/focus/FocusScreen.kt:90 | a mode button is enabled exactly when it is not the current mode's |
| Focus.OneButtonDisabled | app/src/main/java/com/xfei33/quicktodo/ui/focus/FocusScreen.kt:87-96 | exactly one mode button is disabled: the current mode's |
| Focus.FocusScreen.constructor | app/src/main/java/com/xfei33/quicktodo/ui/focus/FocusScreen.kt:33-35 | Pomodoro, 1500 seconds, not running |
| Focus.FocusScreen.Display | app/src/main/java/com/xfei33/quicktodo/ui/focus/FocusScreen.kt:57 | the clock is `MM:SS` and reads back as the seconds left |
| Focus.FocusScreen.Tick | app/src/main/java/com/xfei33/quicktodo/ui/focus/FocusScreen.kt:37-46 | a tick removes exactly one second while running |
| Focus.FocusScreen.RunEffect | app/src/main/java/com/xfei33/quicktodo/ui/focus/FocusScreen.kt:37-46 | while running, the loop counts down to 0 and then clears the flag; when not running nothing changes |
| Focus.FocusScreen.ToggleRunning | app/src/main/java/com/xfei33/quicktodo/ui/focus/FocusScreen.kt:64 | the button flips only the running flag |
| Focus.FocusScreen.ClickModeButton | app/src/main/java/com/xfei33/quicktodo/ui/focus/FocusScreen.kt:73 | the mode becomes the tapped one; time and running flag are unchanged |
| LocalUsers.Wrap | app/src/main/java/com/xfei33/quicktodo/model/User.kt:11 | narrowing to `Int` leaves values within 32 bits unchanged |
| LocalUsers.AddInt32 | app/src/main/java/com/xfei33/quicktodo/model/User.kt:11 | `Int` addition is exact when the sum fits in 32 bits |
| LocalUsers.WrapShift | app/src/main/java/com/xfei33/quicktodo/model/User.kt:11 | narrowing ignores whole multiples of 2^32 |
| LocalUsers.AddAfterAdd | app/src/main/java/com/xfei33/quicktodo/model/User.kt:11 | two wrapped additions equal the narrowed exact total |
| LocalUsers.AddInt32Commutes | app/src/main/java/com/xfei33/quicktodo/model/User.kt:11 | two awards give the same balance in either order |
| LocalUsers.OfflineUser | app/src/main/java/com/xfei33/quicktodo/model/User.kt:7-12 | the default user has 0 credits and the nickname 离线用户 |
| LocalUsers.WithCredits | app/src/main/java/com/xfei33/quicktodo/data/local/dao/UserDao.kt:32 | the balance rises by the amount whenever the sum fits in `Int`; id, nickname and headshot are kept |
| LocalUsers.Credited | app/src/main/java/com/xfei33/quicktodo/data/local/dao/UserDao.kt:29-34 | only the target user's balance changes; an absent user changes nothing |
| LocalUsers.CreditedCommutes | app/src/main/java/com/xfei33/quicktodo/data/local/dao/UserDao.kt:29-34 | awards commute, whether to one user or to two |
| LocalUsers.UserDao.constructor | app/src/main/java/com/xfei33/quicktodo/data/local/dao/UserDao.kt:11-35 | the table starts empty |
| LocalUsers.UserDao.GetUserById | app/src/main/java/com/xfei33/quicktodo/data/local/dao/UserDao.kt:14-18 | the user with that id, or none |
| LocalUsers.UserDao.InsertUser | app/src/main/java/com/xfei33/quicktodo/data/local/dao/UserDao.kt:20-21 | REPLACE: the user is found under its id afterwards; every other id is unchanged |
| LocalUsers.UserDao.UpdateUser | app/src/main/java/com/xfei33/quicktodo/data/local/dao/UserDao.kt:23-24 | the stored user with the id is rewritten; an absent one is not added; others are unchanged |
| LocalUsers.UserDao.DeleteAllUsers | app/src/main/java/com/xfei33/quicktodo/data/local/dao/UserDao.kt:26-27 | the table is empty and every lookup finds nothing |
| LocalUsers.UserDao.AddCredits | app/src/main/java/com/xfei33/quicktodo/data/local/dao/UserDao.kt:29-34 | the table becomes the credited table: only the target row's balance changes, and an absent user changes nothing |
| Auth.Lookup | app/src/main/java/com/xfei33/quicktodo/data/dao/UserDao.kt:14-15 | the account with that name exactly when the name is stored |
| Auth.CheckLogin | app/src/main/java/com/xfei33/quicktodo/data/repository/AuthRepository.kt:19-24 | login succeeds exactly when the name is stored with that password; an unknown name fails |
| Auth.LoginAfterRegister | app/src/main/java/com/xfei33/quicktodo/data/repository/AuthRepository.kt:32-43 | after registering, the new name logs in with exactly its password and every other name's logins are unchanged |
| Auth.AccountDao.constructor | app/src/main/java/com/xfei33/quicktodo/data/dao/UserDao.kt:10-16 | the table starts empty |
| Auth.AccountDao.Insert | app/src/main/java/com/xfei33/quicktodo/data/dao/UserDao.kt:11-12 | ABORT: a taken name is refused with the table unchanged; a new name is stored |
| Auth.AccountDao.GetUserByUsername | app/src/main/java/com/xfei33/quicktodo/data/dao/UserDao.kt:14-15 | the account exactly when the name is stored, with its stored password (with `Auth.Lookup`) |
| Auth.AuthRepository.constructor | app/src/main/java/com/xfei33/quicktodo/data/repository/AuthRepository.kt:10-12 | the repository works on the given table |
| Auth.AuthRepository.Register | app/src/main/java/com/xfei33/quicktodo/data/repository/AuthRepository.kt:32-43 | success exactly for a new name, which is stored with its password so that login accepts exactly that password; a taken name changes nothing |
| Auth.AuthRepository.Login | app/src/main/java/com/xfei33/quicktodo/data/repository/AuthRepository.kt:19-24 | true exactly when the name is stored with that password; after a registration, see `Auth.LoginAfterRegister` |
| Registration.FormError | app/src/main/java/com/xfei33/quicktodo/ui/auth/RegisterScreen.kt:87-90 | the form may be submitted exactly when no field is blank and the passwords agree |
| Registration.BlankTakesPrecedence | app/src/main/java/com/xfei33/quicktodo/ui/auth/RegisterScreen.kt:87-90 | the blank message shows exactly when a field is blank; the mismatch message exactly when none is and the passwords differ |
| Registration.RegisterScreen.constructor | app/src/main/java/com/xfei33/quicktodo/ui/auth/RegisterScreen.kt:30-33 | empty fields, no error |
| Registration.RegisterScreen.ClickRegister | app/src/main/java/com/xfei33/quicktodo/ui/auth/RegisterScreen.kt:86-101 | a form error is shown without registering; otherwise success clears the error and reports the name, and a taken name shows 用户名已存在 |
| Messages.AllMessagesNewestFirst | app/src/main/java/com/xfei33/quicktodo/data/local/dao/MessageDao.kt:13-14 | the list holds every stored message exactly once, newest first |
| Messages.MessageDao.GetAllMessages | app/src/main/java/com/xfei33/quicktodo/data/local/dao/MessageDao.kt:13-14 | every stored message exactly once, newest first (with `Messages.AllMessagesNewestFirst`) |
| Messages.MessageDao.constructor | app/src/main/java/com/xfei33/quicktodo/data/local/dao/MessageDao.kt:11-24 | the table starts empty |
| Messages.MessageDao.GetMessageById | app/src/main/java/com/xfei33/quicktodo/data/local/dao/MessageDao.kt:16-17 | a stored message with that id exactly when there is one |
| Messages.MessageDao.UpdateMessage | app/src/main/java/com/xfei33/quicktodo/data/local/dao/MessageDao.kt:19-20 | the stored message with the id is rewritten; without one nothing changes; other ids find what they did |
| Messages.MessageDao.InsertMessage | app/src/main/java/com/xfei33/quicktodo/data/local/dao/MessageDao.kt:22-23 | REPLACE: the message is then the one under its id; other ids find what they did |
| MessageList.FindInList | app/src/main/java/com/xfei33/quicktodo/viewmodel/MessageViewModel.kt:45 | a listed message with that id exactly when there is one |
| MessageList.MarkedRead | app/src/main/java/com/xfei33/quicktodo/viewmodel/MessageViewModel.kt:46 | the copy is read and every other field is kept |
| MessageList.MarkedReadIdempotent | app/src/main/java/com/xfei33/quicktodo/viewmodel/MessageViewModel.kt:46 | marking twice writes what marking once does; a read message is unchanged |
| MessageList.MessageViewModel.constructor | app/src/main/java/com/xfei33/quicktodo/viewmodel/MessageViewModel.kt:19-23 | empty list, no current message |
| MessageList.MessageViewModel.Collect | app/src/main/java/com/xfei33/quicktodo/viewmodel/MessageViewModel.kt:25-31 | the list becomes the latest newest-first query result |
| MessageList.MessageViewModel.GetMessageById | app/src/main/java/com/xfei33/quicktodo/viewmodel/MessageViewModel.kt:33-40 | malformed text fails exactly when it is not a UUID; a found message becomes current, an unknown id keeps the previous one |
| MessageList.MessageViewModel.MarkMessageAsRead | app/src/main/java/com/xfei33/quicktodo/viewmodel/MessageViewModel.kt:42-49 | the listed message is written back read; an unlisted id writes nothing; malformed text fails and writes nothing |
| Uuids.TextPos | app/src/main/java/com/xfei33/quicktodo/viewmodel/MessageViewModel.kt:35 | each hexadecimal digit has a place in the text that is not a dash |
| Uuids.DigitIndex | app/src/main/java/com/xfei33/quicktodo/viewmodel/MessageViewModel.kt:35 | each non-dash place holds the digit that is placed there |
| Uuids.HexChar | app/src/main/java/com/xfei33/quicktodo/viewmodel/MessageViewModel.kt:35 | a digit value is written as a lower-case digit that reads back as it |
| Uuids.ToString | app/src/main/java/com/xfei33/quicktodo/viewmodel/MessageViewModel.kt:35 | 36 characters with dashes exactly at 8, 13, 18 and 23 |
| Uuids.FromString | app/src/main/java/com/xfei33/quicktodo/viewmodel/MessageViewModel.kt:35 | text parses exactly when it is in the canonical form |
| Uuids.FromStringOfToString | app/src/main/java/com/xfei33/quicktodo/viewmodel/MessageViewModel.kt:44 | every UUID parses back from its own text |
| Uuids.ToStringOfFromString | app/src/main/java/com/xfei33/quicktodo/viewmodel/MessageViewModel.kt:44 | parsed text is the UUID's text up to the case of its letters |
| Uuids.ToStringInjective | app/src/main/java/com/xfei33/quicktodo/viewmodel/MessageViewModel.kt:44 | different UUIDs have different texts |
| MessageTime.TodayShowsTime | app/src/main/java/com/xfei33/quicktodo/ui/message/MessageCard.kt:35-37 | a message from today shows five characters that read back as its hour and minute |
| MessageTime.OtherDayShowsDate | app/src/main/java/com/xfei33/quicktodo/ui/message/MessageCard.kt:38-40 | a message from another day shows eleven characters that read back as month, day, hour and minute |
| MessageTime.DateShownAfterMidnight | app/src/main/java/com/xfei33/quicktodo/ui/message/MessageCard.kt:35 | the choice is by calendar day: a message from one minute before midnight shows its date from midnight on |
| MessageTime.YearNotShown | app/src/main/java/com/xfei33/quicktodo/ui/message/MessageCard.kt:40 | messages from different years with the same month, day, hour and minute show the same text |
| MessageTime.FormatMessageTime | app/src/main/java/com/xfei33/quicktodo/ui/message/MessageCard.kt:33-42 | the text is the short five-character form exactly when the message is from today's calendar day; its content is stated by `MessageTime.TodayShowsTime` and `MessageTime.OtherDayShowsDate` (`HH:mm` today, `MM-dd HH:mm` otherwise, both reading back) |
| Navigation.TabRoute | app/src/main/java/com/xfei33/quicktodo/ui/navigation/MainNav.kt:33-39 | a tab has a route exactly for tabs 0 to 2 |
| Navigation.TabIndex | app/src/main/java/com/xfei33/quicktodo/ui/navigation/MainNav.kt:93-99 | 0 exactly for routes beginning with "todos", 1 exactly for "focus", 2 exactly for "profile", and -1 exactly for no route or any other route |
| Navigation.TabRoundTrip | app/src/main/java/com/xfei33/quicktodo/ui/navigation/MainNav.kt:35-39 | the route a tab leads to maps back to that tab |
| Navigation.TodoSubRoutes | app/src/main/java/com/xfei33/quicktodo/ui/navigation/MainNav.kt:95 | every route under "todos" selects the first tab |
| Navigation.MainNav.constructor | app/src/main/java/com/xfei33/quicktodo/ui/navigation/MainNav.kt:27 | the first tab is selected and nothing has been navigated |
| Navigation.MainNav.OnTabSelected | app/src/main/java/com/xfei33/quicktodo/ui/navigation/MainNav.kt:33-39 | the tab is always recorded; tabs 0 to 2 navigate to a route that maps back to the tab, others nowhere |

## Left out

- **Sync.** The sync pass itself is defined in no file of the repository, and so are its push and pull, its conflict resolution and how the cursor advances. Only the queries and the cursor store it would use are modelled.
- **Outside services.** The network clients and the server API are out, as are Compose layout, drawing and animation. So are notifications, the foreground service, WorkManager, dependency injection and the database singletons. These are I/O or UI.
- **Reminders.** WorkManager's unique-work queue is modelled as a map from work name to reminder data; the reminder's firing is left out.
- **Time zones.** Every timestamp is read in UTC, so the mix of UTC and the system zone in `EditTodoDialog.kt:65` and `:231` is not modelled.
- **The two `now()` calls.** `startSession` and `stopSession` each call `now()` twice (`FocusSessionRepository.kt:25-26`, `:36-37`); the model treats each pair as one instant.
- **Sub-second precision.** Times are whole seconds, so durations are whole seconds times 1000.
- **Tie order in `ORDER BY`.** SQL leaves the order of rows with equal sort keys unspecified. The model picks the stable order (scan order within a key), so lemmas about order hold for that choice.
- **Tables as sequences.** The todos table is a sequence kept in ascending id order rather than a map. This is the same content with the rowid scan order made explicit.
- **`getTodoById`'s parameter type.** It takes a UUID while todo ids are `Long`. The model looks up by the integer id.
- **Assignments to `val` fields.** The code assigns fields that the Todo class declares `val`. They are modelled as record updates.
- **Repository calls from TodoViewModel.** Its calls to the todo repository have no definition in the repository's files. They are modelled as the DAO's `update` and `delete`.
- **Coroutines.** Coroutine scopes and flows are modelled as synchronous calls, with one method per emission. Each timer loop is modelled one tick at a time. Any interleaving of ticks and calls is a sequence of calls; which interleavings the scheduler produces is not modelled. The loops that `startTimer` leaves uncancelled are kept as `orphans` and can still tick.
- **Case folding.** The platform's case mapping for `contains(ignoreCase = true)` is a parameter (`Text.CaseMapping`) rather than a Unicode table.
- Uuids.FromString: accepts only the canonical 36-character 8-4-4-4-12 text. `UUID.fromString` also accepts shorter groups such as "1-2-3-4-5" and a sign within a group, because it parses each group as a hexadecimal long; those texts are reported as errors here.
- **The message id type.** `MessageDao.getMessageById` declares a String id, while `MessageRepository.getMessageById` (`MessageRepository.kt:15-16`) passes it the parsed `UUID`. The model looks up by the parsed UUID.
- **Out-of-scope files.** The bitmap converters (`Converters.kt:24-40`) and the message icon are out, because they are foreign image codecs. The `TodoItem` repository, the legacy `data/UserPreferences.kt`, and the duplicate view models, screens and route files are out.
- **Integer widths.**
  - Credits are modelled as a 32-bit `Int` with wrap-around.
  - Other `Long` values (ids, timestamps, durations) are unbounded integers; overflow of 64-bit values is not modelled.
  - `FocusSessionStore.FocusCredits`: the narrowing of `duration / 60000` to `Int` is modelled, but its contract states the value only when the quotient fits.
- **`User.addCredits`.** Its definition is not part of this model. `LocalUsers.WithCredits` takes it as adding the amount to the balance with `Int` arithmetic.
- TodoStore.TodayRecord: reads `getTodayRecord`'s `date(date) = :date` as equality of epoch-day numbers. `TodoRecord.date` is a `LocalDate`, and neither converter class in the repository converts `LocalDate`, so what SQLite's `date()` sees in that column is not fixed by the code.
- **Swipe offset precision.** The card's swipe offset is a Compose `Float`; the model uses exact reals, so rounding of the accumulated offset near plus or minus the threshold is not modelled.
- **Bar heights.** The chart's bar heights (`WeeklyCompletedTasksChart.kt:63-72`) are floating-point drawing and are out.
- **`LocalDateTimeConverter.ParseOfFormat`.** Proved only from year 1 on; `LocalDateTimeConverter.FormatLosesEra` shows why earlier years do not round-trip.
- **The cursor's text format.** The cursor's default text is stored and returned as given; it is never connected to the space-separated pattern, because nothing in the code converts between them.

## Findings

| source | as written | input that shows it | evidently intended | confidence | as-written member | corrected member |
|---|---|---|---|---|---|---|
| app/src/main/java/com/xfei33/quicktodo/viewmodel/ProfileViewModel.kt:71-88 | visits run from the start time while before the end, stepping an hour, so the end's hour is visited only when the end's position in its hour is past the start's | a session from 10:30 to 11:15 on 1970-01-01 adds 30 minutes instead of 45 | every clock hour from the start's to the end's is visited, and a same-day session totals its minutes | not executed | Profile.AsWrittenDropsLastPartialHour | Profile.IntendedSessionTotalExact |
| app/src/main/java/com/xfei33/quicktodo/ui/todo/NewTodoDialog.kt:46 | the default priority is the label "中", not a code | confirming without a click stores "中": its badge is empty and the edit dialog selects nothing | the default is the code "MEDIUM" | not executed | NewTodo.DefaultPriorityHasNoBadge | NewTodo.IntendedHighlightFollowsClicks |
| app/src/main/java/com/xfei33/quicktodo/ui/todo/NewTodoDialog.kt:141-143 | buttons store codes but highlight by comparing with labels | clicking 高 stores "HIGH", and no button is then highlighted | highlight by code, as the edit dialog does | not executed | NewTodo.ClickClearsHighlight | NewTodo.IntendedHighlightFollowsClicks |
