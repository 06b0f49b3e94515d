/** The `todos` and `todo_record` tables behind `TodoDao`.

    `todos` has an auto-generated integer primary key, so SQLite keeps its
    rows in ascending id order and a plain `SELECT` scans them in that order;
    `todo_record` is keyed by a UUID and is kept in insertion order. Times
    are the epoch seconds the type converter stores, dates are epoch days. */
module TodoStore {
  import opened Wrappers
  import opened Rows
  import Uuids

  /** A task (`model/Todo.kt`). */
  datatype Todo = Todo(
    id: int,
    title: string,
    description: Option<string>,
    dueDate: int,
    userId: int,
    priority: Option<string>,
    completed: bool,
    tag: string,
    lastModified: int,
    deleted: bool)

  /** A per-user, per-day completion counter (`model/TodoRecord.kt`). */
  datatype TodoRecord = TodoRecord(id: Uuids.Uuid, userId: int, date: int, completedCount: int)

  function IdOf(t: Todo): int { t.id }
  function DueDateOf(t: Todo): int { t.dueDate }
  predicate Live(t: Todo) { !t.deleted }

  function OwnedBy(userId: int): Todo -> bool {
    (t: Todo) => t.userId == userId
  }

  function LiveOwnedBy(userId: int): Todo -> bool {
    (t: Todo) => t.userId == userId && !t.deleted
  }

  /** `userId = :userId AND lastModified > :lastSyncTime` */
  function ChangedSince(userId: int, lastSyncTime: int): Todo -> bool {
    (t: Todo) => t.userId == userId && t.lastModified > lastSyncTime
  }

  function ModifiedAfter(lastSyncTime: int): Todo -> bool {
    (t: Todo) => t.lastModified > lastSyncTime
  }

  function OtherThan(id: int): Todo -> bool {
    (t: Todo) => t.id != id
  }

  // ---- The SELECTs ----

  /** `getTodosByUser`: the user's rows, deleted ones included, by due date. */
  function TodosByUser(rows: seq<Todo>, userId: int): seq<Todo> {
    SortBy(Filter(rows, OwnedBy(userId)), DueDateOf)
  }

  /** `getNotDeletedTodosByUser`: the user's rows not marked deleted, by due
      date. */
  function NotDeletedTodosByUser(rows: seq<Todo>, userId: int): seq<Todo> {
    SortBy(Filter(rows, LiveOwnedBy(userId)), DueDateOf)
  }

  /** `getIncrementalData`: the user's rows changed after the cursor, in scan
      order (the query has no `ORDER BY`). */
  function IncrementalData(rows: seq<Todo>, userId: int, lastSyncTime: int): seq<Todo> {
    Filter(rows, ChangedSince(userId, lastSyncTime))
  }

  /** `getTodoById`: the row with that id, or null. */
  function TodoById(rows: seq<Todo>, id: int): (r: Option<Todo>)
    ensures r.Some? <==> exists i :: 0 <= i < |rows| && rows[i].id == id
    ensures r.Some? ==> r.value in rows && r.value.id == id
  {
    if rows == [] then None
    else if rows[0].id == id then Some(rows[0])
    else
      var r := TodoById(rows[1..], id);
      assert forall i :: 1 <= i < |rows| ==> rows[i] == rows[1..][i - 1];
      r
  }

  /** `update`: the row with the same primary key is rewritten; with no such
      row nothing changes. */
  function ReplaceById(rows: seq<Todo>, t: Todo): (r: seq<Todo>)
    ensures |r| == |rows|
    ensures forall i :: 0 <= i < |rows| ==> r[i] == if rows[i].id == t.id then t else rows[i]
  {
    if rows == [] then []
    else [if rows[0].id == t.id then t else rows[0]] + ReplaceById(rows[1..], t)
  }

  /** `delete`: the row with that primary key is removed. */
  function RemoveById(rows: seq<Todo>, id: int): seq<Todo> {
    Filter(rows, OtherThan(id))
  }

  // ---- Properties of the SELECTs ----

  /** `getTodosByUser` lists exactly the user's rows, each as often as it is
      stored, deleted ones included, ascending by due date. */
  lemma TodosByUserExact(rows: seq<Todo>, userId: int)
    ensures SortedBy(TodosByUser(rows, userId), DueDateOf)
    ensures multiset(TodosByUser(rows, userId)) == multiset(Filter(rows, OwnedBy(userId)))
    ensures forall t :: t in TodosByUser(rows, userId) <==> t in rows && t.userId == userId
  {
    var f := Filter(rows, OwnedBy(userId));
    FilterMembers(rows, OwnedBy(userId));
    forall t ensures t in TodosByUser(rows, userId) <==> t in rows && t.userId == userId {
      calc {
        t in TodosByUser(rows, userId);
        t in multiset(TodosByUser(rows, userId));
        t in multiset(f);
        t in f;
      }
      if t in rows && t.userId == userId {
        var i :| 0 <= i < |rows| && rows[i] == t;
      }
    }
  }

  /** `getNotDeletedTodosByUser` is `getTodosByUser` with the deleted rows
      left out and the rest in the same order. */
  lemma NotDeletedIsLiveSubsequence(rows: seq<Todo>, userId: int)
    ensures NotDeletedTodosByUser(rows, userId) == Filter(TodosByUser(rows, userId), Live)
    ensures Subsequence(NotDeletedTodosByUser(rows, userId), TodosByUser(rows, userId))
    ensures forall t :: t in NotDeletedTodosByUser(rows, userId) ==>
      t in rows && t.userId == userId && !t.deleted
  {
    var owned := Filter(rows, OwnedBy(userId));
    FilterSortBy(owned, DueDateOf, Live);
    FilterFilter(rows, OwnedBy(userId), Live, LiveOwnedBy(userId));
    FilterIsSubsequence(TodosByUser(rows, userId), Live);
    FilterMembers(TodosByUser(rows, userId), Live);
    TodosByUserExact(rows, userId);
    var live := NotDeletedTodosByUser(rows, userId);
    forall t | t in live ensures t in rows && t.userId == userId && !t.deleted {
      var i :| 0 <= i < |live| && live[i] == t;
      assert t in TodosByUser(rows, userId);
    }
  }

  /** `getIncrementalData` returns a row exactly when it belongs to the user
      and was modified strictly after the cursor: a row stamped at the cursor
      itself is left out, and rows marked deleted are not filtered out. */
  lemma IncrementalDataExact(rows: seq<Todo>, userId: int, lastSyncTime: int)
    ensures forall t :: t in IncrementalData(rows, userId, lastSyncTime) <==>
      t in rows && t.userId == userId && t.lastModified > lastSyncTime
    ensures Subsequence(IncrementalData(rows, userId, lastSyncTime), rows)
  {
    FilterMembers(rows, ChangedSince(userId, lastSyncTime));
    FilterIsSubsequence(rows, ChangedSince(userId, lastSyncTime));
    var r := IncrementalData(rows, userId, lastSyncTime);
    forall t | t in r ensures t in rows && t.userId == userId && t.lastModified > lastSyncTime {
      var i :| 0 <= i < |r| && r[i] == t;
    }
    forall t | t in rows && t.userId == userId && t.lastModified > lastSyncTime ensures t in r {
      var i :| 0 <= i < |rows| && rows[i] == t;
    }
  }

  /** A later cursor selects a sub-sequence of what an earlier one selects:
      exactly the earlier result's rows modified after the later cursor. */
  lemma IncrementalDataAntitone(rows: seq<Todo>, userId: int, earlier: int, later: int)
    requires earlier <= later
    ensures IncrementalData(rows, userId, later)
         == Filter(IncrementalData(rows, userId, earlier), ModifiedAfter(later))
    ensures Subsequence(IncrementalData(rows, userId, later), IncrementalData(rows, userId, earlier))
  {
    FilterFilter(rows, ChangedSince(userId, earlier), ModifiedAfter(later), ChangedSince(userId, later));
    FilterIsSubsequence(IncrementalData(rows, userId, earlier), ModifiedAfter(later));
  }

  /** With unique ids, the lookup finds the one stored row with that id. */
  lemma TodoByIdFinds(rows: seq<Todo>, t: Todo)
    requires StrictlySortedBy(rows, IdOf)
    requires t in rows
    ensures TodoById(rows, t.id) == Some(t)
  {
    var r := TodoById(rows, t.id).value;
    var i :| 0 <= i < |rows| && rows[i] == t;
    var j :| 0 <= j < |rows| && rows[j] == r;
  }

  // ---- Properties of the writes ----

  /** After an insert under a new id the lookup finds the inserted row, and
      every other lookup is as before. */
  lemma InsertThenGet(rows: seq<Todo>, t: Todo, id: int)
    requires StrictlySortedBy(rows, IdOf) && TodoById(rows, t.id).None?
    ensures StrictlySortedBy(InsertBy(t, rows, IdOf), IdOf)
    ensures TodoById(InsertBy(t, rows, IdOf), id) == if id == t.id then Some(t) else TodoById(rows, id)
  {
    var after := InsertBy(t, rows, IdOf);
    InsertByStrict(t, rows, IdOf);
    InsertByMultiset(t, rows, IdOf);
    assert t in multiset(after);
    if id == t.id {
      TodoByIdFinds(after, t);
    } else if TodoById(after, id).Some? {
      var v := TodoById(after, id).value;
      assert v in multiset(after);
      assert v in rows;
    }
    if id != t.id && TodoById(rows, id).Some? {
      var u := TodoById(rows, id).value;
      assert u in multiset(after);
      TodoByIdFinds(after, u);
      TodoByIdFinds(rows, u);
    }
  }

  /** After an update the lookup of that id finds the new row if the id was
      stored, and every other lookup is as before. */
  lemma UpdateThenGet(rows: seq<Todo>, t: Todo, id: int)
    requires StrictlySortedBy(rows, IdOf)
    ensures StrictlySortedBy(ReplaceById(rows, t), IdOf)
    ensures TodoById(ReplaceById(rows, t), id)
         == if id == t.id && TodoById(rows, id).Some? then Some(t) else TodoById(rows, id)
  {
    var after := ReplaceById(rows, t);
    assert forall i :: 0 <= i < |rows| ==> IdOf(after[i]) == IdOf(rows[i]);
    var r := TodoById(after, id);
    if r.Some? {
      var i :| 0 <= i < |after| && after[i] == r.value;
      if id == t.id {
        assert rows[i].id == id;
        TodoByIdFinds(after, t);
      } else {
        assert after[i] == rows[i];
        TodoByIdFinds(rows, rows[i]);
      }
    }
  }

  /** A physical delete leaves nothing behind: the lookup finds no row, and
      the incremental query can never report the deletion; the rest of its
      result is as before. */
  lemma DeleteLeavesNoTombstone(rows: seq<Todo>, id: int, userId: int, lastSyncTime: int)
    ensures TodoById(RemoveById(rows, id), id).None?
    ensures forall t :: t in IncrementalData(RemoveById(rows, id), userId, lastSyncTime) ==> t.id != id
    ensures IncrementalData(RemoveById(rows, id), userId, lastSyncTime)
         == Filter(IncrementalData(rows, userId, lastSyncTime), OtherThan(id))
  {
    var after := RemoveById(rows, id);
    FilterMembers(rows, OtherThan(id));
    var both := (t: Todo) => t.id != id && t.userId == userId && t.lastModified > lastSyncTime;
    FilterFilter(rows, OtherThan(id), ChangedSince(userId, lastSyncTime), both);
    FilterFilter(rows, ChangedSince(userId, lastSyncTime), OtherThan(id), both);
    IncrementalDataExact(after, userId, lastSyncTime);
    forall t | t in after ensures t.id != id {
      var i :| 0 <= i < |after| && after[i] == t;
    }
  }

  /** An update that keeps `lastModified` at or before the cursor is
      invisible to the incremental query: its result is exactly as before. */
  lemma UpdateKeepingStampInvisible(rows: seq<Todo>, t: Todo, userId: int, lastSyncTime: int)
    requires t.lastModified <= lastSyncTime
    requires forall i :: 0 <= i < |rows| && rows[i].id == t.id ==> rows[i].lastModified == t.lastModified
    ensures IncrementalData(ReplaceById(rows, t), userId, lastSyncTime) == IncrementalData(rows, userId, lastSyncTime)
  {
    ReplaceInvisible(rows, t, ChangedSince(userId, lastSyncTime));
  }

  /** Writing back a stored row with its `lastModified` unchanged, however
      its other fields were edited, is invisible to any cursor at or after
      that stamp. */
  lemma EditKeepingStampInvisible(rows: seq<Todo>, before: Todo, after: Todo, userId: int, lastSyncTime: int)
    requires StrictlySortedBy(rows, IdOf) && before in rows
    requires after.id == before.id && after.lastModified == before.lastModified
    requires before.lastModified <= lastSyncTime
    ensures IncrementalData(ReplaceById(rows, after), userId, lastSyncTime) == IncrementalData(rows, userId, lastSyncTime)
  {
    forall i | 0 <= i < |rows| && rows[i].id == after.id
      ensures rows[i].lastModified == after.lastModified
    {
      TodoByIdFinds(rows, before);
      TodoByIdFinds(rows, rows[i]);
    }
    UpdateKeepingStampInvisible(rows, after, userId, lastSyncTime);
  }

  lemma {:induction false} ReplaceInvisible(rows: seq<Todo>, t: Todo, p: Todo -> bool)
    requires !p(t)
    requires forall i :: 0 <= i < |rows| && rows[i].id == t.id ==> !p(rows[i])
    ensures Filter(ReplaceById(rows, t), p) == Filter(rows, p)
    decreases |rows|
  {
    if rows != [] {
      assert forall i :: 1 <= i < |rows| ==> rows[i] == rows[1..][i - 1];
      ReplaceInvisible(rows[1..], t, p);
      var head := if rows[0].id == t.id then t else rows[0];
      assert ReplaceById(rows, t) == [head] + ReplaceById(rows[1..], t);
      FilterCons(head, ReplaceById(rows[1..], t), p);
    }
  }

  lemma InsertByBound(t: Todo, rows: seq<Todo>, bound: int)
    requires t.id <= bound
    requires forall i :: 0 <= i < |rows| ==> rows[i].id <= bound
    ensures forall i :: 0 <= i < |InsertBy(t, rows, IdOf)| ==> InsertBy(t, rows, IdOf)[i].id <= bound
  {
    var after := InsertBy(t, rows, IdOf);
    InsertByMultiset(t, rows, IdOf);
    forall i | 0 <= i < |after| ensures after[i].id <= bound {
      assert after[i] in multiset(after);
      if after[i] != t {
        assert after[i] in rows;
      }
    }
  }

  /** Appending a row whose id exceeds the bound on every stored id keeps
      the table ascending and within the raised bound. */
  lemma AppendAboveBound(rows: seq<Todo>, t: Todo, bound: int)
    requires StrictlySortedBy(rows, IdOf)
    requires forall i :: 0 <= i < |rows| ==> rows[i].id <= bound
    requires t.id == bound + 1
    ensures StrictlySortedBy(rows + [t], IdOf)
    ensures forall i :: 0 <= i < |rows + [t]| ==> (rows + [t])[i].id <= t.id
  {
    var after := rows + [t];
    assert forall i :: 0 <= i < |rows| ==> after[i] == rows[i];
  }

  /** Rewriting a row keeps every position's id. */
  lemma ReplaceKeepsIds(rows: seq<Todo>, t: Todo)
    ensures |ReplaceById(rows, t)| == |rows|
    ensures forall i :: 0 <= i < |rows| ==> ReplaceById(rows, t)[i].id == rows[i].id
  {
  }

  // ---- todo_record ----

  function RecordIdOf(r: TodoRecord): Uuids.Uuid { r.id }

  /** `getTodayRecord`: the first record of that user on that date, or
      null. */
  function TodayRecord(records: seq<TodoRecord>, userId: int, date: int): (r: Option<TodoRecord>)
    ensures r.Some? <==> exists i :: 0 <= i < |records| && records[i].userId == userId && records[i].date == date
    ensures r.Some? ==> r.value in records && r.value.userId == userId && r.value.date == date
  {
    if records == [] then None
    else if records[0].userId == userId && records[0].date == date then Some(records[0])
    else
      assert forall i :: 1 <= i < |records| ==> records[i] == records[1..][i - 1];
      TodayRecord(records[1..], userId, date)
  }

  /** The two tables as the DAO sees them, with the autoincrement counter of
      `todos` (the largest id it has ever handed out or been given). */
  class TodoDao {
    var todos: seq<Todo>
    var sequence: int
    var records: seq<TodoRecord>

    predicate Valid()
      reads this
    {
      StrictlySortedBy(todos, IdOf)
      && 0 <= sequence
      && (forall i :: 0 <= i < |todos| ==> todos[i].id <= sequence)
      && UniqueKeys(records, RecordIdOf)
    }

    constructor ()
      ensures Valid() && todos == [] && sequence == 0 && records == []
    {
      todos := [];
      sequence := 0;
      records := [];
    }

    function GetTodosByUser(userId: int): (r: seq<Todo>)
      reads this
      ensures SortedBy(r, DueDateOf)
      ensures multiset(r) == multiset(Filter(todos, OwnedBy(userId)))
    {
      TodosByUserExact(todos, userId);
      TodosByUser(todos, userId)
    }

    function GetNotDeletedTodosByUser(userId: int): (r: seq<Todo>)
      reads this
      ensures Subsequence(r, TodosByUser(todos, userId))
      ensures forall t :: t in r ==> t in todos && t.userId == userId && !t.deleted
    {
      NotDeletedIsLiveSubsequence(todos, userId);
      NotDeletedTodosByUser(todos, userId)
    }

    function GetIncrementalData(userId: int, lastSyncTime: int): (r: seq<Todo>)
      reads this
      ensures forall t :: t in r <==> t in todos && t.userId == userId && t.lastModified > lastSyncTime
    {
      IncrementalDataExact(todos, userId, lastSyncTime);
      IncrementalData(todos, userId, lastSyncTime)
    }

    function GetTodoById(id: int): (r: Option<Todo>)
      reads this
      ensures r.Some? <==> exists i :: 0 <= i < |todos| && todos[i].id == id
      ensures r.Some? ==> r.value in todos && r.value.id == id
    {
      TodoById(todos, id)
    }

    function GetTodayRecord(userId: int, date: int): (r: Option<TodoRecord>)
      reads this
      ensures r.Some? <==> exists i :: 0 <= i < |records| && records[i].userId == userId && records[i].date == date
      ensures r.Some? ==> r.value in records && r.value.userId == userId && r.value.date == date
    {
      TodayRecord(records, userId, date)
    }

    /** `insert` with the default ABORT strategy. Id 0 is "not set": the row
        gets the next autoincrement id. A given id that is already stored
        makes the insert fail with the table unchanged; a new given id is
        stored as is and raises the counter if it is larger. */
    method Insert(todo: Todo) returns (inserted: bool)
      requires Valid()
      modifies this
      ensures Valid() && records == old(records)
      ensures todo.id == 0 ==>
        inserted && sequence == old(sequence) + 1
        && todos == old(todos) + [todo.(id := old(sequence) + 1)]
      ensures todo.id != 0 && TodoById(old(todos), todo.id).Some? ==>
        !inserted && todos == old(todos) && sequence == old(sequence)
      ensures todo.id != 0 && TodoById(old(todos), todo.id).None? ==>
        inserted && todos == InsertBy(todo, old(todos), IdOf)
        && sequence == if todo.id > old(sequence) then todo.id else old(sequence)
    {
      if todo.id == 0 {
        var row := todo.(id := sequence + 1);
        AppendAboveBound(todos, row, sequence);
        todos := todos + [row];
        sequence := sequence + 1;
        inserted := true;
      } else if TodoById(todos, todo.id).Some? {
        inserted := false;
      } else {
        InsertThenGet(todos, todo, todo.id);
        var bound := if todo.id > sequence then todo.id else sequence;
        InsertByBound(todo, todos, bound);
        todos := InsertBy(todo, todos, IdOf);
        sequence := bound;
        inserted := true;
      }
    }

    /** `update`: rewrites the row with the same id; other rows and the
        counter are untouched. */
    method Update(todo: Todo)
      requires Valid()
      modifies this
      ensures Valid() && todos == ReplaceById(old(todos), todo)
      ensures sequence == old(sequence) && records == old(records)
    {
      UpdateThenGet(todos, todo, todo.id);
      ReplaceKeepsIds(todos, todo);
      todos := ReplaceById(todos, todo);
    }

    /** `delete`: removes the row with the todo's id. The counter keeps its
        value, so the id is never handed out again. */
    method Delete(todo: Todo)
      requires Valid()
      modifies this
      ensures Valid() && todos == RemoveById(old(todos), todo.id)
      ensures sequence == old(sequence) && records == old(records)
    {
      var before := todos;
      FilterStrictlySorted(todos, IdOf, OtherThan(todo.id));
      FilterMembers(todos, OtherThan(todo.id));
      todos := RemoveById(todos, todo.id);
      forall i | 0 <= i < |todos| ensures todos[i].id <= sequence {
        assert todos[i] in before;
      }
    }

    /** `insertOrUpdate` on `todo_record` (REPLACE). */
    method InsertOrUpdate(record: TodoRecord)
      requires Valid()
      modifies this
      ensures Valid() && records == Upsert(old(records), record, RecordIdOf)
      ensures todos == old(todos) && sequence == old(sequence)
    {
      UpsertReplaces(records, record, RecordIdOf);
      records := Upsert(records, record, RecordIdOf);
    }
  }
}
