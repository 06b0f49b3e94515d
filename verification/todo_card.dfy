/** A task's card on the list screen (`SwipeableTodoCard`): the swipe rule,
    the hint under the card, the priority badge, and the card's dialog and
    gesture state. The callbacks the card invokes (`onComplete`, `onEdit`,
    `onDelete`) are recorded as a log of actions. */
module TodoCards {
  import opened Wrappers
  import opened TodoStore
  import TodoList
  import opened Rows

  const Low := "LOW"
  const Medium := "MEDIUM"
  const High := "HIGH"

  /** The three priority codes a task stores. */
  predicate IsPriorityCode(p: string) {
    p == Low || p == Medium || p == High
  }

  /** `PriorityIndicator`'s text: the Chinese label of a code, empty for any
      other string. */
  function PriorityLabel(priority: string): (text: string)
    ensures text != "" <==> IsPriorityCode(priority)
    ensures text == "低" || text == "中" || text == "高" || text == ""
  {
    if priority == Low then "低"
    else if priority == Medium then "中"
    else if priority == High then "高"
    else ""
  }

  /** Different codes get different labels. */
  lemma PriorityLabelInjective(a: string, b: string)
    requires IsPriorityCode(a) && PriorityLabel(a) == PriorityLabel(b)
    ensures a == b
  {
  }

  /** The badge of a rendered card: `todo.priority!!` throws on a null
      priority. */
  function PriorityBadge(t: Todo): (r: Result<string>)
    ensures r.Ok? <==> t.priority.Some?
    ensures r.Ok? ==> r.value == PriorityLabel(t.priority.value)
  {
    if t.priority.Some? then Ok(PriorityLabel(t.priority.value))
    else Err("NullPointerException")
  }

  datatype SwipeDirection = NoSwipe | Left | Right

  /** The swipe state of an offset (pixels, positive to the right) against
      the threshold of 100dp. */
  function SwipeDirectionOf(offset: real, threshold: real): (d: SwipeDirection)
    requires threshold > 0.0
    ensures d == Right <==> offset > threshold
    ensures d == Left <==> offset < -threshold
    ensures d == NoSwipe <==> -threshold <= offset <= threshold
  {
    if offset > threshold then Right
    else if offset < -threshold then Left
    else NoSwipe
  }

  function Mirror(d: SwipeDirection): SwipeDirection {
    match d
    case NoSwipe => NoSwipe
    case Left => Right
    case Right => Left
  }

  /** The rule is symmetric: swiping the same distance the other way gives
      the opposite direction, and exactly the threshold is no swipe. */
  lemma SwipeSymmetric(offset: real, threshold: real)
    requires threshold > 0.0
    ensures SwipeDirectionOf(-offset, threshold) == Mirror(SwipeDirectionOf(offset, threshold))
    ensures SwipeDirectionOf(threshold, threshold) == NoSwipe
    ensures SwipeDirectionOf(-threshold, threshold) == NoSwipe
  {
  }

  /** The hint shown behind the card while it is dragged. */
  function HintText(d: SwipeDirection, completed: bool): (hint: string)
    ensures hint == "" <==> d == NoSwipe
    ensures hint == "编辑" <==> d == Left
    ensures d == Right ==> hint == (if completed then "标记为未完成" else "标记为完成")
  {
    match d
    case Right => if completed then "标记为未完成" else "标记为完成"
    case Left => "编辑"
    case NoSwipe => ""
  }

  /** A completion hint names the state a right swipe leads to: a completed
      task is offered "mark as not completed" and vice versa. */
  lemma RightHintNamesToggle(t: Todo)
    ensures HintText(Right, t.completed) == (if TodoList.Toggled(t).completed then "标记为完成" else "标记为未完成")
  {
  }

  /** The edit dialog's confirm: title, description, tag, due date and
      priority replaced; id, owner, completion, deletion and
      `lastModified` kept. */
  function Edited(t: Todo, title: string, description: Option<string>, tag: string, dueDate: int, priority: string): (r: Todo)
    ensures r.id == t.id && r.userId == t.userId && r.completed == t.completed
    ensures r.deleted == t.deleted && r.lastModified == t.lastModified
    ensures r.title == title && r.description == description && r.tag == tag
    ensures r.dueDate == dueDate && r.priority == Some(priority)
  {
    t.(title := title, description := description, tag := tag, dueDate := dueDate, priority := Some(priority))
  }

  /** An edit from the card keeps the old `lastModified`, so once the sync
      cursor has passed that stamp the incremental query never returns the
      edited task. */
  lemma CardEditInvisibleToSync(rows: seq<Todo>, t: Todo, title: string, description: Option<string>, tag: string,
                                dueDate: int, priority: string, userId: int, lastSyncTime: int)
    requires StrictlySortedBy(rows, IdOf) && t in rows && t.lastModified <= lastSyncTime
    ensures IncrementalData(ReplaceById(rows, Edited(t, title, description, tag, dueDate, priority)), userId, lastSyncTime)
         == IncrementalData(rows, userId, lastSyncTime)
  {
    EditKeepingStampInvisible(rows, t, Edited(t, title, description, tag, dueDate, priority), userId, lastSyncTime);
  }

  /** A callback the card invoked. */
  datatype CardAction = Complete(todo: Todo) | Edit(todo: Todo) | Delete(todo: Todo)

  class SwipeableTodoCard {
    var todo: Todo
    const threshold: real
    /** `swipeAnimatable.value`. */
    var offset: real
    var isSwiping: bool
    var showDeleteDialog: bool
    var showEditDialog: bool
    /** The callbacks invoked so far, oldest first. */
    var actions: seq<CardAction>

    predicate Valid()
      reads this
    {
      threshold > 0.0
    }

    function Direction(): SwipeDirection
      reads this
      requires Valid()
    {
      SwipeDirectionOf(offset, threshold)
    }

    constructor (todo: Todo, threshold: real)
      requires threshold > 0.0
      ensures Valid() && this.todo == todo && this.threshold == threshold
      ensures offset == 0.0 && !isSwiping && !showDeleteDialog && !showEditDialog && actions == []
    {
      this.todo := todo;
      this.threshold := threshold;
      offset := 0.0;
      isSwiping := false;
      showDeleteDialog := false;
      showEditDialog := false;
      actions := [];
    }

    /** `onDragStart`. */
    method DragStart()
      requires Valid()
      modifies this
      ensures Valid() && isSwiping
      ensures todo == old(todo) && offset == old(offset) && actions == old(actions)
      ensures showDeleteDialog == old(showDeleteDialog) && showEditDialog == old(showEditDialog)
    {
      isSwiping := true;
    }

    /** `onHorizontalDrag`: the card follows the finger. */
    method Drag(amount: real)
      requires Valid()
      modifies this
      ensures Valid() && offset == old(offset) + amount
      ensures todo == old(todo) && isSwiping == old(isSwiping) && actions == old(actions)
      ensures showDeleteDialog == old(showDeleteDialog) && showEditDialog == old(showEditDialog)
    {
      offset := offset + amount;
    }

    /** `onDragEnd`: past the threshold to the right completes the todo once,
        to the left opens the edit dialog; in every case the card springs
        back and the swipe ends. */
    method DragEnd()
      requires Valid()
      modifies this
      ensures Valid() && offset == 0.0 && !isSwiping && todo == old(todo)
      ensures actions == if old(Direction()) == Right then old(actions) + [Complete(todo)] else old(actions)
      ensures showEditDialog == (old(showEditDialog) || old(Direction()) == Left)
      ensures showDeleteDialog == old(showDeleteDialog)
    {
      match Direction() {
        case Right =>
          actions := actions + [Complete(todo)];
        case Left =>
          showEditDialog := true;
        case NoSwipe =>
      }
      offset := 0.0;
      isSwiping := false;
    }

    /** `onLongPress`: opens the delete confirmation. */
    method LongPress()
      requires Valid()
      modifies this
      ensures Valid() && showDeleteDialog
      ensures todo == old(todo) && offset == old(offset) && isSwiping == old(isSwiping)
      ensures actions == old(actions) && showEditDialog == old(showEditDialog)
    {
      showDeleteDialog := true;
    }

    /** The delete dialog's confirm button: the only place `onDelete` is
        called. */
    method ConfirmDelete()
      requires Valid()
      modifies this
      ensures Valid() && !showDeleteDialog && actions == old(actions) + [Delete(todo)]
      ensures todo == old(todo) && offset == old(offset) && isSwiping == old(isSwiping)
      ensures showEditDialog == old(showEditDialog)
    {
      actions := actions + [Delete(todo)];
      showDeleteDialog := false;
    }

    /** Dismissing or cancelling the delete dialog closes it and deletes
        nothing. */
    method DismissDelete()
      requires Valid()
      modifies this
      ensures Valid() && !showDeleteDialog && actions == old(actions)
      ensures todo == old(todo) && offset == old(offset) && isSwiping == old(isSwiping)
      ensures showEditDialog == old(showEditDialog)
    {
      showDeleteDialog := false;
    }

    /** The edit dialog's `onDismiss`. */
    method DismissEdit()
      requires Valid()
      modifies this
      ensures Valid() && !showEditDialog && actions == old(actions)
      ensures todo == old(todo) && offset == old(offset) && isSwiping == old(isSwiping)
      ensures showDeleteDialog == old(showDeleteDialog)
    {
      showEditDialog := false;
    }

    /** The edit dialog's `onConfirm`: the five edited fields are written
        onto the todo, `onEdit` gets the edited task, the dialog closes. */
    method ConfirmEdit(title: string, description: Option<string>, tag: string, dueDate: int, priority: string)
      requires Valid()
      modifies this
      ensures Valid() && !showEditDialog
      ensures todo == Edited(old(todo), title, description, tag, dueDate, priority)
      ensures actions == old(actions) + [Edit(todo)]
      ensures offset == old(offset) && isSwiping == old(isSwiping) && showDeleteDialog == old(showDeleteDialog)
    {
      todo := Edited(todo, title, description, tag, dueDate, priority);
      actions := actions + [Edit(todo)];
      showEditDialog := false;
    }
  }
}
