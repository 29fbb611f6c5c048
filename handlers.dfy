/** The event handlers that compose the store and the state holders: the new
    note form (`NewTodoForm`, src/Todo.js:104-122), the edit modal
    (`EditTodoModal`, src/Todo.js:156-181), the drawer's delete button
    (`TodoOptionDrawer`, src/Todo.js:227-238) and the three notes added when
    the page mounts (src/Todo.js:408-412). The browser's `alert`, `confirm`
    and input focus are not modelled: the text typed, the answer to the
    confirmation and the clock readings are parameters. */
module Handlers {
  import opened Wrappers
  import opened Text
  import opened DateFormat
  import opened Notes
  import opened TodosStore
  import opened UiState

  /** How a handler ended: the empty-text `alert`, a declined confirmation,
      a `TypeError` from reading `todo.id` when no note was found, or normally. */
  datatype Outcome = Alerted | Declined | Threw | Done

  /** The note the drawer's selection resolves to, as looked up when the
      drawer renders (`findTodoById(state.todoId)`, src/Todo.js:238); a `null`
      selection matches no note. */
  function Selected(todos: seq<Note>, todoId: Option<nat>): (r: Option<Note>)
    ensures r.Some? ==> todoId.Some? && r.value.id == todoId.value && r.value in todos
    ensures r.None? <==> todoId.None? || Absent(todos, todoId.value)
    ensures r.Some? ==> r == Find(todos, todoId.value)
  {
    match todoId
    case None => None
    case Some(id) => Find(todos, id)
  }

  method LookUpSelected(todosState: TodosState, drawer: TodoOptionDrawerState) returns (todo: Option<Note>)
    requires todosState.Valid()
    ensures todo == Selected(todosState.todos, drawer.todoId)
  {
    match drawer.todoId
    case None =>
      todo := None;
    case Some(id) =>
      todo := todosState.FindTodoById(id);
      NewestFirstUnique(todosState.todos);
      if todo.Some? {
        var k :| 0 <= k < |todosState.todos| && todosState.todos[k] == todo.value;
        FindUnique(todosState.todos, k);
      }
  }

  /** The new note form's `onSubmit`: text that trims to nothing is refused
      with an alert and changes nothing; otherwise the trimmed text is added
      and a success notice names the new id. */
  method SubmitNewTodo(todosState: TodosState, notice: NoticeSnackBarState, input: string, now: DateTime)
    returns (outcome: Outcome)
    requires todosState.Valid()
    modifies todosState, notice
    ensures todosState.Valid()
    ensures outcome == Alerted || outcome == Done
    ensures outcome == Alerted <==> Trim(input) == []
    ensures outcome == Alerted ==> unchanged(todosState) && unchanged(notice)
    ensures outcome == Done ==>
      var id := old(todosState.lastTodoId) + 1;
      && todosState.lastTodoId == id && id !in old(todosState.issued)
      && todosState.todos == [Note(id, Trim(input), DateToStr(now))] + old(todosState.todos)
      && notice.isOpened && notice.severity == Some(Success) && notice.autoHideDuration == Some(6000)
      && notice.msg == Some("Added to-do number " + NatToString(id) + ".")
  {
    var content := Trim(input);
    if |content| == 0 {
      return Alerted;
    }
    var newTodoId := todosState.AddTodo(content, now);
    notice.Open("Added to-do number " + NatToString(newTodoId) + ".");
    return Done;
  }

  /** The edit modal's `close`: closes the modal and the drawer. */
  method CloseEditModal(modal: EditTodoModalState, drawer: TodoOptionDrawerState)
    modifies modal, drawer
    ensures !modal.isOpened && !drawer.Opened()
  {
    modal.Close();
    drawer.Close();
  }

  /** The edit modal's `onSubmit`: text that trims to nothing is refused with
      an alert; with no note behind the selection, reading `todo.id` throws
      before anything changes; otherwise the selected note gets the trimmed
      text, modal and drawer close, and an info notice names the id. */
  method SubmitEditTodo(modal: EditTodoModalState, drawer: TodoOptionDrawerState, todosState: TodosState,
                        notice: NoticeSnackBarState, input: string)
    returns (outcome: Outcome)
    requires todosState.Valid()
    modifies modal, drawer, todosState, notice
    ensures todosState.Valid()
    ensures outcome == Alerted <==> Trim(input) == []
    ensures outcome == Threw <==> Trim(input) != [] && Selected(old(todosState.todos), old(drawer.todoId)).None?
    ensures outcome == Alerted || outcome == Threw || outcome == Done
    ensures outcome != Done ==> unchanged(modal, drawer, todosState, notice)
    ensures outcome == Done ==>
      var target := Selected(old(todosState.todos), old(drawer.todoId)).value;
      && todosState.todos == ModifyById(old(todosState.todos), target.id, Trim(input))
      && Find(todosState.todos, target.id) == Some(Note(target.id, Trim(input), target.regDate))
      && todosState.lastTodoId == old(todosState.lastTodoId)
      && !modal.isOpened && !drawer.Opened()
      && notice.isOpened && notice.severity == Some(Info) && notice.autoHideDuration == Some(6000)
      && notice.msg == Some("Changed to-do number " + NatToString(target.id) + ".")
  {
    var todo := LookUpSelected(todosState, drawer);
    var content := Trim(input);
    if |content| == 0 {
      return Alerted;
    }
    if todo == None {
      return Threw;
    }
    var id := todo.value.id;
    EditFindsNewContent(todosState.todos, todo.value, content);
    todosState.ModifyTodoById(id, content);
    CloseEditModal(modal, drawer);
    notice.Open("Changed to-do number " + NatToString(id) + ".", Info);
    return Done;
  }

  /** Editing a note of a newest-first list by its id leaves the lookup of
      that id returning the note with the new content, same id and date. */
  lemma EditFindsNewContent(s: seq<Note>, n: Note, content: string)
    requires NewestFirst(s) && n in s
    ensures Find(ModifyById(s, n.id, content), n.id) == Some(Note(n.id, content, n.regDate))
  {
    var k :| 0 <= k < |s| && s[k] == n;
    NewestFirstUnique(s);
    ModifyByIdPresent(s, k, content);
  }

  /** The drawer's delete button. Declining the confirmation only closes the
      drawer. Accepting removes the selected note (a `null` or stale selection
      removes nothing), closes the drawer and shows an info notice naming the
      id; when no note was behind the selection, reading `todo.id` throws
      after the removal and the close, and no notice opens. */
  method RemoveSelectedTodo(drawer: TodoOptionDrawerState, todosState: TodosState,
                            notice: NoticeSnackBarState, confirmed: bool)
    returns (outcome: Outcome)
    requires todosState.Valid()
    modifies drawer, todosState, notice
    ensures todosState.Valid() && !drawer.Opened()
    ensures todosState.lastTodoId == old(todosState.lastTodoId)
    ensures !confirmed ==> outcome == Declined && unchanged(todosState) && unchanged(notice)
    ensures confirmed && old(drawer.todoId) == None ==> todosState.todos == old(todosState.todos)
    ensures confirmed && old(drawer.todoId) != None ==>
      && todosState.todos == RemoveById(old(todosState.todos), old(drawer.todoId).value)
      && Absent(todosState.todos, old(drawer.todoId).value)
    ensures confirmed && Selected(old(todosState.todos), old(drawer.todoId)).None? ==>
      outcome == Threw && unchanged(notice)
    ensures confirmed && Selected(old(todosState.todos), old(drawer.todoId)).Some? ==>
      && outcome == Done
      && |todosState.todos| == |old(todosState.todos)| - 1
      && notice.isOpened && notice.severity == Some(Info) && notice.autoHideDuration == Some(6000)
      && notice.msg == Some("Deleted to-do number" + NatToString(old(drawer.todoId).value) + ".")
  {
    var todo := LookUpSelected(todosState, drawer);
    if !confirmed {
      drawer.Close();
      return Declined;
    }
    match drawer.todoId {
      case None =>
        todosState.RemoveTodo(-1);
      case Some(id) =>
        NewestFirstUnique(todosState.todos);
        if todo.Some? {
          ghost var k :| 0 <= k < |todosState.todos| && todosState.todos[k] == todo.value;
          RemoveByIdPresent(todosState.todos, k);
        } else {
          ByIdAbsent(todosState.todos, id, []);
        }
        todosState.RemoveTodoById(id);
    }
    drawer.Close();
    if todo == None {
      return Threw;
    }
    notice.Open("Deleted to-do number" + NatToString(todo.value.id) + ".", Info);
    return Done;
  }

  /** The mount effect: three notes added in order to a fresh store, which
      then lists them newest first with ids 3, 2, 1. */
  method SeedTodos(todosState: TodosState, now1: DateTime, now2: DateTime, now3: DateTime)
    requires todosState.Valid() && todosState.todos == [] && todosState.lastTodoId == 0
    modifies todosState
    ensures todosState.Valid() && todosState.lastTodoId == 3
    ensures todosState.todos == [
      Note(3, "공부", DateToStr(now3)),
      Note(2, "요리", DateToStr(now2)),
      Note(1, "운동\n스트레칭\n유산소\n런지\n스쿼트", DateToStr(now1))]
  {
    var first := todosState.AddTodo("운동\n스트레칭\n유산소\n런지\n스쿼트", now1);
    assert first == 1;
    var second := todosState.AddTodo("요리", now2);
    assert second == 2;
    var third := todosState.AddTodo("공부", now3);
    assert third == 3;
  }
}
