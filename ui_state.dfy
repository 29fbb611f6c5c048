/** The small state holders around the store: the notification snackbar
    (`useNoticeSnackBarState`, src/Todo.js:363-388), the option drawer's
    selected note (`useTodoOptionDrawerState`, src/Todo.js:143-154) and the
    edit modal's open flag (`useEditTodoModalState`, src/Todo.js:211-225). */
module UiState {
  import opened Wrappers

  /** The alert severities the snackbar can show. */
  datatype Severity = Success | Info | Warning | Error

  /** The single transient notification. Every field but `opened` (here `isOpened`, since `opened` is a Dafny keyword) starts as
      `null`. */
  class NoticeSnackBarState {
    var isOpened: bool
    var autoHideDuration: Option<nat>
    var severity: Option<Severity>
    var msg: Option<string>

    constructor ()
      ensures !isOpened && autoHideDuration == None && severity == None && msg == None
    {
      isOpened := false;
      autoHideDuration := None;
      severity := None;
      msg := None;
    }

    /** `open(msg, severity = "success", autoHideDuration = 6000)`: shows the
        message, replacing whatever was shown before. */
    method Open(message: string, level: Severity := Success, duration: nat := 6000)
      modifies this
      ensures isOpened && msg == Some(message) && severity == Some(level)
      ensures autoHideDuration == Some(duration)
    {
      isOpened := true;
      autoHideDuration := Some(duration);
      severity := Some(level);
      msg := Some(message);
    }

    /** `close()`: hides the snackbar and keeps message, severity and duration. */
    method Close()
      modifies this
      ensures !isOpened
      ensures msg == old(msg) && severity == old(severity) && autoHideDuration == old(autoHideDuration)
    {
      isOpened := false;
    }
  }

  /** The note the bottom drawer acts on; `None` is the source's `null`. */
  class TodoOptionDrawerState {
    var todoId: Option<nat>

    /** `opened`, derived from `todoId`. */
    predicate Opened()
      reads this
    {
      todoId != None
    }

    constructor ()
      ensures todoId == None && !Opened()
    {
      todoId := None;
    }

    /** `open(id)`: targets the note `id`, without checking that it exists. */
    method Open(id: nat)
      modifies this
      ensures todoId == Some(id) && Opened()
    {
      todoId := Some(id);
    }

    /** `close()`: clears the target. */
    method Close()
      modifies this
      ensures todoId == None && !Opened()
    {
      todoId := None;
    }
  }

  /** Whether the edit form is shown. */
  class EditTodoModalState {
    var isOpened: bool

    constructor ()
      ensures !isOpened
    {
      isOpened := false;
    }

    method Open()
      modifies this
      ensures isOpened
    {
      isOpened := true;
    }

    method Close()
      modifies this
      ensures !isOpened
    {
      isOpened := false;
    }
  }
}
