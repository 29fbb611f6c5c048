# To-do note pad: the note store and its state holders

A model of the in-memory bookkeeping of a single-page to-do list (`src/Todo.js`).
The page keeps an ordered list of notes `{id, content, regDate}`, newest first,
and an id counter that only goes up (`useTodosState`). Around it sit three small
state holders: the notification snackbar (`useNoticeSnackBarState`), the option
drawer's selected note (`useTodoOptionDrawerState`) and the edit modal's open
flag (`useEditTodoModalState`). The form and button handlers compose them: add a
note, edit the selected note, delete the selected note after a confirmation.
The registration date is printed by `dateToStr`.

Modules, one per part of the source:

- `Wrappers` (`wrappers.dfy`): `Option`, for the source's `null`.
- `Text` (`text.dfy`): `String.prototype.trim` over the exact ECMAScript whitespace set.
- `DateFormat` (`date_format.dfy`): `dateToStr` and `pad`. The clock fields are given as a `DateTime` value. A parser of the printed form reads every field back (`ParseDateStr`, `DateToStrRoundTrip`).
- `Notes` (`notes.dfy`): the note record and the list transforms the store applies. `findIndex`, the `map` of `modifyTodo` and the `filter` of `removeTodo` are recursive functions. The lemmas cover uniqueness, order and "only the targeted note changes".
- `TodosStore` (`todos_state.dfy`): class `TodosState`. It has the `todos` list, the `lastTodoId` counter and a ghost set of every id issued so far. Its invariant: ids strictly decrease along the list, every id was issued, and the issued ids are exactly `1..lastTodoId`.
- `UiState` (`ui_state.dfy`): the snackbar, drawer and modal classes. The source's field `opened` is named `isOpened` here, because `opened` is a Dafny keyword.
- `Handlers` (`handlers.dfy`): the add, edit and delete handlers and the three notes added on mount. The typed text, the answer to `confirm` and the clock readings are parameters.

Notes on the code as written:

- The year is printed unpadded, so it is `Y-MM-DD HH:MM:SS`.
- Closing the drawer does not close the edit modal. The two hooks are independent, and only the modal's own `close` (src/Todo.js:163-166) closes both.
- The delete notice is modelled as written, with no space before the id: `"Deleted to-do number" + id + "."`.

## Model

| member | source | states |
|---|---|---|
| `Text.SkipForward` | src/Todo.js:110 | stops at the first non-whitespace character at or after the start position (or at the end); everything skipped is whitespace |
| `Text.SkipBackward` | src/Todo.js:171 | stops just after the last non-whitespace character before the end position, going no lower than the given bound; everything skipped is whitespace |
| `Text.Trim` | src/Todo.js:110 | the trimmed text is the slice of the input that starts after its leading whitespace, with only whitespace before and after it, and it neither starts nor ends with whitespace |
| `Text.TrimEmptyIff` | src/Todo.js:112 | the trimmed text is empty exactly when the input is whitespace only (the condition for rejecting a submission) |
| `Text.TrimIdempotent` | src/Todo.js:110 | trimming already trimmed text changes nothing |
| `DateFormat.NatToString` | src/Todo.js:453 | a number prints as at least one decimal digit, with no leading zero unless it is 0, and as one digit exactly when it is below 10 |
| `DateFormat.NatToStringRoundTrip` | src/Todo.js:456-468 | reading the printed digits back gives the number |
| `DateFormat.Pad` | src/Todo.js:452-454 | `pad` gives only digits, at least two of them, exactly two below 100, with a leading "0" below 10 |
| `DateFormat.PadDigits` | src/Todo.js:452-454 | `pad` gives at least two digits that read back as the value; below 100 it gives exactly the tens digit and then the units digit |
| `DateFormat.DateToStr` | src/Todo.js:451-469 | the date string is at least fifteen characters longer than the printed year, and exactly fifteen for any date a clock reports, since each padded field then has two digits |
| `DateFormat.DateToStrLayout` | src/Todo.js:456-468 | for any clock reading, the date string is the unpadded year, then `-MM-DD HH:MM:SS` at fixed offsets, with month + 1 and the other fields padded |
| `DateFormat.DateToStrRoundTrip` | src/Todo.js:451-469 | for any clock reading, the string is fifteen characters longer than the year, and every field, including the 0-based month, parses back from it |
| `Notes.FindIndex` | src/Todo.js:76-78 | the result is -1 exactly when no note has the id; otherwise it is the first position holding the id |
| `Notes.Find` | src/Todo.js:67-74 | the result is None exactly when no note has the id; otherwise it is the note at the first position holding that id |
| `Notes.ModifyAt` | src/Todo.js:41-44 | same length; the note at the index gets the new content and keeps its id and date; every other position is unchanged; an index outside the list changes nothing |
| `Notes.RemoveAt` | src/Todo.js:57-58 | an index inside the list drops exactly that note and keeps the rest in order; any other index, -1 included, leaves the list unchanged |
| `Notes.ModifyById` | src/Todo.js:48-55 | same length; the first note holding the id gets the new content, keeping its id and date; every other note is unchanged, so a missing id changes nothing |
| `Notes.RemoveById` | src/Todo.js:62-65 | the first note holding the id is dropped and the rest keep their order; a missing id leaves the list unchanged |
| `Notes.NewestFirstUnique` | src/Todo.js:36 | a list whose ids strictly decrease holds no id twice |
| `Notes.FindUnique` | src/Todo.js:67-78 | with unique ids, the lookup of a note's id returns that note's position and that note |
| `Notes.ModifyByIdKeepsIds` | src/Todo.js:48-55 | modifying by id keeps every id and date in place, so the newest-first order and the issued-id bound are preserved |
| `Notes.ByIdAbsent` | src/Todo.js:48-78 | for an id no note has, modify and remove by id leave the list unchanged and the lookup returns None |
| `Notes.ModifyByIdPresent` | src/Todo.js:41-55 | with unique ids, modifying by id replaces only that note's content at its position; the lookup then returns the note with the new content, same id and same date |
| `Notes.RemoveByIdPresent` | src/Todo.js:57-65 | with unique ids, removing by id drops exactly that note and keeps the others in order; the lookup then returns None |
| `Notes.RemoveAtKeepsOrder` | src/Todo.js:57-60 | removing at any index keeps the list newest-first and within the issued ids |
| `Notes.PrependNext` | src/Todo.js:27-38 | prepending a note with counter + 1 keeps the list newest-first and within the new counter; the id was in no earlier note, and the lookup finds the new note |
| `TodosStore.TodosState.constructor` | src/Todo.js:24-25 | a new store has no notes, a counter of 0 and no ids issued |
| `TodosStore.TodosState.AddTodo` | src/Todo.js:27-39 | the counter goes up by one before use; the returned id is the new counter and was never issued before; the note is prepended with the date of `now`; the store invariant holds |
| `TodosStore.TodosState.ModifyTodo` | src/Todo.js:41-46 | only the note at the index changes, and only its content; an out-of-range index changes nothing; the counter is unchanged |
| `TodosStore.TodosState.ModifyTodoById` | src/Todo.js:48-55 | the list becomes `ModifyById` of the old list (a missing id returns early); the counter is unchanged and the invariant holds |
| `TodosStore.TodosState.RemoveTodo` | src/Todo.js:57-60 | an in-range index removes that note and keeps the order; any other index changes nothing; the counter is unchanged |
| `TodosStore.TodosState.RemoveTodoById` | src/Todo.js:62-65 | the list becomes `RemoveById` of the old list (a missing id gives -1 and removes nothing); the counter is unchanged and ids are never handed back |
| `TodosStore.TodosState.FindTodoById` | src/Todo.js:67-74 | returns None exactly when no note has the id; otherwise returns the one note of the list with that id; reads only |
| `TodosStore.TodosState.FindTodoIndexById` | src/Todo.js:76-78 | returns -1 exactly when no note has the id; otherwise returns the first position holding it; reads only |
| `UiState.NoticeSnackBarState.constructor` | src/Todo.js:364-367 | the snackbar starts closed, with duration, severity and message all null |
| `UiState.NoticeSnackBarState.Open` | src/Todo.js:369-374 | opens and sets the message, the severity (default success) and the duration (default 6000), replacing any shown notice |
| `UiState.NoticeSnackBarState.Close` | src/Todo.js:376-378 | clears only the open flag; message, severity and duration keep their values |
| `UiState.TodoOptionDrawerState.constructor` | src/Todo.js:144-145 | no note is selected and the drawer is not opened |
| `UiState.TodoOptionDrawerState.Open` | src/Todo.js:147 | selects the given id, unchecked, and the drawer is opened |
| `UiState.TodoOptionDrawerState.Close` | src/Todo.js:146 | clears the selection and the drawer is not opened |
| `UiState.TodoOptionDrawerState.Opened` | src/Todo.js:145 | the drawer is opened exactly when a note id is selected, that is when `todoId` is not null |
| `UiState.EditTodoModalState.constructor` | src/Todo.js:212 | the modal starts closed |
| `UiState.EditTodoModalState.Open` | src/Todo.js:213-215 | the modal is open |
| `UiState.EditTodoModalState.Close` | src/Todo.js:217-219 | the modal is closed |
| `Handlers.Selected` | src/Todo.js:238 | the drawer's selection resolves to None exactly when it is null or no note has that id; otherwise to the lookup's result, the note at the first position holding that id |
| `Handlers.LookUpSelected` | src/Todo.js:238 | the render-time lookup of the selected note returns the selection's note |
| `Handlers.SubmitNewTodo` | src/Todo.js:105-122 | whitespace-only text alerts and changes neither store nor notice; otherwise the trimmed text is prepended under the next, never-issued id, and a success notice names that id |
| `Handlers.CloseEditModal` | src/Todo.js:163-166 | closes both the edit modal and the drawer |
| `Handlers.SubmitEditTodo` | src/Todo.js:167-181 | whitespace-only text alerts and changes nothing; if no note is selected, `todo.id` throws and nothing changes; otherwise only the selected note's content becomes the trimmed text (id and date kept), modal and drawer close, and an info notice names the id |
| `Handlers.RemoveSelectedTodo` | src/Todo.js:229-238 | declining only closes the drawer; accepting removes the selected note (the list shrinks by one and the id is gone), closes the drawer and opens an info notice; a null or stale selection removes nothing, and then `todo.id` throws after the close, so no notice opens |
| `Handlers.SeedTodos` | src/Todo.js:408-412 | three adds on a fresh store give ids 1, 2, 3, listed in the order 3, 2, 1 with their contents and dates |

## Left out

- Rendering: JSX, the MUI components, `classNames` and the alternate-row styling are presentation.
- Theme colour injection (src/Todo.js:414-427) mutates the DOM through CSS variables, so it is not modelled.
- `alert`, `confirm` and input focus are browser side effects. An alert is the `Alerted` outcome with no state change, and the answer to `confirm` is a boolean parameter. The confirmation prompt's text is not modelled.
- The form field's value is not modelled. The handlers write back the trimmed text and clear the field after an add, but both are DOM writes.
- The clock: `new Date()` is replaced by a `DateTime` parameter. Each add takes its own reading.
- TodosStore.TodosState.AddTodo: the counter `lastTodoIdRef.current` (src/Todo.js:28) is a JavaScript number, so past 2^53 adds `++` would stop advancing and ids would repeat; the model's counter is an unbounded `nat` and never repeats.
- DateFormat.DateToStr: the year is a `nat`. Years before 1 CE, which `getFullYear` can report as zero or negative, are not modelled.
- React scheduling is not modelled. This covers batched `setState`, the functional updater of `addTodo` versus the captured `todos` of modify and remove, and the mount effect running twice in development StrictMode. Each command runs to completion on the current state.
- Ids are compared by value. JavaScript's loose `==` in `findIndex` only matters for a `null` selection, which is modelled as matching no note.
- The drawer's open-from-list-item (`openDrawer(todo.id)`, src/Todo.js:349) and the modal's open button (src/Todo.js:267) are plain calls of `TodoOptionDrawerState.Open` and `EditTodoModalState.Open`. They have no handler of their own.
