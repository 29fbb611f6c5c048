/** `useTodosState` (src/Todo.js:23-89): the list of notes, newest first, and
    the id counter kept in `lastTodoIdRef`. Each command runs to completion on
    the current state. */
module TodosStore {
  import opened Wrappers
  import opened DateFormat
  import opened Notes

  class TodosState {
    /** The `todos` state array. */
    var todos: seq<Note>
    /** `lastTodoIdRef.current`: the last id handed out. */
    var lastTodoId: nat
    /** Every id handed out so far, including those of removed notes. */
    ghost var issued: set<nat>

    /** Ids run from the newest note down, were all handed out by the counter,
        and the counter is the largest id ever handed out. */
    ghost predicate Valid()
      reads this
    {
      && NewestFirst(todos)
      && IssuedIds(todos, lastTodoId)
      && (forall i :: i in issued <==> 1 <= i <= lastTodoId)
    }

    /** A fresh store: no notes and a counter at 0. */
    constructor ()
      ensures Valid() && todos == [] && lastTodoId == 0 && issued == {}
    {
      todos := [];
      lastTodoId := 0;
      issued := {};
    }

    /** `addTodo`: pre-increments the counter, prepends the note stamped with
        `now` and returns its id, which was never handed out before. */
    method AddTodo(newContent: string, now: DateTime) returns (id: nat)
      requires Valid()
      modifies this
      ensures Valid()
      ensures id == old(lastTodoId) + 1 && lastTodoId == id
      ensures id !in old(issued) && issued == old(issued) + {id}
      ensures todos == [Note(id, newContent, DateToStr(now))] + old(todos)
    {
      PrependNext(todos, lastTodoId, newContent, DateToStr(now));
      lastTodoId := lastTodoId + 1;
      id := lastTodoId;
      var newTodo := Note(id, newContent, DateToStr(now));
      todos := [newTodo] + todos;
      issued := issued + {id};
    }

    /** `modifyTodo`: the note at `index` gets the new content; an index outside
        the list changes nothing. */
    method ModifyTodo(index: int, newContent: string)
      requires Valid()
      modifies this
      ensures Valid() && lastTodoId == old(lastTodoId) && issued == old(issued)
      ensures |todos| == |old(todos)|
      ensures forall k :: 0 <= k < |todos| && k != index ==> todos[k] == old(todos)[k]
      ensures 0 <= index < |todos| ==> todos[index] == old(todos)[index].(content := newContent)
    {
      ghost var s := todos;
      todos := ModifyAt(todos, index, newContent);
      assert forall k :: 0 <= k < |s| ==> todos[k].id == s[k].id;
    }

    /** `modifyTodoById`: resolves the id, returns early when it is missing,
        otherwise modifies that position. */
    method ModifyTodoById(id: nat, newContent: string)
      requires Valid()
      modifies this
      ensures Valid() && lastTodoId == old(lastTodoId) && issued == old(issued)
      ensures todos == ModifyById(old(todos), id, newContent)
    {
      var index := FindTodoIndexById(id);
      if index == -1 {
        return;
      }
      ModifyTodo(index, newContent);
    }

    /** `removeTodo`: drops the note at `index`; an index outside the list
        drops nothing. */
    method RemoveTodo(index: int)
      requires Valid()
      modifies this
      ensures Valid() && lastTodoId == old(lastTodoId) && issued == old(issued)
      ensures 0 <= index < |old(todos)| ==> todos == old(todos)[..index] + old(todos)[index + 1..]
      ensures !(0 <= index < |old(todos)|) ==> todos == old(todos)
    {
      RemoveAtKeepsOrder(todos, index, lastTodoId);
      todos := RemoveAt(todos, index);
    }

    /** `removeTodoById`: resolves the id and removes that position; a missing
        id resolves to -1 and removes nothing. */
    method RemoveTodoById(id: nat)
      requires Valid()
      modifies this
      ensures Valid() && lastTodoId == old(lastTodoId) && issued == old(issued)
      ensures todos == RemoveById(old(todos), id)
    {
      var index := FindTodoIndexById(id);
      RemoveTodo(index);
    }

    /** `findTodoById`: the note holding `id`, or `None`; reads only. */
    method FindTodoById(id: nat) returns (r: Option<Note>)
      requires Valid()
      ensures r.None? <==> Absent(todos, id)
      ensures r.Some? ==> r.value.id == id && exists k :: 0 <= k < |todos| && todos[k] == r.value
      ensures r.Some? ==> forall k :: 0 <= k < |todos| && todos[k].id == id ==> todos[k] == r.value
    {
      NewestFirstUnique(todos);
      var index := FindTodoIndexById(id);
      if index == -1 {
        return None;
      }
      return Some(todos[index]);
    }

    /** `findTodoIndexById`: the position of `id` in the list, or -1; reads only. */
    method FindTodoIndexById(id: nat) returns (index: int)
      ensures -1 <= index < |todos|
      ensures index == -1 <==> Absent(todos, id)
      ensures index >= 0 ==> todos[index].id == id && forall k :: 0 <= k < index ==> todos[k].id != id
    {
      index := FindIndex(todos, id);
    }
  }
}
