/** The note record and the list transforms `useTodosState` applies to its
    `todos` array (src/Todo.js:23-89): `findIndex`, the `map` of `modifyTodo`
    and the `filter` of `removeTodo`, each taking and returning a whole list. */
module Notes {
  import opened Wrappers

  /** `{ id, content, regDate }`. */
  datatype Note = Note(id: nat, content: string, regDate: string)

  /** No note of `s` carries `id`. */
  predicate Absent(s: seq<Note>, id: nat)
  {
    forall k :: 0 <= k < |s| ==> s[k].id != id
  }

  /** The list order is most-recent-first: ids strictly decrease along it. */
  predicate NewestFirst(s: seq<Note>)
  {
    forall i, j :: 0 <= i < j < |s| ==> s[i].id > s[j].id
  }

  /** Every id is one the counter has issued: between 1 and `last`. */
  predicate IssuedIds(s: seq<Note>, last: nat)
  {
    forall k :: 0 <= k < |s| ==> 1 <= s[k].id <= last
  }

  predicate UniqueIds(s: seq<Note>)
  {
    forall i, j :: 0 <= i < j < |s| ==> s[i].id != s[j].id
  }

  /** `todos.findIndex((todo) => todo.id == id)`: the first position holding
      `id`, or -1 when there is none. */
  function FindIndex(s: seq<Note>, id: nat): (r: int)
    ensures -1 <= r < |s|
    ensures r == -1 <==> Absent(s, id)
    ensures r >= 0 ==> s[r].id == id && forall k :: 0 <= k < r ==> s[k].id != id
    decreases |s|
  {
    if s == [] then -1
    else if s[0].id == id then 0
    else
      var i := FindIndex(s[1..], id);
      if i == -1 then -1 else i + 1
  }

  /** `findTodoById`: the note at the first position holding `id`, or `None`
      (the source's `null`). */
  function Find(s: seq<Note>, id: nat): (r: Option<Note>)
    ensures r.None? <==> Absent(s, id)
    ensures r.Some? ==> r.value in s && r.value.id == id
    ensures forall k :: 0 <= k < |s| && s[k].id == id && Absent(s[..k], id) ==> r == Some(s[k])
  {
    var i := FindIndex(s, id);
    if i == -1 then None else Some(s[i])
  }

  /** `todos.map((todo, _index) => _index != index ? todo : { ...todo, content })`:
      only the note at `index` changes, and only its content; an index outside
      the list changes nothing. */
  function ModifyAt(s: seq<Note>, index: int, content: string): (r: seq<Note>)
    ensures |r| == |s|
    ensures forall k :: 0 <= k < |s| && k != index ==> r[k] == s[k]
    ensures 0 <= index < |s| ==> r[index] == Note(s[index].id, content, s[index].regDate)
    decreases |s|
  {
    if s == [] then []
    else [if index == 0 then s[0].(content := content) else s[0]] + ModifyAt(s[1..], index - 1, content)
  }

  /** `todos.filter((_, _index) => _index != index)`: the note at `index` is
      dropped and the rest keep their order; an index outside the list (the -1
      of a failed lookup) drops nothing. */
  function RemoveAt(s: seq<Note>, index: int): (r: seq<Note>)
    ensures 0 <= index < |s| ==> r == s[..index] + s[index + 1..]
    ensures !(0 <= index < |s|) ==> r == s
    decreases |s|
  {
    if s == [] then []
    else (if index == 0 then [] else [s[0]]) + RemoveAt(s[1..], index - 1)
  }

  /** `modifyTodoById`: resolve the id, then `modifyTodo`; a missing id returns early. */
  function ModifyById(s: seq<Note>, id: nat, content: string): (r: seq<Note>)
    ensures |r| == |s|
    ensures forall k :: 0 <= k < |s| ==>
      r[k] == if s[k].id == id && Absent(s[..k], id) then s[k].(content := content) else s[k]
  {
    var i := FindIndex(s, id);
    if i == -1 then s else ModifyAt(s, i, content)
  }

  /** `removeTodoById`: resolve the id and hand the index, -1 included, to `removeTodo`. */
  function RemoveById(s: seq<Note>, id: nat): (r: seq<Note>)
    ensures Absent(s, id) ==> r == s
    ensures forall k :: 0 <= k < |s| && s[k].id == id && Absent(s[..k], id) ==> r == s[..k] + s[k + 1..]
  {
    RemoveAt(s, FindIndex(s, id))
  }

  /** Most-recent-first order leaves no id twice. */
  lemma NewestFirstUnique(s: seq<Note>)
    requires NewestFirst(s)
    ensures UniqueIds(s)
  {
  }

  /** With unique ids, the lookup finds the one note holding the id. */
  lemma FindUnique(s: seq<Note>, k: nat)
    requires UniqueIds(s) && k < |s|
    ensures FindIndex(s, s[k].id) == k
    ensures Find(s, s[k].id) == Some(s[k])
  {
  }

  /** Modifying by id keeps every id and registration date in place, so the
      order invariants survive. */
  lemma ModifyByIdKeepsIds(s: seq<Note>, id: nat, content: string, last: nat)
    ensures var r := ModifyById(s, id, content);
      |r| == |s| && forall k :: 0 <= k < |s| ==> r[k].id == s[k].id && r[k].regDate == s[k].regDate
    ensures NewestFirst(s) ==> NewestFirst(ModifyById(s, id, content))
    ensures IssuedIds(s, last) ==> IssuedIds(ModifyById(s, id, content), last)
  {
  }

  /** A missing id leaves the list as it was, for both modify and remove. */
  lemma ByIdAbsent(s: seq<Note>, id: nat, content: string)
    requires Absent(s, id)
    ensures ModifyById(s, id, content) == s
    ensures RemoveById(s, id) == s
    ensures Find(s, id) == None
  {
  }

  /** With unique ids, modifying the note holding `id` replaces exactly its
      content: same position, same id and date, every other note untouched,
      and the lookup then returns the new content. */
  lemma ModifyByIdPresent(s: seq<Note>, k: nat, content: string)
    requires UniqueIds(s) && k < |s|
    ensures ModifyById(s, s[k].id, content) == s[k := Note(s[k].id, content, s[k].regDate)]
    ensures Find(ModifyById(s, s[k].id, content), s[k].id) == Some(Note(s[k].id, content, s[k].regDate))
  {
  }

  /** With unique ids, removing by id drops exactly the note holding it, keeps
      the others in order, and the id is then gone. */
  lemma RemoveByIdPresent(s: seq<Note>, k: nat)
    requires UniqueIds(s) && k < |s|
    ensures RemoveById(s, s[k].id) == s[..k] + s[k + 1..]
    ensures Find(RemoveById(s, s[k].id), s[k].id) == None
  {
  }

  /** Removing a note keeps the order invariants. */
  lemma RemoveAtKeepsOrder(s: seq<Note>, index: int, last: nat)
    ensures NewestFirst(s) ==> NewestFirst(RemoveAt(s, index))
    ensures IssuedIds(s, last) ==> IssuedIds(RemoveAt(s, index), last)
  {
  }

  /** Prepending a note with the next id keeps the list most-recent-first and
      within the issued ids, and the new id was in no note before. */
  lemma PrependNext(s: seq<Note>, last: nat, content: string, regDate: string)
    requires NewestFirst(s) && IssuedIds(s, last)
    ensures var r := [Note(last + 1, content, regDate)] + s;
      NewestFirst(r) && IssuedIds(r, last + 1) && Absent(s, last + 1)
      && Find(r, last + 1) == Some(Note(last + 1, content, regDate))
  {
  }
}
