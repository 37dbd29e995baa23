/** The to-do collection of src/App.tsx and the state transitions its handlers
    compute inside their setLists callbacks: each takes the previous sequence
    of lists and returns a new one built with map, filter and spread, never
    changing a list in place. */
module TodoLists {
  import opened Text
  import opened Seqs

  /** A task: its text and whether it is done. */
  datatype Task = Task(text: string, completed: bool)

  /** A named list of tasks, with the text typed into its "Add a new task"
      input that has not been committed yet. */
  datatype TodoList = TodoList(id: int, name: string, tasks: seq<Task>, newTaskText: string)

  /** The edit cursor: no task is being renamed, or the task at `taskIndex`
      of the list with id `listId` is. */
  datatype EditingTask = NotEditing | Editing(listId: int, taskIndex: int)

  // ---------------------------------------------------------------------
  // The state the handlers keep
  // ---------------------------------------------------------------------

  /** No two lists share an id. */
  predicate UniqueIds(lists: seq<TodoList>) {
    forall j, k :: 0 <= j < k < |lists| ==> lists[j].id != lists[k].id
  }

  /** The text of a committed task: as addTask and saveEdit store it,
      trimmed and not empty. */
  predicate IsCommitted(t: Task) {
    t.text != [] && Trim(t.text) == t.text
  }

  predicate AllCommitted(tasks: seq<Task>) {
    forall t :: t in tasks ==> IsCommitted(t)
  }

  /** What every handler preserves: list ids are distinct and every task
      text was trimmed and found non-empty when it was stored. */
  predicate WellFormed(lists: seq<TodoList>) {
    && UniqueIds(lists)
    && forall l :: l in lists ==> AllCommitted(l.tasks)
  }

  /** Selects the lists with the given id. */
  function HasId(listId: int): TodoList -> bool {
    (l: TodoList) => l.id == listId
  }

  // ---------------------------------------------------------------------
  // addList (src/App.tsx:43-52)
  // ---------------------------------------------------------------------

  /** The lists after "Create List" with name `name`; `id` stands for the
      Date.now() value the source stamps on the new list. */
  function AddList(lists: seq<TodoList>, name: string, id: int): (r: seq<TodoList>)
    ensures IsBlank(name) ==> r == lists
    ensures !IsBlank(name) ==> |r| == |lists| + 1 && r[..|lists|] == lists
    ensures !IsBlank(name) ==> r[|lists|] == TodoList(id, name, [], "")
  {
    if Trim(name) == [] then lists else lists + [TodoList(id, name, [], "")]
  }

  // ---------------------------------------------------------------------
  // addTask (src/App.tsx:54-64)
  // ---------------------------------------------------------------------

  function AddTaskTo(l: TodoList, listId: int): TodoList {
    if l.id == listId && Trim(l.newTaskText) != [] then
      l.(tasks := l.tasks + [Task(Trim(l.newTaskText), false)], newTaskText := "")
    else
      l
  }

  /** The lists after the "+" button of list `listId`: its pending text, once
      trimmed, becomes a new open task at the end and the input is cleared;
      blank pending text and every other list are left alone. */
  function AddTask(lists: seq<TodoList>, listId: int): (r: seq<TodoList>)
    ensures |r| == |lists|
    ensures forall j :: 0 <= j < |r| ==> r[j].id == lists[j].id && r[j].name == lists[j].name
    ensures forall j :: 0 <= j < |r| && (lists[j].id != listId || IsBlank(lists[j].newTaskText)) ==>
      r[j] == lists[j]
    ensures forall j :: 0 <= j < |r| && lists[j].id == listId && !IsBlank(lists[j].newTaskText) ==>
      && r[j].tasks == lists[j].tasks + [Task(Trim(lists[j].newTaskText), false)]
      && r[j].newTaskText == ""
  {
    seq(|lists|, j requires 0 <= j < |lists| => AddTaskTo(lists[j], listId))
  }

  /** With nothing but whitespace typed into the target's input, addTask
      returns the lists it was given. */
  lemma AddTaskBlank(lists: seq<TodoList>, listId: int)
    requires forall l :: l in lists && l.id == listId ==> IsBlank(l.newTaskText)
    ensures AddTask(lists, listId) == lists
  {
    var r := AddTask(lists, listId);
    forall j | 0 <= j < |lists| ensures r[j] == lists[j] {
      assert lists[j] in lists;
    }
  }

  /** Typing `text` into a list's input and pressing "+" commits the trimmed
      text as a new open task of that list and empties the input. */
  lemma AddTaskAfterTyping(lists: seq<TodoList>, listId: int, text: string, j: nat)
    requires j < |lists| && lists[j].id == listId && !IsBlank(text)
    ensures var r := AddTask(SetNewTaskText(lists, listId, text), listId);
      && r[j].tasks == lists[j].tasks + [Task(Trim(text), false)]
      && r[j].newTaskText == ""
      && IsCommitted(r[j].tasks[|lists[j].tasks|])
  {
    TrimIdempotent(text);
  }

  // ---------------------------------------------------------------------
  // toggleTask (src/App.tsx:66-76)
  // ---------------------------------------------------------------------

  function ToggleAt(tasks: seq<Task>, taskIndex: int): seq<Task> {
    seq(|tasks|, k requires 0 <= k < |tasks| =>
      if k == taskIndex then tasks[k].(completed := !tasks[k].completed) else tasks[k])
  }

  function ToggleTaskIn(l: TodoList, listId: int, taskIndex: int): TodoList {
    if l.id == listId then l.(tasks := ToggleAt(l.tasks, taskIndex)) else l
  }

  /** The lists after clicking the check mark of task `taskIndex` of list
      `listId`: that one task changes its completion and nothing else does. */
  function ToggleTask(lists: seq<TodoList>, listId: int, taskIndex: int): (r: seq<TodoList>)
    ensures |r| == |lists|
    ensures forall j :: 0 <= j < |r| ==>
      && r[j].id == lists[j].id && r[j].name == lists[j].name
      && r[j].newTaskText == lists[j].newTaskText && |r[j].tasks| == |lists[j].tasks|
    ensures forall j, k :: 0 <= j < |r| && 0 <= k < |r[j].tasks| ==>
      && r[j].tasks[k].text == lists[j].tasks[k].text
      && r[j].tasks[k].completed ==
         if lists[j].id == listId && k == taskIndex then !lists[j].tasks[k].completed
         else lists[j].tasks[k].completed
  {
    seq(|lists|, j requires 0 <= j < |lists| => ToggleTaskIn(lists[j], listId, taskIndex))
  }

  /** Toggling the same task twice restores the lists. */
  lemma ToggleTwice(lists: seq<TodoList>, listId: int, taskIndex: int)
    ensures ToggleTask(ToggleTask(lists, listId, taskIndex), listId, taskIndex) == lists
  {
    var once := ToggleTask(lists, listId, taskIndex);
    var twice := ToggleTask(once, listId, taskIndex);
    forall j | 0 <= j < |lists| ensures twice[j] == lists[j] {
      assert twice[j].tasks == lists[j].tasks;
    }
  }

  /** A stale index, outside every list with that id, changes nothing. */
  lemma ToggleOutOfRange(lists: seq<TodoList>, listId: int, taskIndex: int)
    requires forall j :: 0 <= j < |lists| && lists[j].id == listId ==>
      taskIndex < 0 || |lists[j].tasks| <= taskIndex
    ensures ToggleTask(lists, listId, taskIndex) == lists
  {
    var r := ToggleTask(lists, listId, taskIndex);
    forall j | 0 <= j < |lists| ensures r[j] == lists[j] {
      assert r[j].tasks == lists[j].tasks;
    }
  }

  // ---------------------------------------------------------------------
  // removeTask (src/App.tsx:78-89)
  // ---------------------------------------------------------------------

  /** tasks.filter((_, index) => index !== taskIndex): drops the task at that
      position if there is one. */
  function RemoveAt(tasks: seq<Task>, taskIndex: int): (r: seq<Task>)
    ensures 0 <= taskIndex < |tasks| ==>
      && |r| == |tasks| - 1
      && (forall k :: 0 <= k < taskIndex ==> r[k] == tasks[k])
      && (forall k :: taskIndex <= k < |r| ==> r[k] == tasks[k + 1])
    ensures !(0 <= taskIndex < |tasks|) ==> r == tasks
  {
    if 0 <= taskIndex < |tasks| then tasks[..taskIndex] + tasks[taskIndex + 1..] else tasks
  }

  function RemoveTaskIn(l: TodoList, listId: int, taskIndex: int): TodoList {
    if l.id == listId then l.(tasks := RemoveAt(l.tasks, taskIndex)) else l
  }

  /** The map step of removeTask: the task goes from every list with that id;
      other lists, and everything but the tasks, are untouched. */
  function DropTask(lists: seq<TodoList>, listId: int, taskIndex: int): (r: seq<TodoList>)
    ensures |r| == |lists|
    ensures forall j :: 0 <= j < |r| ==>
      && r[j].id == lists[j].id && r[j].name == lists[j].name
      && r[j].newTaskText == lists[j].newTaskText
    ensures forall j :: 0 <= j < |r| && lists[j].id != listId ==> r[j] == lists[j]
    ensures forall j :: 0 <= j < |r| && lists[j].id == listId ==>
      r[j].tasks == RemoveAt(lists[j].tasks, taskIndex)
  {
    seq(|lists|, j requires 0 <= j < |lists| => RemoveTaskIn(lists[j], listId, taskIndex))
  }

  /** The filter step of removeTask (src/App.tsx:85): a list survives when it
      still has a task or something typed in its input. */
  predicate IsKept(l: TodoList) {
    |l.tasks| > 0 || Trim(l.newTaskText) != []
  }

  /** The lists after clicking the bin of task `taskIndex` of list `listId`.
      After the removal EVERY list, not only the target, that has no task and
      blank pending text is dropped, and this happens even when the index is
      stale. */
  function RemoveTask(lists: seq<TodoList>, listId: int, taskIndex: int): (r: seq<TodoList>)
    ensures |r| <= |lists|
    ensures forall l :: l in r ==> |l.tasks| > 0 || !IsBlank(l.newTaskText)
    ensures forall l :: l in DropTask(lists, listId, taskIndex) ==>
      (|l.tasks| > 0 || !IsBlank(l.newTaskText)) ==> l in r
    ensures IsSubsequence(r, DropTask(lists, listId, taskIndex))
    ensures |r| == Count(DropTask(lists, listId, taskIndex), IsKept)
  {
    var dropped := DropTask(lists, listId, taskIndex);
    FilterIsSubsequence(dropped, IsKept);
    FilterLength(dropped, IsKept);
    Filter(dropped, IsKept)
  }

  /** Lists with another id survive removeTask only unchanged, and never
      appear out of nowhere. */
  lemma RemoveTaskKeepsOthers(lists: seq<TodoList>, listId: int, taskIndex: int)
    ensures forall l :: l in RemoveTask(lists, listId, taskIndex) && l.id != listId ==> l in lists
    ensures forall l :: l in lists && l.id != listId && (|l.tasks| > 0 || !IsBlank(l.newTaskText)) ==>
      l in RemoveTask(lists, listId, taskIndex)
  {
    var dropped := DropTask(lists, listId, taskIndex);
    forall l | l in RemoveTask(lists, listId, taskIndex) && l.id != listId ensures l in lists {
      var j :| 0 <= j < |dropped| && dropped[j] == l;
      assert lists[j] == l;
    }
    forall l | l in lists && l.id != listId && (|l.tasks| > 0 || !IsBlank(l.newTaskText))
      ensures l in RemoveTask(lists, listId, taskIndex)
    {
      var j :| 0 <= j < |lists| && lists[j] == l;
      assert dropped[j] == l;
    }
  }

  /** Removing the only task of a list with nothing typed in its input deletes
      the list itself. */
  lemma RemoveLastTaskDeletesList(lists: seq<TodoList>, j: nat)
    requires UniqueIds(lists)
    requires j < |lists| && |lists[j].tasks| == 1 && IsBlank(lists[j].newTaskText)
    ensures forall l :: l in RemoveTask(lists, lists[j].id, 0) ==> l.id != lists[j].id
  {
    var listId := lists[j].id;
    var dropped := DropTask(lists, listId, 0);
    forall l | l in RemoveTask(lists, listId, 0) ensures l.id != listId {
      var m :| 0 <= m < |dropped| && dropped[m] == l;
      assert dropped[j].tasks == [];
    }
  }

  /** The pruning is global: a list created and not yet filled in disappears
      when a task is removed from any other list. */
  lemma RemoveTaskPrunesNewList(lists: seq<TodoList>, name: string, id: int, listId: int, taskIndex: int)
    requires forall l :: l in lists ==> l.id != id
    requires !IsBlank(name) && listId != id
    ensures forall l :: l in RemoveTask(AddList(lists, name, id), listId, taskIndex) ==> l.id != id
  {
    var added := AddList(lists, name, id);
    var dropped := DropTask(added, listId, taskIndex);
    forall l | l in RemoveTask(added, listId, taskIndex) ensures l.id != id {
      var m :| 0 <= m < |dropped| && dropped[m] == l;
      assert m < |lists| ==> added[m] == lists[m];
      assert dropped[|lists|] == TodoList(id, name, [], "");
    }
  }

  // ---------------------------------------------------------------------
  // deleteList (src/App.tsx:91-97)
  // ---------------------------------------------------------------------

  /** The lists after "Delete List" on list `listId`, whatever it holds. */
  function DeleteList(lists: seq<TodoList>, listId: int): (r: seq<TodoList>)
    ensures forall l :: l in r ==> l.id != listId
    ensures forall l :: l in lists && l.id != listId ==> l in r
    ensures IsSubsequence(r, lists)
    ensures |r| == |lists| - Count(lists, HasId(listId))
  {
    var p := Not(HasId(listId));
    FilterIsSubsequence(lists, p);
    FilterLength(lists, p);
    CountComplement(lists, HasId(listId));
    Filter(lists, p)
  }

  /** Deleting the same list twice is deleting it once. */
  lemma DeleteListIdempotent(lists: seq<TodoList>, listId: int)
    ensures DeleteList(DeleteList(lists, listId), listId) == DeleteList(lists, listId)
  {
    FilterIdempotent(lists, Not(HasId(listId)));
  }

  // ---------------------------------------------------------------------
  // the pending-text input of a list (src/App.tsx:159-161)
  // ---------------------------------------------------------------------

  /** The lists after typing `text` into the task input of list `listId`. */
  function SetNewTaskText(lists: seq<TodoList>, listId: int, text: string): (r: seq<TodoList>)
    ensures |r| == |lists|
    ensures forall j :: 0 <= j < |r| ==>
      && r[j].id == lists[j].id && r[j].name == lists[j].name && r[j].tasks == lists[j].tasks
      && r[j].newTaskText == if lists[j].id == listId then text else lists[j].newTaskText
  {
    seq(|lists|, j requires 0 <= j < |lists| =>
      if lists[j].id == listId then lists[j].(newTaskText := text) else lists[j])
  }

  // ---------------------------------------------------------------------
  // saveEdit (src/App.tsx:104-123)
  // ---------------------------------------------------------------------

  /** `editText.trim() || task.text`: a blank draft keeps the old text. */
  function Renamed(t: Task, draft: string): Task {
    t.(text := if Trim(draft) != [] then Trim(draft) else t.text)
  }

  function RenameAt(tasks: seq<Task>, taskIndex: int, draft: string): seq<Task> {
    seq(|tasks|, k requires 0 <= k < |tasks| =>
      if k == taskIndex then Renamed(tasks[k], draft) else tasks[k])
  }

  function RenameIn(l: TodoList, listId: int, taskIndex: int, draft: string): TodoList {
    if l.id == listId then l.(tasks := RenameAt(l.tasks, taskIndex, draft)) else l
  }

  /** The lists after committing the draft `draft` of the task under the edit
      cursor (`listId`, `taskIndex`): only that task's text can change, to the
      trimmed draft, and only when the draft is not blank. */
  function SaveEdit(lists: seq<TodoList>, listId: int, taskIndex: int, draft: string): (r: seq<TodoList>)
    ensures |r| == |lists|
    ensures forall j :: 0 <= j < |r| ==>
      && r[j].id == lists[j].id && r[j].name == lists[j].name
      && r[j].newTaskText == lists[j].newTaskText && |r[j].tasks| == |lists[j].tasks|
    ensures forall j, k :: 0 <= j < |r| && 0 <= k < |r[j].tasks| ==>
      && r[j].tasks[k].completed == lists[j].tasks[k].completed
      && r[j].tasks[k].text ==
         if lists[j].id == listId && k == taskIndex && !IsBlank(draft) then Trim(draft)
         else lists[j].tasks[k].text
  {
    seq(|lists|, j requires 0 <= j < |lists| => RenameIn(lists[j], listId, taskIndex, draft))
  }

  /** Committing a blank draft leaves every list as it was. */
  lemma SaveBlankEdit(lists: seq<TodoList>, listId: int, taskIndex: int, draft: string)
    requires IsBlank(draft)
    ensures SaveEdit(lists, listId, taskIndex, draft) == lists
  {
    var r := SaveEdit(lists, listId, taskIndex, draft);
    forall j | 0 <= j < |lists| ensures r[j] == lists[j] {
      assert r[j].tasks == lists[j].tasks;
    }
  }

  /** Renaming a task to what it already says changes nothing, so a second
      save of the same draft is idempotent. */
  lemma SaveEditTwice(lists: seq<TodoList>, listId: int, taskIndex: int, draft: string)
    ensures var once := SaveEdit(lists, listId, taskIndex, draft);
      SaveEdit(once, listId, taskIndex, draft) == once
  {
    var once := SaveEdit(lists, listId, taskIndex, draft);
    var twice := SaveEdit(once, listId, taskIndex, draft);
    forall j | 0 <= j < |once| ensures twice[j] == once[j] {
      assert twice[j].tasks == once[j].tasks;
    }
  }

  // ---------------------------------------------------------------------
  // Every transition keeps the lists well formed
  // ---------------------------------------------------------------------

  /** A new list keeps the ids distinct as long as its id is fresh. */
  lemma AddListWellFormed(lists: seq<TodoList>, name: string, id: int)
    requires WellFormed(lists)
    requires forall l :: l in lists ==> l.id != id
    ensures WellFormed(AddList(lists, name, id))
  {
    var r := AddList(lists, name, id);
    if !IsBlank(name) {
      forall j, k | 0 <= j < k < |r| ensures r[j].id != r[k].id {
        assert r[j] == lists[j];
        if k < |lists| {
          assert r[k] == lists[k];
        }
      }
    }
  }

  /** The task addTask stores is committed text. */
  lemma AddTaskWellFormed(lists: seq<TodoList>, listId: int)
    requires WellFormed(lists)
    ensures WellFormed(AddTask(lists, listId))
  {
    var r := AddTask(lists, listId);
    forall l | l in r ensures AllCommitted(l.tasks) {
      var j :| 0 <= j < |r| && r[j] == l;
      assert lists[j] in lists;
      if lists[j].id == listId && !IsBlank(lists[j].newTaskText) {
        TrimIdempotent(lists[j].newTaskText);
        assert IsCommitted(Task(Trim(lists[j].newTaskText), false));
      }
    }
  }

  lemma ToggleTaskWellFormed(lists: seq<TodoList>, listId: int, taskIndex: int)
    requires WellFormed(lists)
    ensures WellFormed(ToggleTask(lists, listId, taskIndex))
  {
    var r := ToggleTask(lists, listId, taskIndex);
    forall l | l in r ensures AllCommitted(l.tasks) {
      var j :| 0 <= j < |r| && r[j] == l;
      assert lists[j] in lists;
      forall t | t in l.tasks ensures IsCommitted(t) {
        var k :| 0 <= k < |l.tasks| && l.tasks[k] == t;
        assert lists[j].tasks[k] in lists[j].tasks;
      }
    }
  }

  /** Dropping lists keeps the remaining ids distinct. */
  lemma {:induction false} FilterUniqueIds(s: seq<TodoList>, p: TodoList -> bool)
    requires UniqueIds(s)
    ensures UniqueIds(Filter(s, p))
  {
    if s != [] {
      FilterUniqueIds(s[1..], p);
      var rest := Filter(s[1..], p);
      if p(s[0]) {
        var r := [s[0]] + rest;
        forall j, k | 0 <= j < k < |r| ensures r[j].id != r[k].id {
          if j == 0 {
            assert r[k] in s[1..];
            var m :| 0 <= m < |s[1..]| && s[1..][m] == r[k];
            assert s[m + 1] == r[k];
          } else {
            assert r[j] == rest[j - 1] && r[k] == rest[k - 1];
          }
        }
      }
    }
  }

  lemma RemoveTaskWellFormed(lists: seq<TodoList>, listId: int, taskIndex: int)
    requires WellFormed(lists)
    ensures WellFormed(RemoveTask(lists, listId, taskIndex))
  {
    var dropped := DropTask(lists, listId, taskIndex);
    assert UniqueIds(dropped);
    FilterUniqueIds(dropped, IsKept);
    forall l | l in dropped ensures AllCommitted(l.tasks) {
      var j :| 0 <= j < |dropped| && dropped[j] == l;
      assert lists[j] in lists;
      forall t | t in l.tasks ensures IsCommitted(t) {
        assert t in lists[j].tasks;
      }
    }
  }

  lemma DeleteListWellFormed(lists: seq<TodoList>, listId: int)
    requires WellFormed(lists)
    ensures WellFormed(DeleteList(lists, listId))
  {
    FilterUniqueIds(lists, Not(HasId(listId)));
  }

  lemma SetNewTaskTextWellFormed(lists: seq<TodoList>, listId: int, text: string)
    requires WellFormed(lists)
    ensures WellFormed(SetNewTaskText(lists, listId, text))
  {
    var r := SetNewTaskText(lists, listId, text);
    forall l | l in r ensures AllCommitted(l.tasks) {
      var j :| 0 <= j < |r| && r[j] == l;
      assert lists[j] in lists;
    }
  }

  /** A saved edit stores committed text: the trimmed draft, or the old text. */
  lemma SaveEditWellFormed(lists: seq<TodoList>, listId: int, taskIndex: int, draft: string)
    requires WellFormed(lists)
    ensures WellFormed(SaveEdit(lists, listId, taskIndex, draft))
  {
    var r := SaveEdit(lists, listId, taskIndex, draft);
    TrimIdempotent(draft);
    forall l | l in r ensures AllCommitted(l.tasks) {
      var j :| 0 <= j < |r| && r[j] == l;
      assert lists[j] in lists;
      forall t | t in l.tasks ensures IsCommitted(t) {
        var k :| 0 <= k < |l.tasks| && l.tasks[k] == t;
        assert lists[j].tasks[k] in lists[j].tasks;
      }
    }
  }
}
