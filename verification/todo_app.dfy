/** The TodoApp component of src/App.tsx as an object: its four pieces of
    state are fields, and each event handler is a method that reassigns them
    in one atomic step. The new value of `lists` is always the corresponding
    transition of module TodoLists applied to the old one. */
module TodoApp {
  import opened Text
  import opened TodoLists

  class TodoStore {
    /** The collection, in display order. */
    var lists: seq<TodoList>
    /** The text typed into the "Enter list name..." input. */
    var listName: string
    /** Which task, if any, is being renamed. */
    var editingTask: EditingTask
    /** The draft text of the task being renamed. */
    var editText: string

    /** The state invariant: distinct list ids, committed task texts. */
    ghost predicate Valid()
      reads this
    {
      WellFormed(lists)
    }

    /** The initial state of the component (src/App.tsx:19-22). */
    constructor ()
      ensures Valid()
      ensures lists == [] && listName == "" && editingTask == NotEditing && editText == ""
    {
      lists := [];
      listName := "";
      editingTask := NotEditing;
      editText := "";
    }

    /** Typing into the list-name input (src/App.tsx:138). */
    method SetListName(name: string)
      modifies this
      ensures listName == name
      ensures lists == old(lists) && editingTask == old(editingTask) && editText == old(editText)
      ensures old(Valid()) ==> Valid()
    {
      listName := name;
    }

    /** "Create List": `id` is the Date.now() stamp; the list-name input is
        cleared only when a list was created. */
    method AddList(id: int)
      modifies this
      ensures lists == TodoLists.AddList(old(lists), old(listName), id)
      ensures listName == if IsBlank(old(listName)) then old(listName) else ""
      ensures editingTask == old(editingTask) && editText == old(editText)
      ensures old(Valid()) && (forall l :: l in old(lists) ==> l.id != id) ==> Valid()
    {
      if Trim(listName) != [] {
        ghost var before := lists;
        lists := TodoLists.AddList(lists, listName, id);
        listName := "";
        if WellFormed(before) && forall l :: l in before ==> l.id != id {
          AddListWellFormed(before, old(listName), id);
        }
      }
    }

    /** The "+" button of list `listId`. */
    method AddTask(listId: int)
      modifies this
      ensures lists == TodoLists.AddTask(old(lists), listId)
      ensures listName == old(listName) && editingTask == old(editingTask) && editText == old(editText)
      ensures old(Valid()) ==> Valid()
    {
      if Valid() {
        AddTaskWellFormed(lists, listId);
      }
      lists := TodoLists.AddTask(lists, listId);
    }

    /** The check mark of task `taskIndex` of list `listId`. */
    method ToggleTask(listId: int, taskIndex: int)
      modifies this
      ensures lists == TodoLists.ToggleTask(old(lists), listId, taskIndex)
      ensures listName == old(listName) && editingTask == old(editingTask) && editText == old(editText)
      ensures old(Valid()) ==> Valid()
    {
      if Valid() {
        ToggleTaskWellFormed(lists, listId, taskIndex);
      }
      lists := TodoLists.ToggleTask(lists, listId, taskIndex);
    }

    /** The bin of task `taskIndex` of list `listId`. The edit cursor is not
        adjusted, as in the source. */
    method RemoveTask(listId: int, taskIndex: int)
      modifies this
      ensures lists == TodoLists.RemoveTask(old(lists), listId, taskIndex)
      ensures listName == old(listName) && editingTask == old(editingTask) && editText == old(editText)
      ensures old(Valid()) ==> Valid()
    {
      if Valid() {
        RemoveTaskWellFormed(lists, listId, taskIndex);
      }
      lists := TodoLists.RemoveTask(lists, listId, taskIndex);
    }

    /** "Delete List" on list `listId`. */
    method DeleteList(listId: int)
      modifies this
      ensures lists == TodoLists.DeleteList(old(lists), listId)
      ensures listName == old(listName) && editingTask == old(editingTask) && editText == old(editText)
      ensures old(Valid()) ==> Valid()
    {
      if Valid() {
        DeleteListWellFormed(lists, listId);
      }
      lists := TodoLists.DeleteList(lists, listId);
    }

    /** Typing into the task input of list `listId` (src/App.tsx:159-161). */
    method SetNewTaskText(listId: int, text: string)
      modifies this
      ensures lists == TodoLists.SetNewTaskText(old(lists), listId, text)
      ensures listName == old(listName) && editingTask == old(editingTask) && editText == old(editText)
      ensures old(Valid()) ==> Valid()
    {
      if Valid() {
        SetNewTaskTextWellFormed(lists, listId, text);
      }
      lists := TodoLists.SetNewTaskText(lists, listId, text);
    }

    /** Clicking a task's text: it becomes the one being renamed, with its
        current text as the draft. Any earlier cursor is overwritten. */
    method StartEditing(listId: int, taskIndex: int, currentText: string)
      modifies this
      ensures editingTask == Editing(listId, taskIndex) && editText == currentText
      ensures lists == old(lists) && listName == old(listName)
      ensures old(Valid()) ==> Valid()
    {
      editingTask := Editing(listId, taskIndex);
      editText := currentText;
    }

    /** Typing into the inline edit input (src/App.tsx:182). */
    method SetEditText(text: string)
      modifies this
      ensures editText == text
      ensures lists == old(lists) && listName == old(listName) && editingTask == old(editingTask)
      ensures old(Valid()) ==> Valid()
    {
      editText := text;
    }

    /** Enter or leaving the inline edit input: commits the draft to the task
        under the cursor and closes the cursor; without a cursor it does
        nothing at all. */
    method SaveEdit()
      modifies this
      ensures old(editingTask).NotEditing? ==>
        lists == old(lists) && editingTask == NotEditing && editText == old(editText)
      ensures old(editingTask).Editing? ==>
        && lists == TodoLists.SaveEdit(old(lists), old(editingTask).listId, old(editingTask).taskIndex, old(editText))
        && editingTask == NotEditing && editText == ""
      ensures listName == old(listName)
      ensures old(Valid()) ==> Valid()
    {
      if editingTask.Editing? {
        if Valid() {
          SaveEditWellFormed(lists, editingTask.listId, editingTask.taskIndex, editText);
        }
        lists := TodoLists.SaveEdit(lists, editingTask.listId, editingTask.taskIndex, editText);
        editingTask := NotEditing;
        editText := "";
      }
    }

    /** Escape in the inline edit input: closes the cursor, no task changes. */
    method CancelEdit()
      modifies this
      ensures editingTask == NotEditing && editText == ""
      ensures lists == old(lists) && listName == old(listName)
      ensures old(Valid()) ==> Valid()
    {
      editingTask := NotEditing;
      editText := "";
    }
  }

  /** The rename step of the walkthrough: the draft is stored trimmed. */
  lemma RenameMilk(id: int)
    ensures SaveEdit([TodoList(id, "Groceries", [Task("Milk", true)], "")], id, 0, "Milk 2% ")
      == [TodoList(id, "Groceries", [Task("Milk 2%", true)], "")]
  {
    TrimOfPadded("", "Milk 2%", " ");
    assert "" + "Milk 2%" + " " == "Milk 2% ";
    var r := SaveEdit([TodoList(id, "Groceries", [Task("Milk", true)], "")], id, 0, "Milk 2% ");
    assert r[0].tasks == [Task("Milk 2%", true)];
  }

  /** A session with the component, driven only through the methods'
      contracts: create "Groceries", add "Milk", tick it, rename it to
      "Milk 2% ", then remove it. With nothing typed in its input the emptied
      list is pruned at once, so the collection is empty before "Delete List". */
  method GroceriesWalkthrough(id: int)
  {
    var app := new TodoStore();
    app.SetListName("Groceries");
    assert !IsWhitespace("Groceries"[0]);
    app.AddList(id);
    assert app.lists == [TodoList(id, "Groceries", [], "")] && app.listName == "";

    app.SetNewTaskText(id, "Milk");
    assert app.lists[0] == TodoList(id, "Groceries", [], "Milk");
    TrimOfTrimmed("Milk");
    assert !IsWhitespace("Milk"[0]);
    app.AddTask(id);
    assert app.lists[0].tasks == [Task("Milk", false)];
    assert app.lists == [TodoList(id, "Groceries", [Task("Milk", false)], "")];

    app.ToggleTask(id, 0);
    assert app.lists[0].tasks == [Task("Milk", true)];
    assert app.lists == [TodoList(id, "Groceries", [Task("Milk", true)], "")];

    app.StartEditing(id, 0, "Milk");
    app.SetEditText("Milk 2% ");
    RenameMilk(id);
    app.SaveEdit();
    assert app.lists == [TodoList(id, "Groceries", [Task("Milk 2%", true)], "")];
    assert app.editingTask == NotEditing && app.editText == "";

    app.RemoveTask(id, 0);
    assert app.lists == [];

    app.DeleteList(id);
    assert app.lists == [];
  }
}
