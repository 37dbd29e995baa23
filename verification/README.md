# To-do lists: the state machine of the TodoApp component

This project models the application logic of a single-page to-do manager
(`src/App.tsx`). The app keeps an ordered collection of named lists. Each list
has a numeric id, a name, an ordered sequence of tasks (text plus a completion
flag) and the text currently typed into its "Add a new task" input. Beside the
collection the component holds the "Enter list name" input and an edit cursor:
the task being renamed inline, with its draft text.

Every event handler computes the new collection from the previous one with
`map`, `filter` and object spread. Those computations are pure functions in
module `TodoLists` (`todo_lists.dfy`). The component itself is the class
`TodoApp.TodoStore` (`todo_app.dfy`). Its fields are the four pieces of React
state, and each handler is a method that reassigns them in one step. The
methods' postconditions tie the new `lists` to the old one through those
functions. JavaScript's `String.prototype.trim` is module `Text`
(`text.dfy`), with the white-space and line-terminator characters of
ECMA-262 (sections 12.2 and 12.3). `Array.prototype.filter` is module `Seqs`
(`seqs.dfy`).

What is proved:
- every transition keeps the collection well formed: list ids stay distinct
  (for `addList`, when the new id is fresh), and every stored task text is
  trimmed and non-empty;
- toggling a task twice restores the collection, and a stale index changes
  nothing;
- `removeTask` leaves no list that has no task and blank input text. It keeps
  the order of the survivors and changes no other list. Removing the only
  task of a list with an empty input deletes the list;
- `deleteList` removes exactly the lists with that id, keeps the order of the
  rest, and is idempotent;
- a blank edit draft changes nothing, and saving the same draft twice is the
  same as saving it once;
- trimming is idempotent and is determined by the blank prefix, the core and
  the blank suffix.

Two behaviours of the code are worth knowing, and the model keeps both:
- **Emptied lists.** After every removal, each list with no task and a blank
  input is filtered out, the target or any other (`src/App.tsx:85`), even
  when the index is stale. So a list that was just created and is still
  empty disappears when a task is removed from any other list
  (`RemoveTaskPrunesNewList`), and removing the only task "Milk" of
  "Groceries" removes the list itself (`GroceriesWalkthrough`).
- **Ids.** The code never checks that ids are unique: each handler acts on
  every list whose id matches, and so does the model. Uniqueness is an
  invariant proved for the transitions, not an assumption of them.

The state's types are datatypes in `TodoLists`: `Task` and `TodoList` are the
interfaces of `src/App.tsx:6-16`, and `EditingTask` is the
`{ listId, taskIndex } | null` cursor of `src/App.tsx:21`. `Text.IsWhitespace`
is the character set that `trim` strips (the ECMA-262 WhiteSpace and
LineTerminator productions); the code itself only calls `trim`.

## Model

| member | source | states |
|---|---|---|
| `Text.Trim` | src/App.tsx:57-58 | `trim()`: the result is the slice of the input between its whitespace prefix and suffix; it is empty exactly when the input is blank, and it neither starts nor ends with whitespace |
| `Text.TrimIdempotent` | src/App.tsx:58 | trimming a trimmed text changes nothing, so the text `addTask` stores is already trimmed |
| `Text.TrimOfPadded` | src/App.tsx:112 | the trim of blank + core + blank is the core, whenever the core neither starts nor ends with whitespace |
| `Seqs.Filter` | src/App.tsx:93 | `Array.prototype.filter`: the result holds exactly the input's elements that satisfy the predicate, and no more of them than the input has |
| `TodoLists.AddList` | src/App.tsx:43-48 | a blank name leaves the lists unchanged; otherwise exactly one list `{id, name, [], ""}` is appended, with the untrimmed name, and all earlier lists are kept |
| `TodoLists.AddTask` | src/App.tsx:54-64 | the length, ids and names are preserved; lists with another id, or with blank pending text, are unchanged; the target gets exactly one new task `{trim(newTaskText), false}` at the end and an empty input |
| `TodoLists.AddTaskBlank` | src/App.tsx:57-59 | when the target's pending text is blank, `addTask` returns the same lists |
| `TodoLists.AddTaskAfterTyping` | src/App.tsx:54-64 | typing a non-blank text and pressing "+" appends the trimmed text as an open, committed task and clears the input |
| `TodoLists.ToggleTask` | src/App.tsx:66-76 | the length, ids, names, inputs, task counts and task texts are preserved; `completed` flips exactly at index `taskIndex` of the lists with that id |
| `TodoLists.ToggleTwice` | src/App.tsx:70 | toggling the same task twice is the identity |
| `TodoLists.ToggleOutOfRange` | src/App.tsx:70 | an index outside every list with that id leaves the lists unchanged |
| `TodoLists.RemoveAt` | src/App.tsx:82 | filtering out index `taskIndex` drops exactly that task and shifts the later ones down; an out-of-range index drops nothing |
| `TodoLists.DropTask` | src/App.tsx:80-84 | the map step of `removeTask`: lists with another id are unchanged; the target loses the task at the index; ids, names and inputs are kept |
| `TodoLists.RemoveTask` | src/App.tsx:78-89 | every remaining list has a task or non-blank input text; every list of the map step that meets this stays; the result is an order-preserving subsequence of the map step with exactly as many elements as the map step has kept lists, so equal lists all survive |
| `TodoLists.RemoveTaskKeepsOthers` | src/App.tsx:80-85 | lists with another id come out of `removeTask` unchanged or not at all, and each of them with a task or non-blank input stays |
| `TodoLists.RemoveLastTaskDeletesList` | src/App.tsx:80-85 | with distinct ids, removing the only task of a list whose input is blank leaves no list with that id |
| `TodoLists.RemoveTaskPrunesNewList` | src/App.tsx:85 | a newly created list (fresh id) disappears when a task of any other list is removed |
| `TodoLists.DeleteList` | src/App.tsx:91-97 | no list with that id remains; every other list remains in the same relative order; the length drops by the number of lists with that id |
| `TodoLists.DeleteListIdempotent` | src/App.tsx:93 | deleting the same list twice is the same as deleting it once |
| `TodoLists.SetNewTaskText` | src/App.tsx:159-161 | only `newTaskText` of the lists with that id changes, to the typed text; tasks, names, ids and the length are preserved |
| `TodoLists.SaveEdit` | src/App.tsx:107-116 | ids, names, inputs, task counts and completion flags are preserved; only the task at the cursor can change its text, to the trimmed draft, and only when the draft is not blank |
| `TodoLists.SaveBlankEdit` | src/App.tsx:112 | saving a blank draft leaves the lists unchanged |
| `TodoLists.SaveEditTwice` | src/App.tsx:107-116 | saving the same draft a second time changes nothing more |
| `TodoLists.AddListWellFormed` | src/App.tsx:46 | appending a list with a fresh id keeps ids distinct and task texts committed |
| `TodoLists.AddTaskWellFormed` | src/App.tsx:58 | the task `addTask` stores is trimmed and non-empty, so the invariant is kept |
| `TodoLists.ToggleTaskWellFormed` | src/App.tsx:70 | toggling keeps the invariant |
| `TodoLists.FilterUniqueIds` | src/App.tsx:85 | filtering lists keeps their ids distinct |
| `TodoLists.RemoveTaskWellFormed` | src/App.tsx:80-85 | `removeTask` keeps the invariant |
| `TodoLists.DeleteListWellFormed` | src/App.tsx:93 | `deleteList` keeps the invariant |
| `TodoLists.SetNewTaskTextWellFormed` | src/App.tsx:160 | typing into a list's input keeps the invariant |
| `TodoLists.SaveEditWellFormed` | src/App.tsx:112 | a saved edit stores the trimmed non-blank draft or keeps the old text, so the invariant is kept |
| `TodoApp.TodoStore.constructor` | src/App.tsx:19-22 | the initial state: no lists, empty inputs, no edit cursor; it satisfies the invariant |
| `TodoApp.TodoStore.SetListName` | src/App.tsx:138 | only `listName` changes |
| `TodoApp.TodoStore.AddList` | src/App.tsx:43-52 | `lists` becomes `AddList` of the old lists and name; `listName` is cleared exactly when the name was not blank; the cursor is untouched; with a fresh id the invariant is kept |
| `TodoApp.TodoStore.AddTask` | src/App.tsx:54-64 | `lists` becomes `AddTask` of the old lists; nothing else changes; the invariant is kept |
| `TodoApp.TodoStore.ToggleTask` | src/App.tsx:66-76 | `lists` becomes `ToggleTask` of the old lists; nothing else changes; the invariant is kept |
| `TodoApp.TodoStore.RemoveTask` | src/App.tsx:78-89 | `lists` becomes `RemoveTask` of the old lists; the edit cursor is not adjusted; the invariant is kept |
| `TodoApp.TodoStore.DeleteList` | src/App.tsx:91-97 | `lists` becomes `DeleteList` of the old lists; nothing else changes; the invariant is kept |
| `TodoApp.TodoStore.SetNewTaskText` | src/App.tsx:159-161 | `lists` becomes `SetNewTaskText` of the old lists; nothing else changes |
| `TodoApp.TodoStore.StartEditing` | src/App.tsx:99-102 | the cursor becomes `(listId, taskIndex)` and the draft `currentText`, overwriting any earlier cursor; `lists` is untouched |
| `TodoApp.TodoStore.SetEditText` | src/App.tsx:182 | only the draft changes |
| `TodoApp.TodoStore.SaveEdit` | src/App.tsx:104-123 | without a cursor nothing changes; with one, `lists` becomes `SaveEdit` at the cursor with the draft, and the cursor and draft are cleared |
| `TodoApp.TodoStore.CancelEdit` | src/App.tsx:125-128 | the cursor and draft are cleared and `lists` is untouched |
| `TodoApp.RenameMilk` | src/App.tsx:112 | the draft "Milk 2% " is stored as "Milk 2%" |

## Left out

- Loading from and saving to `localStorage`, with `JSON.parse`/`JSON.stringify` (src/App.tsx:24-41 and the `setItem` calls at 47, 61, 73, 86, 94, 117). This is browser I/O and library serialisation. The model is the in-memory transitions only, so the serialise/deserialise round trip is not modelled.
- `Date.now()` (src/App.tsx:46). The id of a new list is a parameter of `AddList`. The source never checks that it is fresh.
- `TodoApp.TodoStore.AddList`: keeps the invariant only when the caller passes a fresh id, because the source relies on the clock for freshness and does not check it.
- React scheduling: `useState` batching and `useEffect`. Each handler is one atomic step. This includes the stale `lists` captured by the input handler at src/App.tsx:160, which the model reads as the current state.
- JSX rendering, animations, icons and the wiring of keys and clicks to handlers (src/App.tsx:130-215). This is presentation.
- JavaScript numbers. Ids and task indices are unbounded integers. Fractional, `NaN` or very large indices cannot come from the view, which only passes array positions.
