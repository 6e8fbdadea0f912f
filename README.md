# To-do list task store, modelled in Dafny

This project models the core of a browser to-do list (`script.js`). The core is an
in-memory list of tasks plus a one-task undo slot, and the handlers that change them:

- add a task from the form;
- edit a task's text;
- step a task's priority;
- delete a task, then undo the delete;
- sort the list by due date.

It also models the category view, which derives the displayed list from the stored one.

Modules, one per concern:

- `JsText` (`text.dfy`): `String.prototype.trim`. It strips the ECMAScript white-space and
  line-terminator code points.
- `Tasks` (`task.dfy`): the task record, the category presets, the priority cycle, and the
  task a form submission creates.
- `TaskList` (`task_list.dfy`): the list operations as functions on `seq<Task>`. These are
  `find` by identifier, the order-preserving `filter` behind both the view and deletion, edit,
  priority toggle, and the delete/undo round trip.
- `DueSort` (`due_sort.dfy`): the sort button's comparator, the order a sorted list is in, and
  an insertion sort driven by that comparator. The sort is proved to produce a permutation in
  that order.
- `Store` (`store.dfy`): the `TaskStore` class.
  - Its fields are `tasks`, the undo slot `lastDeleted`, and a ghost `persisted`. `persisted`
    is the list the browser storage holds, so it is what a reload would read back.
  - One method per event handler. Each method states its new state in terms of the old one
    and of the `TaskList`/`DueSort` functions.
  - Each method also states which handlers save the list.
  - Each method preserves the invariant that every stored text is non-empty and trimmed.

Tasks are values. This is faithful to the source: a task object is never shared between
`tasks` and `lastDeletedTask`. A delete removes the object from `tasks`, and an undo empties
the slot when it puts the object back. So the in-place field writes of `editTask` and
`togglePriority` equal replacing one element of the list.

The model follows what `script.js` does. In particular:

- there is no sort-direction toggle;
- there are no photo type or size checks;
- the due date does not default to today;
- task text is not escaped;
- no error is reported on storage failures.

## Model

| member | source | states |
|---|---|---|
| `JsText.Trim` | script.js:37 | the trimmed text starts and ends with a non-space character, and is empty exactly when the input is all white space |
| `JsText.TrimDropsOnlyEnds` | script.js:37 | trimming keeps one contiguous part of the input and drops only white space before and after it |
| `Tasks.MakeTask` | script.js:37-55 | a submission is ignored exactly when its text is blank after trimming; otherwise it creates a task with the given id, the trimmed non-empty text, priority Normal, the category's preset colour, and the form's category, font colour, due date and photo |
| `Tasks.NextPriority` | script.js:165-170 | the priority always changes: Normal goes to High, High goes to Low, and Low goes to Normal |
| `Tasks.PriorityCycle` | script.js:163-170 | three priority steps restore the original priority, and one or two steps do not |
| `TaskList.FindIndex` | script.js:151 | returns the position of the first task with the identifier, or none exactly when no task has it |
| `TaskList.Find` | script.js:180 | returns the first task with the identifier (undefined is modelled as None exactly when the identifier is absent) |
| `TaskList.FilterTasks` | script.js:73 | every task that passes the test occurs in the result as often as in the input; every other task does not occur |
| `TaskList.FilterConcat` | script.js:73 | filtering distributes over concatenation, so relative order is kept |
| `TaskList.WithoutId` | script.js:181 | removes every task with the identifier; every other task keeps its multiplicity; a list without that identifier is returned unchanged |
| `TaskList.WithoutIdKeepsOrder` | script.js:181 | deleting by identifier keeps the remaining tasks in their stored relative order |
| `TaskList.VisibleTasks` | script.js:69-74 | filter All shows the whole list; a category filter shows exactly that category's tasks, each as often as stored |
| `TaskList.VisibleKeepsOrder` | script.js:69-74 | the view keeps stored order: the view of a concatenation is the concatenation of the views |
| `TaskList.Edited` | script.js:150-157 | a cancelled or blank answer changes nothing; otherwise only the text of the first task with the identifier changes, to the trimmed answer; length and every other field stay the same |
| `TaskList.EditKeepsTextsClean` | script.js:153-154 | an edit never stores an empty or untrimmed text |
| `TaskList.Toggled` | script.js:163-170 | only the priority of the first task with the identifier changes, by one step of the cycle; length and every other field stay the same |
| `TaskList.ToggleThrice` | script.js:163-170 | toggling the same task three times restores the whole list |
| `TaskList.ToggleKeepsTextsClean` | script.js:163-170 | a priority toggle leaves every stored text as it was |
| `TaskList.DeleteKeepsTextsClean` | script.js:179-181 | if every stored text was non-empty and trimmed, so is every remaining text after a delete, and so is the text of the task put in the undo slot |
| `TaskList.DeleteThenUndoRestores` | script.js:179-209 | deleting the only task with an identifier and then appending the stashed task gives the same tasks, each as often as before |
| `DueSort.CompareDue` | script.js:223-227 | an undated first task compares greater; a dated first task compares less than an undated one; two dated tasks compare by date sign |
| `DueSort.InOrderIsComparatorOrder` | script.js:223-227 | a pair is out of order exactly when the comparator ranks the first after the second in both directions |
| `DueSort.SortByDueDate` | script.js:222-227 | the result is a permutation of the list; every dated task precedes every undated task; dated tasks are in non-decreasing date order |
| `DueSort.SortExample` | script.js:222-227 | tasks due on 2024-03-01, undated, and due on 2024-01-01 can only sort to January, March, undated |
| `Store.TaskStore.constructor` | script.js:21-22 | the list is what storage held, or empty when it held nothing; the undo slot is empty |
| `Store.TaskStore.Submit` | script.js:34-61 | a blank submission leaves the list and storage alone; otherwise exactly one new task is appended after the unchanged earlier tasks and the list is saved |
| `Store.TaskStore.Edit` | script.js:150-158 | the list becomes `Edited` of the old one; it is saved only when the answer is taken; the undo slot is unchanged |
| `Store.TaskStore.TogglePriority` | script.js:163-174 | the list becomes `Toggled` of the old one and is saved; the undo slot is unchanged |
| `Store.TaskStore.Delete` | script.js:179-185 | the slot gets the first task with the identifier (None if absent, which overwrites the slot); every task with the identifier is removed; the list is saved |
| `Store.TaskStore.Undo` | script.js:203-209 | with a filled slot, its task is appended, the list saved and the slot emptied; with an empty slot nothing changes |
| `Store.TaskStore.SortByDue` | script.js:222-230 | the list becomes a permutation of itself, ordered by due date with undated tasks last, and is saved; the undo slot is unchanged |
| `Store.DeleteThenUndo` | script.js:179-209 | on the store, deleting a uniquely identified task and then undoing restores the same multiset of tasks and leaves the slot empty |

## Left out

- Rendering (script.js:66-67, 76-144) is DOM construction and styling only. This includes the priority border colours, labels and buttons. `VisibleTasks` models the one computation in it.
- Browser storage and JSON (script.js:21, 27-29) are modelled only as the ghost `persisted` list and as the constructor's `stored` argument. Malformed JSON, which makes the page throw at load, is not modelled.
- Task identifiers come from `Date.now()` (script.js:41) and are a method parameter here. Identifiers may collide. Only `DeleteThenUndo` and `DeleteThenUndoRestores` require uniqueness, and they state it as a precondition.
- The photo comes from `URL.createObjectURL` (script.js:50-54), a browser call. It is an opaque optional string, taken from the form value.
- The `prompt()` dialog (script.js:152) is UI. Its answer is the `Option<string>` argument of `Edit`, with None meaning cancelled.
- Store.TaskStore.Undo: the model allows undo at any time, while the page offers it only for 4 seconds after each delete. The button is removed after 4 seconds (script.js:214) or on its first click (script.js:210), and only a delete creates a new one (script.js:184), after overwriting the slot (script.js:180). So the page can never restore a task whose button has gone, but the model, which has no clock and no button, can.
- Due dates are `Option<int>` keys that order like the date input's yyyy-mm-dd string (for example 20240301). JavaScript `Date` parsing (script.js:226) is not modelled, so a date string that parses to NaN is not covered. The empty date input is None.
- Store.TaskStore.SortByDue: the engine's sort algorithm is not modelled. The model uses an insertion sort, and the contract states only a permutation in due-date order. For two undated tasks the comparator returns 1 both ways, so no particular order among undated tasks, or among tasks with equal dates, is claimed.
- Store.TaskStore.Edit and Store.TaskStore.TogglePriority require the identifier to be present. The source dereferences `undefined` and throws otherwise, at `task.text` (script.js:152) and `task.priority` (script.js:166).
- Priorities are a three-value type. The source compares strings, so a stored priority other than "Normal" or "High" also steps to "Normal". Only "Low" can arise from the source's own writes.
- Categories and the view filter are closed sets: Work, Personal and Other, and "All" or one of them. The picker and filter options live in the page markup, and index.html is not part of this model.
- `form.reset()` and the `renderTasks()` calls after each change (script.js:59-60 and elsewhere) are presentation.
- Features the code does not contain are not modelled: a sort-direction toggle, photo type and size checks, a due-date default of today, text escaping, debouncing, colour normalisation, and storage-error reporting.
