/**
 * The to-do list's state: the ordered list of tasks and the single-slot undo
 * holder for the last deleted task, with the handlers that change them.
 * `persisted` is the list the browser's storage holds, that is, what the next
 * page load would read back; every handler that saves sets it to the list.
 */
module Store {
  import opened JsText
  import opened Tasks
  import opened TaskList
  import opened DueSort

  class TaskStore {
    var tasks: seq<Task>
    var lastDeleted: Option<Task>
    ghost var persisted: seq<Task>

    /** Every stored text, and the text of the task in the undo slot, is non-empty and trimmed. */
    ghost predicate TextsClean()
      reads this
    {
      AllTextsClean(tasks) && (lastDeleted.Some? ==> IsCleanText(lastDeleted.value.text))
    }

    /**
     * Page load: the list parsed from storage, or the empty list when storage
     * holds nothing; the undo slot starts empty.
     */
    constructor (stored: Option<seq<Task>>)
      ensures tasks == (if stored.Some? then stored.value else [])
      ensures lastDeleted == None
      ensures persisted == tasks
    {
      tasks := if stored.Some? then stored.value else [];
      lastDeleted := None;
      persisted := tasks;
    }

    /**
     * The add form's submit handler. A text that is empty after trimming is
     * ignored; otherwise the new task is appended and the list saved.
     */
    method Submit(id: int, form: TaskForm) returns (added: bool)
      modifies this
      ensures added <==> !IsBlank(form.text)
      ensures !added ==> tasks == old(tasks) && persisted == old(persisted)
      ensures added ==> tasks == old(tasks) + [MakeTask(id, form).value] && persisted == tasks
      ensures lastDeleted == old(lastDeleted)
      ensures old(TextsClean()) ==> TextsClean()
    {
      var made := MakeTask(id, form);
      added := made.Some?;
      if added {
        tasks := tasks + [made.value];
        persisted := tasks;
      }
    }

    /**
     * The edit button: `answer` is the prompt's result (None when cancelled).
     * A taken answer replaces the text of the first task with identifier `id`
     * and the list is saved; otherwise nothing happens.
     */
    method Edit(id: int, answer: Option<string>)
      requires HasId(tasks, id)
      modifies this
      ensures tasks == Edited(old(tasks), id, answer)
      ensures persisted == if Accepts(answer) then tasks else old(persisted)
      ensures lastDeleted == old(lastDeleted)
      ensures old(TextsClean()) ==> TextsClean()
    {
      if Accepts(answer) {
        var edited := Edited(tasks, id, answer);
        if AllTextsClean(tasks) {
          EditKeepsTextsClean(tasks, id, answer);
        }
        tasks := edited;
        persisted := tasks;
      }
    }

    /** The priority button: steps the first task with identifier `id` along the cycle and saves. */
    method TogglePriority(id: int)
      requires HasId(tasks, id)
      modifies this
      ensures tasks == Toggled(old(tasks), id)
      ensures persisted == tasks
      ensures lastDeleted == old(lastDeleted)
      ensures old(TextsClean()) ==> TextsClean()
    {
      if AllTextsClean(tasks) {
        ToggleKeepsTextsClean(tasks, id);
      }
      tasks := Toggled(tasks, id);
      persisted := tasks;
    }

    /**
     * The remove button: the first task with identifier `id` (None if there is
     * none) goes into the undo slot, replacing what it held, every task with
     * that identifier is removed, and the list is saved.
     */
    method Delete(id: int)
      modifies this
      ensures lastDeleted == Find(old(tasks), id)
      ensures tasks == WithoutId(old(tasks), id)
      ensures persisted == tasks
      ensures old(TextsClean()) ==> TextsClean()
    {
      if AllTextsClean(tasks) {
        DeleteKeepsTextsClean(tasks, id);
      }
      lastDeleted := Find(tasks, id);
      tasks := WithoutId(tasks, id);
      persisted := tasks;
    }

    /**
     * The undo button: a task in the slot is appended to the list, the list
     * saved and the slot emptied; with an empty slot nothing happens.
     */
    method Undo()
      modifies this
      ensures old(lastDeleted).Some? ==>
        tasks == old(tasks) + [old(lastDeleted).value] && persisted == tasks && lastDeleted == None
      ensures old(lastDeleted).None? ==>
        tasks == old(tasks) && persisted == old(persisted) && lastDeleted == None
      ensures old(TextsClean()) ==> TextsClean()
    {
      if lastDeleted.Some? {
        tasks := tasks + [lastDeleted.value];
        persisted := tasks;
        lastDeleted := None;
      }
    }

    /** The sort button: reorders the list by due date and saves it. */
    method SortByDue()
      modifies this
      ensures multiset(tasks) == multiset(old(tasks))
      ensures DueOrdered(tasks)
      ensures persisted == tasks
      ensures lastDeleted == old(lastDeleted)
      ensures old(TextsClean()) ==> TextsClean()
    {
      var sorted := SortByDueDate(tasks);
      if AllTextsClean(tasks) {
        forall i | 0 <= i < |sorted| ensures IsCleanText(sorted[i].text) {
          assert sorted[i] in multiset(tasks);
        }
      }
      tasks := sorted;
      persisted := tasks;
    }
  }

  /**
   * A user deletes the only task with identifier `id` and presses undo: the
   * list holds the same tasks as before, each as often, and the slot is empty.
   */
  method DeleteThenUndo(store: TaskStore, id: int)
    requires HasId(store.tasks, id) && AtMostOneWithId(store.tasks, id)
    modifies store
    ensures multiset(store.tasks) == multiset(old(store.tasks))
    ensures store.lastDeleted == None
    ensures store.persisted == store.tasks
  {
    DeleteThenUndoRestores(store.tasks, id);
    store.Delete(id);
    store.Undo();
  }
}
