/**
 * The task record of the to-do list and the pure pieces of its life cycle:
 * the preset colour of each category, the priority cycle and the task a
 * form submission creates.
 */
module Tasks {
  import opened JsText

  datatype Option<T> = None | Some(value: T)

  /** The options of the category picker. */
  datatype Category = Work | Personal | Other

  datatype Priority = Normal | High | Low

  /**
   * A stored task. `dueDate` is the date input's value as an integer key that orders
   * like its yyyy-mm-dd string, None for the empty string; `photo` is the object URL of the chosen file, if any.
   */
  datatype Task = Task(
    id: int,
    text: string,
    category: Category,
    fontColor: string,
    categoryColor: string,
    dueDate: Option<int>,
    priority: Priority,
    photo: Option<string>)

  /** The values of the add form's fields at the moment it is submitted. */
  datatype TaskForm = TaskForm(
    text: string,
    category: Category,
    fontColor: string,
    dueDate: Option<int>,
    photo: Option<string>)

  /** The preset colour each category is given when a task is created. */
  function PresetColor(c: Category): string {
    match c
    case Work => "#4fb9ffff"
    case Personal => "#ff42c6ff"
    case Other => "#6fcf97"
  }

  /** The text a stored task is meant to have: non-empty and trimmed. */
  predicate IsCleanText(s: string) {
    s != [] && IsTrimmed(s)
  }

  /** The priority button's step: Normal to High, High to Low, Low back to Normal. */
  function NextPriority(p: Priority): (q: Priority)
    ensures q != p
    ensures p == Normal <==> q == High
    ensures p == High <==> q == Low
  {
    match p
    case Normal => High
    case High => Low
    case Low => Normal
  }

  /** Three presses of the priority button bring a task back to its priority. */
  lemma PriorityCycle(p: Priority)
    ensures NextPriority(NextPriority(NextPriority(p))) == p
    ensures NextPriority(p) != p && NextPriority(NextPriority(p)) != p
  {
  }

  /**
   * The task a submission of `form` creates under the identifier `id`, or
   * None when the text is empty after trimming and the submission is ignored.
   */
  function MakeTask(id: int, form: TaskForm): (r: Option<Task>)
    ensures r.None? <==> Trim(form.text) == []
    ensures r.None? <==> IsBlank(form.text)
    ensures r.Some? ==> IsCleanText(r.value.text) && r.value.text == Trim(form.text)
    ensures r.Some? ==> r.value.priority == Normal && r.value.categoryColor == PresetColor(form.category)
    ensures r.Some? ==> r.value == Task(id, r.value.text, form.category, form.fontColor,
                                        PresetColor(form.category), form.dueDate, Normal, form.photo)
  {
    var text := Trim(form.text);
    if text == [] then None
    else Some(Task(id, text, form.category, form.fontColor, PresetColor(form.category), form.dueDate, Normal, form.photo))
  }
}
