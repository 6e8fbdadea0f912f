/**
 * The operations of the to-do list on the ordered list of tasks, as values:
 * looking a task up by identifier, the order-preserving filter behind the
 * category view and deletion, replacing a task's text, stepping its priority,
 * and what a delete followed by an undo leaves behind.
 */
module TaskList {
  import opened JsText
  import opened Tasks

  /** Some task in `ts` carries the identifier `id`. */
  predicate HasId(ts: seq<Task>, id: int) {
    exists i :: 0 <= i < |ts| && ts[i].id == id
  }

  /** `i` is the position of the first task in `ts` with identifier `id`. */
  predicate IsFirstWithId(ts: seq<Task>, id: int, i: int) {
    0 <= i < |ts| && ts[i].id == id && forall j :: 0 <= j < i ==> ts[j].id != id
  }

  /** At most one task in `ts` carries the identifier `id`. */
  predicate AtMostOneWithId(ts: seq<Task>, id: int) {
    forall i, j :: 0 <= i < j < |ts| && ts[i].id == id ==> ts[j].id != id
  }

  /** Every stored text is non-empty and trimmed. */
  predicate AllTextsClean(ts: seq<Task>) {
    forall i :: 0 <= i < |ts| ==> IsCleanText(ts[i].text)
  }

  /** The position `Array.prototype.find` stops at when looking for `id`, if any. */
  function FindIndex(ts: seq<Task>, id: int): (r: Option<nat>)
    ensures r.Some? ==> IsFirstWithId(ts, id, r.value)
    ensures r.None? <==> !HasId(ts, id)
    decreases |ts|
  {
    if ts == [] then None
    else if ts[0].id == id then Some(0)
    else match FindIndex(ts[1..], id)
      case None =>
        assert forall j :: 1 <= j < |ts| ==> ts[j] == ts[1..][j - 1];
        None
      case Some(i) => Some(i + 1)
  }

  /** The task `tasks.find(t => t.id === id)` returns; None stands for `undefined`. */
  function Find(ts: seq<Task>, id: int): (r: Option<Task>)
    ensures r.None? <==> !HasId(ts, id)
    ensures r.Some? ==> exists i :: IsFirstWithId(ts, id, i) && r.value == ts[i]
  {
    match FindIndex(ts, id)
    case None => None
    case Some(i) => Some(ts[i])
  }

  /** The positions IsFirstWithId accepts are exactly the one FindIndex returns. */
  lemma FirstWithIdIsFound(ts: seq<Task>, id: int)
    requires HasId(ts, id)
    ensures forall j :: IsFirstWithId(ts, id, j) <==> FindIndex(ts, id) == Some(j)
  {
  }

  /**
   * `Array.prototype.filter`: the tasks of `ts` for which `keep` holds, in
   * their order in `ts`. Each task occurs as often as in `ts` if kept, else never.
   */
  function FilterTasks(ts: seq<Task>, keep: Task -> bool): (r: seq<Task>)
    ensures forall t :: multiset(r)[t] == if keep(t) then multiset(ts)[t] else 0
    decreases |ts|
  {
    if ts == [] then []
    else
      var rest := FilterTasks(ts[1..], keep);
      assert ts == [ts[0]] + ts[1..];
      if keep(ts[0]) then [ts[0]] + rest else rest
  }

  /** Filtering a concatenation filters each part: the filter keeps relative order. */
  lemma {:induction false} FilterConcat(a: seq<Task>, b: seq<Task>, keep: Task -> bool)
    ensures FilterTasks(a + b, keep) == FilterTasks(a, keep) + FilterTasks(b, keep)
    decreases |a|
  {
    if a == [] {
      assert a + b == b;
    } else {
      assert (a + b)[1..] == a[1..] + b;
      FilterConcat(a[1..], b, keep);
    }
  }

  /** Filtering with a test every task passes returns the list itself. */
  lemma {:induction false} FilterKeepsAll(ts: seq<Task>, keep: Task -> bool)
    requires forall i :: 0 <= i < |ts| ==> keep(ts[i])
    ensures FilterTasks(ts, keep) == ts
    decreases |ts|
  {
    if ts != [] {
      FilterKeepsAll(ts[1..], keep);
      assert ts == [ts[0]] + ts[1..];
    }
  }

  /**
   * The list left by `tasks.filter(t => t.id !== id)`: every task with
   * identifier `id` is gone, every other task keeps its multiplicity, and a
   * list without that identifier is returned unchanged.
   */
  function WithoutId(ts: seq<Task>, id: int): (r: seq<Task>)
    ensures forall t :: multiset(r)[t] == if t.id == id then 0 else multiset(ts)[t]
    ensures forall i :: 0 <= i < |r| ==> r[i].id != id
    ensures !HasId(ts, id) ==> r == ts
  {
    var keep := (t: Task) => t.id != id;
    if !HasId(ts, id) then FilterKeepsAll(ts, keep); FilterTasks(ts, keep)
    else
      var r := FilterTasks(ts, keep);
      assert forall i :: 0 <= i < |r| ==> r[i] in multiset(r);
      r
  }

  /** Deleting by identifier keeps the remaining tasks in their relative order. */
  lemma {:induction false} WithoutIdKeepsOrder(a: seq<Task>, b: seq<Task>, id: int)
    ensures WithoutId(a + b, id) == WithoutId(a, id) + WithoutId(b, id)
  {
    var keep := (t: Task) => t.id != id;
    FilterConcat(a, b, keep);
    if !HasId(a, id) { FilterKeepsAll(a, keep); }
    if !HasId(b, id) { FilterKeepsAll(b, keep); }
    if !HasId(a + b, id) { FilterKeepsAll(a + b, keep); }
  }

  /** The category filter's value: "All", or one of the categories. */
  datatype CategoryFilter = All | Only(category: Category)

  /** The view shows task `t` under filter `f`. */
  predicate Shows(f: CategoryFilter, t: Task) {
    f.All? || t.category == f.category
  }

  /**
   * The tasks the list displays under filter `f`: the whole list for All,
   * otherwise each task of that category as often as it is stored and no other.
   */
  function VisibleTasks(ts: seq<Task>, f: CategoryFilter): (r: seq<Task>)
    ensures f.All? ==> r == ts
    ensures forall t :: multiset(r)[t] == if Shows(f, t) then multiset(ts)[t] else 0
  {
    if f.All? then ts
    else
      var c := f.category;
      FilterTasks(ts, (t: Task) => t.category == c)
  }

  /** The view of a concatenation is the concatenation of the views: stored order is kept. */
  lemma {:induction false} VisibleKeepsOrder(a: seq<Task>, b: seq<Task>, f: CategoryFilter)
    ensures VisibleTasks(a + b, f) == VisibleTasks(a, f) + VisibleTasks(b, f)
  {
    if f.Only? {
      var c := f.category;
      FilterConcat(a, b, (t: Task) => t.category == c);
    }
  }

  /** The prompt's answer is taken: not cancelled and not blank after trimming. */
  predicate Accepts(answer: Option<string>) {
    answer.Some? && Trim(answer.value) != []
  }

  /**
   * The list after editing the task with identifier `id` given the prompt's
   * answer (None when cancelled): if the answer is taken, the first task with
   * that identifier gets the trimmed answer as its text; nothing else changes.
   */
  function Edited(ts: seq<Task>, id: int, answer: Option<string>): (r: seq<Task>)
    requires HasId(ts, id)
    ensures |r| == |ts|
    ensures !Accepts(answer) ==> r == ts
    ensures forall j :: 0 <= j < |ts| ==> r[j] == ts[j].(text := r[j].text)
    ensures Accepts(answer) ==> forall j :: 0 <= j < |ts| ==>
      r[j].text == if IsFirstWithId(ts, id, j) then Trim(answer.value) else ts[j].text
  {
    if Accepts(answer) then
      FirstWithIdIsFound(ts, id);
      WithTextAt(ts, FindIndex(ts, id).value, Trim(answer.value))
    else ts
  }

  /** `ts` with the text of the task at position `i` replaced by `text`. */
  function WithTextAt(ts: seq<Task>, i: nat, text: string): (r: seq<Task>)
    requires i < |ts|
    ensures |r| == |ts|
    ensures forall j :: 0 <= j < |ts| ==> r[j] == if j == i then ts[j].(text := text) else ts[j]
  {
    ts[i := ts[i].(text := text)]
  }

  /** Editing never stores a blank or untrimmed text. */
  lemma EditKeepsTextsClean(ts: seq<Task>, id: int, answer: Option<string>)
    requires HasId(ts, id)
    requires AllTextsClean(ts)
    ensures AllTextsClean(Edited(ts, id, answer))
  {
  }

  /**
   * The list after pressing the priority button of the task with identifier
   * `id`: the first task with that identifier moves one step along the
   * priority cycle; nothing else changes.
   */
  function Toggled(ts: seq<Task>, id: int): (r: seq<Task>)
    requires HasId(ts, id)
    ensures |r| == |ts|
    ensures forall j :: 0 <= j < |ts| ==> r[j] == ts[j].(priority := r[j].priority)
    ensures forall j :: 0 <= j < |ts| ==>
      r[j].priority == if IsFirstWithId(ts, id, j) then NextPriority(ts[j].priority) else ts[j].priority
  {
    FirstWithIdIsFound(ts, id);
    var i := FindIndex(ts, id).value;
    ts[i := ts[i].(priority := NextPriority(ts[i].priority))]
  }

  /** Pressing the priority button of one task three times restores the whole list. */
  lemma ToggleThrice(ts: seq<Task>, id: int)
    requires HasId(ts, id)
    ensures HasId(Toggled(ts, id), id) && HasId(Toggled(Toggled(ts, id), id), id)
    ensures Toggled(Toggled(Toggled(ts, id), id), id) == ts
  {
  }

  /** Pressing the priority button keeps every stored text as it is. */
  lemma ToggleKeepsTextsClean(ts: seq<Task>, id: int)
    requires HasId(ts, id)
    requires AllTextsClean(ts)
    ensures AllTextsClean(Toggled(ts, id))
  {
  }

  /** A delete keeps only stored tasks, so it keeps every stored text clean. */
  lemma DeleteKeepsTextsClean(ts: seq<Task>, id: int)
    requires AllTextsClean(ts)
    ensures AllTextsClean(WithoutId(ts, id))
    ensures Find(ts, id).Some? ==> IsCleanText(Find(ts, id).value.text)
  {
  }

  /** When the task at `i` is the only one with identifier `id`, it occurs once and no other task with that identifier occurs. */
  lemma OnlyTaskWithId(ts: seq<Task>, id: int, i: int)
    requires IsFirstWithId(ts, id, i)
    requires AtMostOneWithId(ts, id)
    ensures forall u: Task :: u.id == id ==> multiset(ts)[u] == if u == ts[i] then 1 else 0
  {
    var t := ts[i];
    var before, after := ts[..i], ts[i + 1..];
    assert ts == before + [t] + after;
    forall k | 0 <= k < |after| ensures after[k].id != id {
      assert after[k] == ts[i + 1 + k];
    }
    assert t !in before && t !in after;
    forall u: Task | u.id == id && u != t ensures u !in ts {
    }
  }

  /**
   * Deleting the only task with identifier `id` and undoing (appending the
   * task the delete stashed) gives back the same tasks, each as often as before.
   */
  lemma DeleteThenUndoRestores(ts: seq<Task>, id: int)
    requires HasId(ts, id)
    requires AtMostOneWithId(ts, id)
    ensures Find(ts, id).Some?
    ensures multiset(WithoutId(ts, id) + [Find(ts, id).value]) == multiset(ts)
  {
    var i := FindIndex(ts, id).value;
    var t := ts[i];
    var rest := WithoutId(ts, id);
    OnlyTaskWithId(ts, id, i);
    assert multiset(rest + [t]) == multiset(rest) + multiset{t};
    forall u ensures multiset(rest + [t])[u] == multiset(ts)[u] {
      if u.id == id {
        assert multiset(ts)[u] == if u == t then 1 else 0;
      }
    }
  }
}
