/**
 * The sort-by-due-date button: the comparator it hands to `Array.prototype.sort`,
 * the order a sorted list is in, and an insertion sort driven by that comparator.
 */
module DueSort {
  import opened Tasks

  /**
   * The comparator: a task without a due date compares greater than
   * anything (even another undated task), an undated second task compares
   * greater than a dated first, and two dated tasks compare by date.
   */
  function CompareDue(a: Task, b: Task): (r: int)
    ensures a.dueDate.None? ==> r > 0
    ensures a.dueDate.Some? && b.dueDate.None? ==> r < 0
    ensures a.dueDate.Some? && b.dueDate.Some? ==>
      (r < 0 <==> a.dueDate.value < b.dueDate.value) && (r == 0 <==> a.dueDate.value == b.dueDate.value)
  {
    if a.dueDate.None? then 1
    else if b.dueDate.None? then -1
    else a.dueDate.value - b.dueDate.value
  }

  /** `a` may stand before `b` in a sorted list: if `b` has a date, `a` has one no later. */
  predicate InOrder(a: Task, b: Task) {
    b.dueDate.Some? ==> a.dueDate.Some? && a.dueDate.value <= b.dueDate.value
  }

  /**
   * `ts` is sorted by due date: every dated task precedes every undated one,
   * and the dated tasks are in non-decreasing date order.
   */
  predicate DueOrdered(ts: seq<Task>) {
    && (forall i, j :: 0 <= i < j < |ts| && ts[i].dueDate.None? ==> ts[j].dueDate.None?)
    && (forall i, j :: 0 <= i < j < |ts| && ts[i].dueDate.Some? && ts[j].dueDate.Some? ==>
          ts[i].dueDate.value <= ts[j].dueDate.value)
  }

  /**
   * The order is the one the comparator asks for: a pair is out of order
   * exactly when the comparator puts the first after the second in both
   * directions, so two undated tasks may stand either way round.
   */
  lemma InOrderIsComparatorOrder(a: Task, b: Task)
    ensures InOrder(a, b) <==> !(CompareDue(a, b) > 0 && CompareDue(b, a) < 0)
  {
  }

  /** DueOrdered is InOrder on every pair of positions. */
  lemma DueOrderedIsPairwise(ts: seq<Task>)
    ensures DueOrdered(ts) <==> forall i, j :: 0 <= i < j < |ts| ==> InOrder(ts[i], ts[j])
  {
  }

  /**
   * Inserting `t` into a sorted list just before the first task the
   * comparator puts after `t` keeps the list sorted.
   */
  lemma InsertKeepsOrder(s: seq<Task>, k: nat, t: Task)
    requires DueOrdered(s)
    requires k <= |s|
    requires forall m :: 0 <= m < k ==> CompareDue(s[m], t) <= 0
    requires k < |s| ==> CompareDue(s[k], t) > 0
    ensures DueOrdered(s[..k] + [t] + s[k..])
  {
  }

  /** Inserting `t` anywhere adds exactly one occurrence of `t`. */
  lemma InsertAddsOne(s: seq<Task>, k: nat, t: Task)
    requires k <= |s|
    ensures multiset(s[..k] + [t] + s[k..]) == multiset(s) + multiset{t}
  {
    assert s == s[..k] + s[k..];
  }

  /**
   * The sort button's reordering: a permutation of `ts` sorted by due date.
   * Each task is inserted in front of the first task the comparator puts
   * after it.
   */
  method SortByDueDate(ts: seq<Task>) returns (r: seq<Task>)
    ensures multiset(r) == multiset(ts)
    ensures DueOrdered(r)
  {
    r := [];
    var n := 0;
    while n < |ts|
      invariant 0 <= n <= |ts|
      invariant multiset(r) == multiset(ts[..n])
      invariant DueOrdered(r)
    {
      var t := ts[n];
      var k := 0;
      while k < |r| && CompareDue(r[k], t) <= 0
        invariant 0 <= k <= |r|
        invariant forall m :: 0 <= m < k ==> CompareDue(r[m], t) <= 0
      {
        k := k + 1;
      }
      InsertKeepsOrder(r, k, t);
      InsertAddsOne(r, k, t);
      r := r[..k] + [t] + r[k..];
      assert ts[..n + 1] == ts[..n] + [t];
      n := n + 1;
    }
    assert ts[..n] == ts;
  }

  /**
   * Sorting is determined when no two tasks share a date and at most one is
   * undated: tasks whose date keys are 20240301 and 20240101 (yyyymmdd) and one
   * without a date
   * can only come out as the January task, the March task, the undated task.
   */
  lemma SortExample(march: Task, none: Task, january: Task, r: seq<Task>)
    requires march.dueDate == Some(20240301) && none.dueDate == None && january.dueDate == Some(20240101)
    requires multiset(r) == multiset([march, none, january])
    requires DueOrdered(r)
    ensures r == [january, march, none]
  {
  }
}
