/**
  `TaskSortingStrategy`: four orderings of the task list, each sorting a
  fresh copy so the caller's list is left as it was (lists are values
  here, so that holds by construction).

  `localeCompare` is not modelled; the string orderings take it as a
  parameter that is only assumed to be a total preorder.
 */
module TaskSorting {
  import opened Seqs
  import opened TaskTypes
  import opened Sorting
  import StableSort

  /** `(a, b) => a.id.localeCompare(b.id)` */
  function ById(localeCompare: (string, string) -> int): (Task, Task) -> int {
    (a: Task, b: Task) => localeCompare(a.id, b.id)
  }

  /** `(a, b) => a.title.localeCompare(b.title)` */
  function ByTitle(localeCompare: (string, string) -> int): (Task, Task) -> int {
    (a: Task, b: Task) => localeCompare(a.title, b.title)
  }

  lemma ByIdIsTotalPreorder(localeCompare: (string, string) -> int)
    requires IsTotalPreorder(localeCompare)
    ensures IsTotalPreorder(ById(localeCompare))
  {
    var cmp := ById(localeCompare);
    forall a: Task, b: Task ensures cmp(a, b) <= 0 || cmp(b, a) <= 0 {
      assert localeCompare(a.id, b.id) <= 0 || localeCompare(b.id, a.id) <= 0;
    }
    forall a: Task, b: Task, c: Task | cmp(a, b) <= 0 && cmp(b, c) <= 0 ensures cmp(a, c) <= 0 {
      assert localeCompare(a.id, b.id) <= 0 && localeCompare(b.id, c.id) <= 0;
    }
  }

  lemma ByTitleIsTotalPreorder(localeCompare: (string, string) -> int)
    requires IsTotalPreorder(localeCompare)
    ensures IsTotalPreorder(ByTitle(localeCompare))
  {
    var cmp := ByTitle(localeCompare);
    forall a: Task, b: Task ensures cmp(a, b) <= 0 || cmp(b, a) <= 0 {
      assert localeCompare(a.title, b.title) <= 0 || localeCompare(b.title, a.title) <= 0;
    }
    forall a: Task, b: Task, c: Task | cmp(a, b) <= 0 && cmp(b, c) <= 0 ensures cmp(a, c) <= 0 {
      assert localeCompare(a.title, b.title) <= 0 && localeCompare(b.title, c.title) <= 0;
    }
  }

  /** `sortById`: a permutation of the list in non-decreasing id order. */
  function SortById(tasks: seq<Task>, localeCompare: (string, string) -> int): (r: seq<Task>)
    requires IsTotalPreorder(localeCompare)
    ensures multiset(r) == multiset(tasks)
    ensures forall i, j :: 0 <= i < j < |r| ==> localeCompare(r[i].id, r[j].id) <= 0
  {
    ByIdIsTotalPreorder(localeCompare);
    var r := Sort(tasks, ById(localeCompare));
    assert forall i, j :: 0 <= i < j < |r| ==> ById(localeCompare)(r[i], r[j]) <= 0;
    r
  }

  /** `sortByTitle`: a permutation of the list in non-decreasing title order. */
  function SortByTitle(tasks: seq<Task>, localeCompare: (string, string) -> int): (r: seq<Task>)
    requires IsTotalPreorder(localeCompare)
    ensures multiset(r) == multiset(tasks)
    ensures forall i, j :: 0 <= i < j < |r| ==> localeCompare(r[i].title, r[j].title) <= 0
  {
    ByTitleIsTotalPreorder(localeCompare);
    var r := Sort(tasks, ByTitle(localeCompare));
    assert forall i, j :: 0 <= i < j < |r| ==> ByTitle(localeCompare)(r[i], r[j]) <= 0;
    r
  }

  /** The time a task sorts by: its due date, or the epoch (0) for a task
      without one. */
  function DueKey(t: Task): int {
    if HasDueDate(t) then t.dueDate else 0
  }

  /** `aDate.getTime() - bDate.getTime()` */
  function CompareByDueDate(a: Task, b: Task): int {
    DueKey(a) - DueKey(b)
  }

  lemma DueDateIsTotalPreorder()
    ensures IsTotalPreorder(CompareByDueDate)
  {
  }

  /** `sortByDueDate`: a permutation in non-decreasing due-date order,
      tasks without a due date counting as due at the epoch. */
  function SortByDueDate(tasks: seq<Task>): (r: seq<Task>)
    ensures multiset(r) == multiset(tasks)
    ensures forall i, j :: 0 <= i < j < |r| ==> DueKey(r[i]) <= DueKey(r[j])
  {
    DueDateIsTotalPreorder();
    var r := Sort(tasks, CompareByDueDate);
    assert forall i, j :: 0 <= i < j < |r| ==> CompareByDueDate(r[i], r[j]) <= 0;
    r
  }

  /** Tasks that all sort as due at the same moment, such as lists with no
      timed task, keep their order. */
  lemma SortByDueDateStable(tasks: seq<Task>)
    requires forall i, j :: 0 <= i < |tasks| && 0 <= j < |tasks| ==> DueKey(tasks[i]) == DueKey(tasks[j])
    ensures SortByDueDate(tasks) == tasks
  {
    DueDateIsTotalPreorder();
    SortKeepsSortedInput(tasks, CompareByDueDate);
  }

  /** The tasks that sort as due at time `k`. */
  function DueAt(k: int): Task -> bool {
    (t: Task) => DueKey(t) == k
  }

  /** Stability of `sortByDueDate`: the tasks that share a due date, and
      the tasks without one, keep their input order. */
  lemma SortByDueDateKeepsTiesInOrder(tasks: seq<Task>, k: int)
    ensures Filter(SortByDueDate(tasks), DueAt(k)) == Filter(tasks, DueAt(k))
  {
    DueDateIsTotalPreorder();
    StableSort.SortIsStable(tasks, CompareByDueDate, DueAt(k));
  }

  /** The completion comparator: equal flags compare as 0, otherwise the
      completed task goes second. */
  function CompareByCompletion(a: Task, b: Task): int {
    if a.completed == b.completed then 0
    else if a.completed then 1
    else -1
  }

  lemma CompletionIsTotalPreorder()
    ensures IsTotalPreorder(CompareByCompletion)
  {
  }

  predicate IsIncomplete(t: Task) {
    !t.completed
  }

  predicate IsComplete(t: Task) {
    t.completed
  }

  /** `sortByCompletion`: a permutation in which no completed task comes
      before an incomplete one. */
  function SortByCompletion(tasks: seq<Task>): (r: seq<Task>)
    ensures multiset(r) == multiset(tasks)
    ensures forall i, j :: 0 <= i < j < |r| && r[i].completed ==> r[j].completed
  {
    CompletionIsTotalPreorder();
    var r := Sort(tasks, CompareByCompletion);
    assert forall i, j :: 0 <= i < j < |r| ==> CompareByCompletion(r[i], r[j]) <= 0;
    r
  }

  /** Inserting into a list made of incomplete tasks followed by completed
      ones puts an incomplete task in front and a completed task right
      after the incomplete block. */
  lemma {:induction false} InsertIntoPartition(x: Task, inc: seq<Task>, com: seq<Task>)
    requires forall i :: 0 <= i < |inc| ==> !inc[i].completed
    requires forall i :: 0 <= i < |com| ==> com[i].completed
    ensures Insert(x, inc + com, CompareByCompletion) ==
            if x.completed then inc + ([x] + com) else [x] + inc + com
  {
    if |inc| == 0 {
      assert inc + com == com;
    } else if x.completed {
      assert (inc + com)[1..] == inc[1..] + com;
      InsertIntoPartition(x, inc[1..], com);
      assert inc == [inc[0]] + inc[1..];
    }
  }

  lemma {:induction false} SortCompletionPartition(tasks: seq<Task>)
    requires IsTotalPreorder(CompareByCompletion)
    ensures Sort(tasks, CompareByCompletion) == Filter(tasks, IsIncomplete) + Filter(tasks, IsComplete)
  {
    if |tasks| > 0 {
      var x, rest := tasks[0], tasks[1..];
      var inc := Filter(rest, IsIncomplete);
      var com := Filter(rest, IsComplete);
      var sorted := Sort(tasks, CompareByCompletion);
      var fi := Filter(tasks, IsIncomplete);
      var fc := Filter(tasks, IsComplete);
      SortCompletionPartition(rest);
      SortUnfold(tasks, CompareByCompletion);
      assert sorted == Insert(x, inc + com, CompareByCompletion);
      InsertIntoPartition(x, inc, com);
      FilterUnfold(tasks, IsIncomplete);
      FilterUnfold(tasks, IsComplete);
      if x.completed {
        assert sorted == inc + ([x] + com);
        assert fi == inc;
        assert fc == [x] + com;
      } else {
        assert sorted == [x] + inc + com;
        assert fi == [x] + inc;
        assert fc == com;
      }
    }
  }

  /** Because the sort is stable and the comparator only looks at the flag,
      the result is the incomplete tasks in their original order followed
      by the completed tasks in their original order. */
  lemma SortByCompletionPartition(tasks: seq<Task>)
    ensures SortByCompletion(tasks) == Filter(tasks, IsIncomplete) + Filter(tasks, IsComplete)
  {
    CompletionIsTotalPreorder();
    SortCompletionPartition(tasks);
  }
}
