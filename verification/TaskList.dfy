/**
  The decisions the `TaskList` component makes when it renders: which
  form shows each task, which tasks carry the inline overdue warning, the
  overdue notices from the observer, and the empty-state message.  The
  rendered markup itself is not modelled; `now` is the time of rendering.
 */
module TaskList {
  import opened Seqs
  import opened TaskTypes
  import OverdueObserver

  datatype Kind = BasicKind | TimedKind | ChecklistKind

  /** `'dueDate' in task ? 'timed' : 'subtasks' in task ? 'checklist' : 'basic'` */
  function Classify(t: Task): (k: Kind)
    ensures k == TimedKind <==> HasDueDate(t)
    ensures k == ChecklistKind <==> !HasDueDate(t) && HasSubtasks(t)
    ensures k == BasicKind <==> !HasDueDate(t) && !HasSubtasks(t)
  {
    if HasDueDate(t) then TimedKind
    else if HasSubtasks(t) then ChecklistKind
    else BasicKind
  }

  /** The classification recovers the task's own shape. */
  lemma ClassifyMatchesShape(t: Task)
    ensures Classify(t) == match t
                           case Basic(_, _, _) => BasicKind
                           case Timed(_, _, _, _) => TimedKind
                           case Checklist(_, _, _, _) => ChecklistKind
  {
  }

  /** The inline warning: `'dueDate' in task && task.dueDate < new Date() && !task.completed`. */
  predicate ShowsOverdueWarning(t: Task, now: int) {
    HasDueDate(t) && t.dueDate < now && !t.completed
  }

  /** The inline warning and the observer use the same test. */
  lemma WarningIsObserverPredicate(t: Task, now: int)
    ensures ShowsOverdueWarning(t, now) <==> OverdueObserver.IsOverdue(t, now)
  {
  }

  datatype Row = Row(kind: Kind, task: Task, overdueWarning: bool)

  datatype View =
    | EmptyState(message: string)
    | Listing(notices: seq<string>, rows: seq<Row>)

  const EmptyMessage := "No tasks yet. Create one above!"

  /** The text of the notice for one overdue task. */
  function OverdueNotice(t: Task): string {
    "Task \"" + t.title + "\" is overdue!"
  }

  function Notices(overdue: seq<Task>): (r: seq<string>)
    ensures |r| == |overdue|
    ensures forall i :: 0 <= i < |r| ==> r[i] == OverdueNotice(overdue[i])
  {
    if |overdue| == 0 then [] else [OverdueNotice(overdue[0])] + Notices(overdue[1..])
  }

  function Rows(tasks: seq<Task>, now: int): (r: seq<Row>)
    ensures |r| == |tasks|
    ensures forall i :: 0 <= i < |r| ==>
              r[i] == Row(Classify(tasks[i]), tasks[i], ShowsOverdueWarning(tasks[i], now))
  {
    if |tasks| == 0 then [] else [Row(Classify(tasks[0]), tasks[0], ShowsOverdueWarning(tasks[0], now))] + Rows(tasks[1..], now)
  }

  /** What `TaskList` shows for `tasks`, given the overdue list it last
      received from the observer: only the empty-state message for an empty
      list, otherwise one notice per overdue task and one row per task. */
  function Render(tasks: seq<Task>, overdue: seq<Task>, now: int): (v: View)
    ensures v.EmptyState? <==> |tasks| == 0
    ensures v.EmptyState? ==> v.message == EmptyMessage
    ensures v.Listing? ==> |v.notices| == |overdue| && |v.rows| == |tasks|
    ensures v.Listing? ==> forall i :: 0 <= i < |overdue| ==> v.notices[i] == OverdueNotice(overdue[i])
    ensures v.Listing? ==> forall i :: 0 <= i < |tasks| ==>
              v.rows[i].task == tasks[i] && v.rows[i].kind == Classify(tasks[i]) &&
              (v.rows[i].overdueWarning <==> OverdueObserver.IsOverdue(tasks[i], now))
  {
    if |tasks| == 0 then EmptyState(EmptyMessage)
    else Listing(Notices(overdue), Rows(tasks, now))
  }

  /** The tasks shown with an inline warning, in row order. */
  function WarnedTasks(rows: seq<Row>): seq<Task> {
    if |rows| == 0 then []
    else if rows[0].overdueWarning then [rows[0].task] + WarnedTasks(rows[1..])
    else WarnedTasks(rows[1..])
  }

  /** When the list shown is the manager's list and the observer checked at
      the moment of rendering, the rows that carry the inline warning are
      exactly the tasks the observer reports, in the same order. */
  lemma {:induction false} WarningsAgreeWithObserver(o: OverdueObserver.Observer, tasks: seq<Task>, now: int)
    ensures WarnedTasks(Rows(tasks, now)) == OverdueObserver.CheckOverdueTasks(o, tasks, now).overdue
  {
    if |tasks| > 0 {
      WarningsAgreeWithObserver(o, tasks[1..], now);
      var rows := Rows(tasks, now);
      assert rows[1..] == Rows(tasks[1..], now);
      FilterUnfold(tasks, OverdueObserver.OverdueAt(now));
    }
  }
}
