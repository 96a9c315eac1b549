/**
  `TaskAdapter.adaptExternalTasks`: records in the external API's format
  become tasks of the app.  The shape is chosen in a fixed order: a
  non-empty due date makes a timed task, otherwise a non-empty subtask
  list makes a checklist task, otherwise the task is basic.

  Optional fields of the external record are `Option`s; JavaScript
  truthiness of the due date (a non-empty string), of `completed` and of
  the subtask list is spelled out.  Turning the due-date string into a
  timestamp (`new Date(s)`) is the parameter `parseDate`.
 */
module TaskAdapter {
  import opened Seqs
  import opened TaskTypes

  datatype ExternalTask = ExternalTask(
    id: string,
    title: string,
    description: Option<string>,
    dueDate: Option<string>,
    completed: Option<bool>,
    subtasks: Option<seq<Subtask>>)

  /** `if (externalTask.dueDate)` */
  predicate DueDateTruthy(e: ExternalTask) {
    e.dueDate.Some? && e.dueDate.value != ""
  }

  /** `externalTask.subtasks && externalTask.subtasks.length > 0` */
  predicate HasSubtaskList(e: ExternalTask) {
    e.subtasks.Some? && |e.subtasks.value| > 0
  }

  /** `externalTask.completed || false` */
  function CompletedOrFalse(e: ExternalTask): bool {
    e.completed == Some(true)
  }

  /** The callback of `externalTasks.map(...)`: one record to one task. */
  function AdaptTask(e: ExternalTask, parseDate: string -> int): (t: Task)
    ensures t.id == e.id && t.title == e.title
    ensures t.completed <==> e.completed == Some(true)
    ensures t.Timed? <==> DueDateTruthy(e)
    ensures t.Timed? ==> t.dueDate == parseDate(e.dueDate.value)
    ensures t.Checklist? <==> !DueDateTruthy(e) && HasSubtaskList(e)
    ensures t.Checklist? ==> t.subtasks == e.subtasks.value
    ensures t.Basic? <==> !DueDateTruthy(e) && !HasSubtaskList(e)
  {
    var completed := CompletedOrFalse(e);
    if DueDateTruthy(e) then
      Timed(e.id, e.title, completed, parseDate(e.dueDate.value))
    else if HasSubtaskList(e) then
      Checklist(e.id, e.title, completed, e.subtasks.value)
    else
      Basic(e.id, e.title, completed)
  }

  /** `adaptExternalTasks`: one task per record, in order. */
  function AdaptExternalTasks(es: seq<ExternalTask>, parseDate: string -> int): (ts: seq<Task>)
    ensures |ts| == |es|
    ensures forall i :: 0 <= i < |es| ==> ts[i] == AdaptTask(es[i], parseDate)
  {
    if |es| == 0 then [] else [AdaptTask(es[0], parseDate)] + AdaptExternalTasks(es[1..], parseDate)
  }

  /** A due date wins over subtasks: a record carrying both becomes a
      timed task and its subtasks are dropped. */
  lemma DueDateTakesPrecedence(e: ExternalTask, parseDate: string -> int)
    requires DueDateTruthy(e) && HasSubtaskList(e)
    ensures AdaptTask(e, parseDate) == Timed(e.id, e.title, CompletedOrFalse(e), parseDate(e.dueDate.value))
  {
  }

  /** An empty subtask array does not make a checklist task, and the
      description never survives adaptation. */
  lemma EmptySubtasksGiveBasicTask(e: ExternalTask, parseDate: string -> int)
    requires !DueDateTruthy(e) && e.subtasks == Some([])
    ensures AdaptTask(e, parseDate) == Basic(e.id, e.title, CompletedOrFalse(e))
  {
  }

  /** The adapted task depends on the record only through its id, title,
      completion flag, due date and subtasks: the description is ignored. */
  lemma DescriptionIsDropped(e: ExternalTask, d: Option<string>, parseDate: string -> int)
    ensures AdaptTask(e.(description := d), parseDate) == AdaptTask(e, parseDate)
  {
  }

  /** Adapting a concatenation adapts the parts, so every record's task
      stays at the record's position. */
  lemma {:induction false} AdaptAppend(a: seq<ExternalTask>, b: seq<ExternalTask>, parseDate: string -> int)
    ensures AdaptExternalTasks(a + b, parseDate) == AdaptExternalTasks(a, parseDate) + AdaptExternalTasks(b, parseDate)
  {
    if |a| > 0 {
      assert (a + b)[1..] == a[1..] + b;
      AdaptAppend(a[1..], b, parseDate);
    }
  }

  /** The three records `fetchExternalTasks` returns in the mock API. */
  function MockExternalTasks(): seq<ExternalTask> {
    [ ExternalTask("1", "Complete project", Some("Finish the task manager app"), None, Some(false), None),
      ExternalTask("2", "Buy groceries", None, Some("2023-12-31T12:00:00Z"), Some(false), None),
      ExternalTask("3", "Write documentation", None, None, None,
                   Some([Subtask("3-1", "Research", true), Subtask("3-2", "Draft outline", false)])) ]
  }

  /** The mock data adapts to a basic, a timed and a two-item checklist
      task, none of them completed. */
  lemma MockAdaptation(parseDate: string -> int)
    ensures AdaptExternalTasks(MockExternalTasks(), parseDate) ==
            [ Basic("1", "Complete project", false),
              Timed("2", "Buy groceries", false, parseDate("2023-12-31T12:00:00Z")),
              Checklist("3", "Write documentation", false,
                        [Subtask("3-1", "Research", true), Subtask("3-2", "Draft outline", false)]) ]
  {
  }
}
