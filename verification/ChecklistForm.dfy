/**
  The state and event handlers of the `ChecklistTask` form component.  The
  same component creates a new checklist task (no `task` prop) and shows
  an existing one (with a `task` prop); an existing task's title is read
  only and its subtasks cannot be added or removed, but subtask edits and
  the completion checkbox save it immediately.

  Random ids (`Math.random().toString(36)`) are parameters.  A handler's
  result is the next form state together with the task it hands to
  `onCreate` or `onUpdate`, if any.
 */
module ChecklistForm {
  import opened Seqs
  import opened TaskTypes
  import JsString

  /** The `task` prop: an existing checklist task. */
  datatype ChecklistProp = ChecklistProp(id: string, title: string, completed: bool, subtasks: seq<Subtask>)

  datatype Form = Form(task: Option<ChecklistProp>, title: string, completed: bool, subtasks: seq<Subtask>)

  datatype Emit = Nothing | Created(task: Task) | Updated(task: Task)

  datatype Step = Step(form: Form, emit: Emit)

  /** `const isExistingTask = !!task` */
  predicate IsExisting(f: Form) {
    f.task.Some?
  }

  function BlankSubtask(id: string): Subtask {
    Subtask(id, "", false)
  }

  /** The initial state: the prop's fields, or an empty title, unchecked,
      and a single blank subtask. */
  function Open(task: Option<ChecklistProp>, blankId: string): (f: Form)
    ensures f.task == task
    ensures task.Some? ==> f.title == task.value.title && f.completed == task.value.completed
                           && f.subtasks == task.value.subtasks
    ensures task.None? ==> f.title == "" && !f.completed && f.subtasks == [BlankSubtask(blankId)]
  {
    match task
    case Some(t) => Form(task, t.title, t.completed, t.subtasks)
    case None => Form(None, "", false, [BlankSubtask(blankId)])
  }

  /** The `field` and `value` arguments of `handleSubtaskChange`. */
  datatype SubtaskEdit = SetTitle(title: string) | SetCompleted(completed: bool)

  /** `{ ...subtask, [field]: value }` */
  function ApplyEdit(s: Subtask, e: SubtaskEdit): Subtask {
    match e
    case SetTitle(v) => s.(title := v)
    case SetCompleted(v) => s.(completed := v)
  }

  function SubtaskHasId(id: string): Subtask -> bool {
    (s: Subtask) => s.id == id
  }

  function SubtaskLacksId(id: string): Subtask -> bool {
    (s: Subtask) => s.id != id
  }

  /** `subtasks.map(s => s.id === id ? { ...s, [field]: value } : s)`: the
      edited field changes on every subtask with the id; nothing else
      changes. */
  function EditSubtasks(subtasks: seq<Subtask>, id: string, e: SubtaskEdit): (r: seq<Subtask>)
    ensures |r| == |subtasks|
    ensures forall i :: 0 <= i < |r| ==> r[i].id == subtasks[i].id
    ensures forall i :: 0 <= i < |r| && subtasks[i].id != id ==> r[i] == subtasks[i]
    ensures forall i :: 0 <= i < |r| && subtasks[i].id == id ==>
              match e
              case SetTitle(v) => r[i].title == v && r[i].completed == subtasks[i].completed
              case SetCompleted(v) => r[i].completed == v && r[i].title == subtasks[i].title
  {
    MapWhere(subtasks, SubtaskHasId(id), s => ApplyEdit(s, e))
  }

  /** `handleSubtaskChange(id, field, value)`: the subtasks are edited and
      an existing task is saved at once with its id, the current title and
      flag, and the full edited subtask list. */
  function HandleSubtaskChange(f: Form, id: string, e: SubtaskEdit): (s: Step)
    ensures s.form.subtasks == EditSubtasks(f.subtasks, id, e)
    ensures s.form.task == f.task && s.form.title == f.title && s.form.completed == f.completed
    ensures IsExisting(f) ==> s.emit == Updated(Checklist(f.task.value.id, f.title, f.completed, s.form.subtasks))
    ensures !IsExisting(f) ==> s.emit == Nothing
  {
    var updated := EditSubtasks(f.subtasks, id, e);
    var f' := f.(subtasks := updated);
    if IsExisting(f) then Step(f', Updated(Checklist(f.task.value.id, f.title, f.completed, updated)))
    else Step(f', Nothing)
  }

  /** `addSubtask()`: a blank subtask at the end of a new task's list; an
      existing task is left alone. */
  function AddSubtask(f: Form, newId: string): (r: Form)
    ensures IsExisting(f) ==> r == f
    ensures !IsExisting(f) ==> r == f.(subtasks := f.subtasks + [BlankSubtask(newId)])
  {
    if IsExisting(f) then f else f.(subtasks := f.subtasks + [BlankSubtask(newId)])
  }

  /** `removeSubtask(id)`: a new task loses its subtasks with the id, the
      rest keep their order; an existing task is left alone. */
  function RemoveSubtask(f: Form, id: string): (r: Form)
    ensures IsExisting(f) ==> r == f
    ensures !IsExisting(f) ==> r.task == f.task && r.title == f.title && r.completed == f.completed
    ensures !IsExisting(f) ==> forall i :: 0 <= i < |r.subtasks| ==> r.subtasks[i].id != id
    ensures !IsExisting(f) ==> forall s: Subtask :: s.id != id ==> multiset(r.subtasks)[s] == multiset(f.subtasks)[s]
    ensures !IsExisting(f) ==> IsSubsequence(r.subtasks, f.subtasks)
  {
    if IsExisting(f) then f else f.(subtasks := Filter(f.subtasks, SubtaskLacksId(id)))
  }

  /** Removing a subtask that was just added under a new id undoes the
      addition. */
  lemma RemoveUndoesAdd(f: Form, newId: string)
    requires forall i :: 0 <= i < |f.subtasks| ==> f.subtasks[i].id != newId
    ensures RemoveSubtask(AddSubtask(f, newId), newId) == f
  {
    if !IsExisting(f) {
      FilterAppend(f.subtasks, [BlankSubtask(newId)], SubtaskLacksId(newId));
      FilterAllPass(f.subtasks, SubtaskLacksId(newId));
    }
  }

  /** The title input's change handler: only a new task's title changes. */
  function ChangeTitle(f: Form, title: string): (r: Form)
    ensures IsExisting(f) ==> r == f
    ensures !IsExisting(f) ==> r == f.(title := title)
  {
    if IsExisting(f) then f else f.(title := title)
  }

  /** The completion checkbox: the flag changes, and an existing task is
      saved at once as the prop with the new flag and the current
      subtasks. */
  function ToggleCompleted(f: Form, checked: bool): (s: Step)
    ensures s.form == f.(completed := checked)
    ensures IsExisting(f) ==> s.emit == Updated(Checklist(f.task.value.id, f.task.value.title, checked, f.subtasks))
    ensures !IsExisting(f) ==> s.emit == Nothing
  {
    var f' := f.(completed := checked);
    match f.task
    case Some(t) => Step(f', Updated(Checklist(t.id, t.title, checked, f.subtasks)))
    case None => Step(f', Nothing)
  }

  /** `subtask.title.trim() !== ""` */
  predicate IsFilledIn(s: Subtask) {
    JsString.Trim(s.title) != ""
  }

  /** A title with at least one character that is not white space. */
  ghost predicate HasVisibleChar(title: string) {
    exists j :: 0 <= j < |title| && !JsString.IsJsWhiteSpace(title[j])
  }

  lemma FilledInIffVisible(s: Subtask)
    ensures IsFilledIn(s) <==> HasVisibleChar(s.title)
  {
    JsString.TrimEmptyIffBlank(s.title);
  }

  /** `task?.id || Math.random()...`: the prop's id unless it is missing or
      empty, in which case the fresh id. */
  function SubmittedId(f: Form, freshId: string): string {
    if f.task.Some? && f.task.value.id != "" then f.task.value.id else freshId
  }

  /** `handleSubmit`: builds a checklist task from the form, keeping the
      subtasks whose trimmed title is non-empty, in order.  An existing
      task is passed to `onUpdate` and the form stays as it is; a new task
      is passed to `onCreate` and the form is reset. */
  function HandleSubmit(f: Form, freshId: string, blankId: string): (s: Step)
    ensures s.emit.Created? || s.emit.Updated?
    ensures s.emit.Updated? <==> IsExisting(f)
    ensures s.emit.task.Checklist?
    ensures s.emit.task.id == SubmittedId(f, freshId)
    ensures s.emit.task.title == f.title && s.emit.task.completed == f.completed
    ensures forall i :: 0 <= i < |s.emit.task.subtasks| ==> HasVisibleChar(s.emit.task.subtasks[i].title)
    ensures forall t :: IsFilledIn(t) ==> multiset(s.emit.task.subtasks)[t] == multiset(f.subtasks)[t]
    ensures IsSubsequence(s.emit.task.subtasks, f.subtasks)
    ensures IsExisting(f) ==> s.form == f
    ensures !IsExisting(f) ==> s.form == Open(None, blankId)
  {
    var kept := Filter(f.subtasks, IsFilledIn);
    forall i | 0 <= i < |kept| ensures HasVisibleChar(kept[i].title) {
      FilledInIffVisible(kept[i]);
    }
    var task := Checklist(SubmittedId(f, freshId), f.title, f.completed, kept);
    if IsExisting(f) then Step(f, Updated(task))
    else Step(Open(None, blankId), Created(task))
  }

  /** An existing task keeps its id when it has one. */
  lemma SubmitKeepsExistingId(f: Form, freshId: string, blankId: string)
    requires IsExisting(f) && f.task.value.id != ""
    ensures HandleSubmit(f, freshId, blankId).emit == Updated(HandleSubmit(f, freshId, blankId).emit.task)
    ensures HandleSubmit(f, freshId, blankId).emit.task.id == f.task.value.id
  {
  }

  /** When every subtask has a visible title, submitting keeps them all. */
  lemma SubmitKeepsFilledInSubtasks(f: Form, freshId: string, blankId: string)
    requires forall i :: 0 <= i < |f.subtasks| ==> HasVisibleChar(f.subtasks[i].title)
    ensures HandleSubmit(f, freshId, blankId).emit.task.subtasks == f.subtasks
  {
    forall i | 0 <= i < |f.subtasks| ensures IsFilledIn(f.subtasks[i]) {
      FilledInIffVisible(f.subtasks[i]);
    }
    FilterAllPass(f.subtasks, IsFilledIn);
  }

  /** A brand-new form with only a title typed creates a task with that
      title and no subtasks: its only subtask is blank. */
  lemma SubmitTitleOnlyNewForm(title: string, blankId: string, freshId: string, blankId2: string)
    requires title != ""
    ensures HandleSubmit(ChangeTitle(Open(None, blankId), title), freshId, blankId2).emit ==
            Created(Checklist(freshId, title, false, []))
  {
    assert JsString.Trim("") == "";
  }

  /** An existing task's title cannot be edited: whatever is typed, the
      checkbox and the submit both hand on the prop's own title. */
  lemma ExistingTitleIsFixed(p: ChecklistProp, blankId: string, title: string, checked: bool, freshId: string)
    ensures var f := ChangeTitle(Open(Some(p), blankId), title);
            && f.title == p.title
            && ToggleCompleted(f, checked).emit == Updated(Checklist(p.id, p.title, checked, p.subtasks))
            && HandleSubmit(f, freshId, blankId).emit.task.title == p.title
  {
  }
}
