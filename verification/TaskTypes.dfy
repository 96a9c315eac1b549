/**
  The to-do items of the Todo-midterms app.  A task is one of three shapes:
  a basic task, a timed task that adds a due date, and a checklist task
  that adds a list of subtasks.  Due dates are timestamps in milliseconds
  since the epoch, which is what a JavaScript `Date` compares by.
 */
module TaskTypes {

  datatype Subtask = Subtask(id: string, title: string, completed: bool)

  datatype Task =
    | Basic(id: string, title: string, completed: bool)
    | Timed(id: string, title: string, completed: bool, dueDate: int)
    | Checklist(id: string, title: string, completed: bool, subtasks: seq<Subtask>)

  /** `'dueDate' in task` */
  predicate HasDueDate(t: Task) {
    t.Timed?
  }

  /** `'subtasks' in task` */
  predicate HasSubtasks(t: Task) {
    t.Checklist?
  }

  /** The predicate `task => task.id === id`, as a value, so that every
      operation selecting by id uses the very same function. */
  function HasId(id: string): Task -> bool {
    (t: Task) => t.id == id
  }

  /** The predicate `task => task.id !== id`. */
  function LacksId(id: string): Task -> bool {
    (t: Task) => t.id != id
  }
}
