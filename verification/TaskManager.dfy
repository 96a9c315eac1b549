/**
  The `TaskManager` singleton: one in-memory list of tasks with add,
  update-by-id, remove-by-id, search-by-title, find-by-id and clear.  Every
  mutating method of the source replaces the list with a new array, so
  each operation here maps the old manager to the new one.

  The list-level operations `AppendTask`, `ReplaceById` and `RemoveById`
  are also what the App component's handlers do to its own copy of the
  list, so they are defined once, here.
 */
module TaskManager {
  import opened Seqs
  import opened TaskTypes
  import JsString
  import Singleton

  datatype Manager = Manager(tasks: seq<Task>)

  /** `[...tasks, newTask]` */
  function AppendTask(xs: seq<Task>, t: Task): (r: seq<Task>)
    ensures |r| == |xs| + 1
    ensures r[..|xs|] == xs && r[|xs|] == t
  {
    xs + [t]
  }

  /** `tasks.map(task => task.id === updated.id ? updated : task)` */
  function ReplaceById(xs: seq<Task>, updated: Task): (r: seq<Task>)
    ensures |r| == |xs|
    ensures forall i :: 0 <= i < |xs| && xs[i].id == updated.id ==> r[i] == updated
    ensures forall i :: 0 <= i < |xs| && xs[i].id != updated.id ==> r[i] == xs[i]
  {
    MapWhere(xs, HasId(updated.id), _ => updated)
  }

  /** `tasks.filter(task => task.id !== id)` */
  function RemoveById(xs: seq<Task>, id: string): (r: seq<Task>)
    ensures forall i :: 0 <= i < |r| ==> r[i].id != id
    ensures forall t :: t in r <==> t in xs && t.id != id
    ensures forall t: Task :: t.id != id ==> multiset(r)[t] == multiset(xs)[t]
    ensures IsSubsequence(r, xs)
    ensures (forall i :: 0 <= i < |xs| ==> xs[i].id != id) ==> r == xs
  {
    if forall i :: 0 <= i < |xs| ==> xs[i].id != id then
      FilterAllPass(xs, LacksId(id));
      Filter(xs, LacksId(id))
    else
      Filter(xs, LacksId(id))
  }

  /** The slot behind `TaskManager.instance`. */
  function GetInstance(slot: Singleton.Slot<Manager>): (r: (Singleton.Slot<Manager>, Manager))
    ensures r.0.instance == Some(r.1)
    ensures slot.instance.None? ==> r.1.tasks == []
    ensures slot.instance.Some? ==> r == (slot, slot.instance.value)
  {
    Singleton.GetInstance(slot, Manager([]))
  }

  /** The module-level `testSingleton`: two `getInstance` calls yield the
      same manager. */
  lemma SingletonTest(slot: Singleton.Slot<Manager>)
    ensures GetInstance(slot).1 == GetInstance(GetInstance(slot).0).1
  {
    Singleton.SecondCallSameInstance(slot, Manager([]), Manager([]));
  }

  /** `getAllTasks()`: a copy of the stored list.  Lists are values here,
      so the copy is the list itself. */
  function GetAllTasks(m: Manager): seq<Task> {
    m.tasks
  }

  /** `init(tasks)` stores a copy of `tasks`; reading the list back gives
      exactly what was stored. */
  function Init(xs: seq<Task>): (m: Manager)
    ensures GetAllTasks(m) == xs
  {
    Manager(xs)
  }

  /** `addTask` appends at the end and leaves earlier tasks in place. */
  function AddTask(m: Manager, t: Task): (r: Manager)
    ensures |r.tasks| == |m.tasks| + 1
    ensures r.tasks[..|m.tasks|] == m.tasks
    ensures r.tasks[|m.tasks|] == t
  {
    Manager(AppendTask(m.tasks, t))
  }

  /** `updateTask` replaces every task carrying the new task's id and
      keeps every other task at its position. */
  function UpdateTask(m: Manager, updated: Task): (r: Manager)
    ensures |r.tasks| == |m.tasks|
    ensures forall i :: 0 <= i < |m.tasks| && m.tasks[i].id == updated.id ==> r.tasks[i] == updated
    ensures forall i :: 0 <= i < |m.tasks| && m.tasks[i].id != updated.id ==> r.tasks[i] == m.tasks[i]
  {
    Manager(ReplaceById(m.tasks, updated))
  }

  /** `removeTask` drops every task with the id, keeps the rest in order,
      and changes nothing when no task has the id. */
  function RemoveTask(m: Manager, id: string): (r: Manager)
    ensures forall i :: 0 <= i < |r.tasks| ==> r.tasks[i].id != id
    ensures forall t: Task :: t.id != id ==> multiset(r.tasks)[t] == multiset(m.tasks)[t]
    ensures IsSubsequence(r.tasks, m.tasks)
    ensures (forall i :: 0 <= i < |m.tasks| ==> m.tasks[i].id != id) ==> r == m
  {
    Manager(RemoveById(m.tasks, id))
  }

  /** `task.title.toLowerCase().includes(query.toLowerCase())` */
  predicate TitleMatches(t: Task, query: string) {
    JsString.Includes(JsString.ToLowerCase(t.title), JsString.ToLowerCase(query))
  }

  function TitleMatcher(query: string): Task -> bool {
    (t: Task) => TitleMatches(t, query)
  }

  /** `searchTasks(query)`: every task whose title contains the query,
      ignoring case, in list order and with multiplicity. */
  function SearchTasks(m: Manager, query: string): (r: seq<Task>)
    ensures forall t :: t in r <==> t in m.tasks && TitleMatches(t, query)
    ensures forall t :: TitleMatches(t, query) ==> multiset(r)[t] == multiset(m.tasks)[t]
    ensures IsSubsequence(r, m.tasks)
  {
    Filter(m.tasks, TitleMatcher(query))
  }

  /** The empty query matches every title. */
  lemma SearchEmptyQuery(m: Manager)
    ensures SearchTasks(m, "") == m.tasks
  {
    forall i | 0 <= i < |m.tasks|
      ensures TitleMatcher("")(m.tasks[i])
    {
      JsString.IncludesEmpty(JsString.ToLowerCase(m.tasks[i].title));
    }
    FilterAllPass(m.tasks, TitleMatcher(""));
  }

  /** Searching for a query or for its lower-cased form finds the same
      tasks: the search is case-insensitive. */
  lemma SearchIgnoresQueryCase(m: Manager, query: string)
    ensures SearchTasks(m, JsString.ToLowerCase(query)) == SearchTasks(m, query)
  {
    JsString.ToLowerCaseIdempotent(query);
    FilterCongruent(m.tasks, TitleMatcher(JsString.ToLowerCase(query)), TitleMatcher(query));
  }

  /** `getTaskById(id)`: the first task with the id, or nothing. */
  function GetTaskById(m: Manager, id: string): (r: Option<Task>)
    ensures r.None? <==> forall i :: 0 <= i < |m.tasks| ==> m.tasks[i].id != id
    ensures r.Some? ==> r.value.id == id
    ensures r.Some? ==> exists i :: 0 <= i < |m.tasks| && m.tasks[i] == r.value &&
                                    forall j :: 0 <= j < i ==> m.tasks[j].id != id
  {
    Find(m.tasks, HasId(id))
  }

  /** `clearAllTasks()` */
  function ClearAllTasks(m: Manager): (r: Manager)
    ensures |r.tasks| == 0
  {
    Manager([])
  }

  /** `getAllTasks()` reads back what the mutators left: the list with the
      task appended, the list without the id, or nothing after a clear. */
  lemma GetAllTasksTracksOperations(m: Manager, t: Task, id: string)
    ensures GetAllTasks(AddTask(m, t)) == GetAllTasks(m) + [t]
    ensures GetAllTasks(RemoveTask(m, id)) == Filter(GetAllTasks(m), LacksId(id))
    ensures GetAllTasks(ClearAllTasks(m)) == []
  {
  }

  /** After `clearAllTasks()` no id is found and no query matches. */
  lemma ClearLeavesNothing(m: Manager, id: string, query: string)
    ensures GetTaskById(ClearAllTasks(m), id).None?
    ensures SearchTasks(ClearAllTasks(m), query) == []
    ensures GetAllTasks(ClearAllTasks(m)) == []
  {
  }

  /** A task added under a new id is found by that id. */
  lemma FindAfterAdd(m: Manager, t: Task)
    requires forall i :: 0 <= i < |m.tasks| ==> m.tasks[i].id != t.id
    ensures GetTaskById(AddTask(m, t), t.id) == Some(t)
  {
    var r := AddTask(m, t);
    FindIsFirst(r.tasks, HasId(t.id), |m.tasks|);
  }

  /** After an update, looking up the id yields the new task whenever some
      task had that id. */
  lemma FindAfterUpdate(m: Manager, t: Task)
    requires exists i :: 0 <= i < |m.tasks| && m.tasks[i].id == t.id
    ensures GetTaskById(UpdateTask(m, t), t.id) == Some(t)
  {
  }

  /** Updating with an id that no task carries changes nothing. */
  lemma UpdateAbsentIsNoop(m: Manager, t: Task)
    requires forall i :: 0 <= i < |m.tasks| ==> m.tasks[i].id != t.id
    ensures UpdateTask(m, t) == m
  {
  }

  /** Updating twice with the same task is updating once. */
  lemma UpdateIdempotent(m: Manager, t: Task)
    ensures UpdateTask(UpdateTask(m, t), t) == UpdateTask(m, t)
  {
  }

  /** After a removal the id is gone. */
  lemma FindAfterRemove(m: Manager, id: string)
    ensures GetTaskById(RemoveTask(m, id), id).None?
  {
  }

  /** Removing after an update removes the same tasks as removing directly:
      the update only touched tasks the removal drops. */
  lemma RemoveAfterReplace(xs: seq<Task>, t: Task)
    ensures RemoveById(ReplaceById(xs, t), t.id) == RemoveById(xs, t.id)
  {
    FilterIgnoresMapWhere(xs, HasId(t.id), _ => t, LacksId(t.id));
  }

  lemma RemoveAfterUpdate(m: Manager, t: Task)
    ensures RemoveTask(UpdateTask(m, t), t.id) == RemoveTask(m, t.id)
  {
    RemoveAfterReplace(m.tasks, t);
  }

  /** Adding a task and then removing its id is removing the id. */
  lemma RemoveAfterAdd(m: Manager, t: Task)
    ensures RemoveTask(AddTask(m, t), t.id) == RemoveTask(m, t.id)
  {
    FilterAppend(m.tasks, [t], LacksId(t.id));
  }

  /** Removing twice is removing once. */
  lemma RemoveIdempotent(m: Manager, id: string)
    ensures RemoveTask(RemoveTask(m, id), id) == RemoveTask(m, id)
  {
  }
}
