/**
  The `App` component of Todo-midterms: the list it keeps in React state,
  the initial load that routes the external tasks through the adapter and
  the task manager, the create/update/delete handlers, and the choice of
  sort strategy.

  The handlers change only the component's own list; they never call the
  task manager, so the manager, and every overdue check run against it,
  keeps the list of the initial load.
 */
module TodoApp {
  import opened Seqs
  import opened TaskTypes
  import Sorting
  import TaskManager
  import TaskAdapter
  import TaskSorting
  import OverdueObserver
  import TaskList

  datatype App = App(
    tasks: seq<Task>,
    sortMethod: string,
    isLoading: bool,
    manager: TaskManager.Manager,
    observer: OverdueObserver.Observer)

  /** The first render: no tasks, loading, sorted by id, with the shared
      manager and observer as they stand. */
  function Initial(manager: TaskManager.Manager, observer: OverdueObserver.Observer): App {
    App([], "id", true, manager, observer)
  }

  /** The part of `loadTasks` after the mock fetch resolves (`Some`) or
      throws (`None`): adapt, `init` the manager, copy its list into state;
      in every case loading ends. */
  function FinishLoad(app: App, fetched: Option<seq<TaskAdapter.ExternalTask>>,
                      parseDate: string -> int): (r: App)
    ensures !r.isLoading && r.sortMethod == app.sortMethod && r.observer == app.observer
    ensures fetched.Some? ==>
              r.tasks == TaskAdapter.AdaptExternalTasks(fetched.value, parseDate) &&
              TaskManager.GetAllTasks(r.manager) == r.tasks
    ensures fetched.None? ==> r.tasks == app.tasks && r.manager == app.manager
  {
    match fetched
    case Some(external) =>
      var adapted := TaskAdapter.AdaptExternalTasks(external, parseDate);
      var manager := TaskManager.Init(adapted);
      app.(manager := manager, tasks := TaskManager.GetAllTasks(manager), isLoading := false)
    case None =>
      app.(isLoading := false)
  }

  datatype Mounted = Mounted(app: App, mountCheck: OverdueObserver.CheckResult)

  /** The mount effect.  `loadTasks()` runs up to its first `await` and
      yields, so `overdueTaskObserver.checkOverdueTasks()` runs next, on
      the manager as it was before the load; the load finishes afterwards. */
  function Mount(app: App, fetched: Option<seq<TaskAdapter.ExternalTask>>,
                 parseDate: string -> int, now: int): (r: Mounted)
    ensures r.mountCheck == OverdueObserver.CheckOverdueTasks(app.observer, TaskManager.GetAllTasks(app.manager), now)
    ensures r.app.observer == r.mountCheck.observer
    ensures !r.app.isLoading && r.app.sortMethod == app.sortMethod
    ensures fetched.None? ==> r.app.tasks == app.tasks && r.app.manager == app.manager
    ensures fetched.Some? ==>
              r.app.tasks == TaskAdapter.AdaptExternalTasks(fetched.value, parseDate) &&
              TaskManager.GetAllTasks(r.app.manager) == r.app.tasks
  {
    var check := OverdueObserver.CheckOverdueTasks(app.observer, TaskManager.GetAllTasks(app.manager), now);
    Mounted(FinishLoad(app.(observer := check.observer), fetched, parseDate), check)
  }

  /** On a fresh page the mount-time check sees the still-empty manager and
      reports nothing, whatever the fetched tasks are. */
  lemma MountCheckSeesEmptyManager(observer: OverdueObserver.Observer,
                                   fetched: Option<seq<TaskAdapter.ExternalTask>>,
                                   parseDate: string -> int, now: int)
    ensures Mount(Initial(TaskManager.Manager([]), observer), fetched, parseDate, now).mountCheck.overdue == []
  {
  }

  /** `handleCreateTask`: the new task goes at the end of the list. */
  function HandleCreateTask(app: App, t: Task): (r: App)
    ensures |r.tasks| == |app.tasks| + 1
    ensures r.tasks[..|app.tasks|] == app.tasks && r.tasks[|app.tasks|] == t
    ensures r.manager == app.manager && r.observer == app.observer && r.sortMethod == app.sortMethod
  {
    app.(tasks := TaskManager.AppendTask(app.tasks, t))
  }

  /** `handleUpdateTask`: every task with the id is replaced, the others
      stay where they are. */
  function HandleUpdateTask(app: App, updated: Task): (r: App)
    ensures |r.tasks| == |app.tasks|
    ensures forall i :: 0 <= i < |app.tasks| && app.tasks[i].id == updated.id ==> r.tasks[i] == updated
    ensures forall i :: 0 <= i < |app.tasks| && app.tasks[i].id != updated.id ==> r.tasks[i] == app.tasks[i]
    ensures r.manager == app.manager && r.observer == app.observer && r.sortMethod == app.sortMethod
  {
    app.(tasks := TaskManager.ReplaceById(app.tasks, updated))
  }

  /** `handleDeleteTask`: every task with the id goes, the others keep
      their order. */
  function HandleDeleteTask(app: App, id: string): (r: App)
    ensures forall i :: 0 <= i < |r.tasks| ==> r.tasks[i].id != id
    ensures forall t: Task :: t.id != id ==> multiset(r.tasks)[t] == multiset(app.tasks)[t]
    ensures IsSubsequence(r.tasks, app.tasks)
    ensures r.manager == app.manager && r.observer == app.observer && r.sortMethod == app.sortMethod
  {
    app.(tasks := TaskManager.RemoveById(app.tasks, id))
  }

  /** `getSortedTasks()`: the list ordered by the chosen strategy, always a
      permutation of the list; an unknown method leaves it as it is. */
  function GetSortedTasks(app: App, localeCompare: (string, string) -> int): (r: seq<Task>)
    requires Sorting.IsTotalPreorder(localeCompare)
    ensures multiset(r) == multiset(app.tasks)
    ensures app.sortMethod == "id" ==> r == TaskSorting.SortById(app.tasks, localeCompare)
    ensures app.sortMethod == "title" ==> r == TaskSorting.SortByTitle(app.tasks, localeCompare)
    ensures app.sortMethod == "dueDate" ==> r == TaskSorting.SortByDueDate(app.tasks)
    ensures app.sortMethod == "completion" ==> r == TaskSorting.SortByCompletion(app.tasks)
    ensures app.sortMethod == "id" ==>
              forall i, j :: 0 <= i < j < |r| ==> localeCompare(r[i].id, r[j].id) <= 0
    ensures app.sortMethod == "title" ==>
              forall i, j :: 0 <= i < j < |r| ==> localeCompare(r[i].title, r[j].title) <= 0
    ensures app.sortMethod == "dueDate" ==>
              forall i, j :: 0 <= i < j < |r| ==> TaskSorting.DueKey(r[i]) <= TaskSorting.DueKey(r[j])
    ensures app.sortMethod == "completion" ==>
              r == Filter(app.tasks, TaskSorting.IsIncomplete) + Filter(app.tasks, TaskSorting.IsComplete)
    ensures app.sortMethod !in {"id", "title", "dueDate", "completion"} ==> r == app.tasks
  {
    match app.sortMethod
    case "id" => TaskSorting.SortById(app.tasks, localeCompare)
    case "title" => TaskSorting.SortByTitle(app.tasks, localeCompare)
    case "dueDate" => TaskSorting.SortByDueDate(app.tasks)
    case "completion" =>
      TaskSorting.SortByCompletionPartition(app.tasks);
      TaskSorting.SortByCompletion(app.tasks)
    case _ => app.tasks
  }

  /** The user actions on a loaded page. */
  datatype Event =
    | Create(task: Task)
    | Update(task: Task)
    | Delete(id: string)
    | ChooseSort(choice: string)

  function Step(app: App, e: Event): App {
    match e
    case Create(t) => HandleCreateTask(app, t)
    case Update(t) => HandleUpdateTask(app, t)
    case Delete(id) => HandleDeleteTask(app, id)
    case ChooseSort(m) => app.(sortMethod := m)
  }

  function Run(app: App, events: seq<Event>): App
    decreases |events|
  {
    if |events| == 0 then app else Run(Step(app, events[0]), events[1..])
  }

  /** No sequence of user actions reaches the task manager or the observer:
      they keep what the initial load left in them. */
  lemma {:induction false} RunLeavesManagerAlone(app: App, events: seq<Event>)
    ensures Run(app, events).manager == app.manager
    ensures Run(app, events).observer == app.observer
    decreases |events|
  {
    if |events| > 0 {
      RunLeavesManagerAlone(Step(app, events[0]), events[1..]);
    }
  }

  /** So an overdue check after any user actions sees the loaded list, not
      the list on screen. */
  lemma CheckAfterRunSeesLoadedTasks(app: App, events: seq<Event>, now: int)
    ensures OverdueObserver.CheckOverdueTasks(Run(app, events).observer, TaskManager.GetAllTasks(Run(app, events).manager), now)
         == OverdueObserver.CheckOverdueTasks(app.observer, TaskManager.GetAllTasks(app.manager), now)
  {
    RunLeavesManagerAlone(app, events);
  }

  /** A concrete case: a task created overdue on a page that loaded no
      tasks gets the inline warning in the list, while the observer, which
      reads the manager, reports nothing. */
  lemma CreatedOverdueTaskOnlyWarnedInline(observer: OverdueObserver.Observer, now: int)
    ensures var app := HandleCreateTask(Initial(TaskManager.Manager([]), observer).(isLoading := false),
                                        Timed("t", "late", false, now - 1));
            && TaskList.Render(app.tasks, [], now).rows[0].overdueWarning
            && OverdueObserver.CheckOverdueTasks(app.observer, TaskManager.GetAllTasks(app.manager), now).overdue == []
  {
  }
}
