/**
  `OverdueTaskObserver`: computes the overdue tasks of the task manager
  and pushes them to its subscribers.

  Callbacks are compared by identity in the source, so a subscriber is an
  opaque handle here.  A check does not read the clock itself: the current
  time `now` (milliseconds) is a parameter.  Notification is returned as
  the list of calls made, in order, instead of being performed.
 */
module OverdueObserver {
  import opened Seqs
  import opened TaskTypes
  import Singleton

  /** A subscribed callback, identified by reference. */
  type Callback = nat

  datatype Observer = Observer(overdueTasks: seq<Task>, observers: seq<Callback>)

  /** One call `observer(overdueTasks)`. */
  datatype Delivery = Delivery(callback: Callback, tasks: seq<Task>)

  /** The outcome of `checkOverdueTasks`: the new observer state, the list
      it returns and the notifications it made. */
  datatype CheckResult = CheckResult(observer: Observer, overdue: seq<Task>, deliveries: seq<Delivery>)

  /** `'dueDate' in task && task.dueDate < now && !task.completed` */
  predicate IsOverdue(t: Task, now: int) {
    HasDueDate(t) && t.dueDate < now && !t.completed
  }

  function OverdueAt(now: int): Task -> bool {
    (t: Task) => IsOverdue(t, now)
  }

  /** The slot behind `OverdueTaskObserver.instance`; a new observer has no
      overdue tasks and no subscribers. */
  function GetInstance(slot: Singleton.Slot<Observer>): (r: (Singleton.Slot<Observer>, Observer))
    ensures r.0.instance == Some(r.1)
    ensures slot.instance.None? ==> r.1 == Observer([], [])
    ensures slot.instance.Some? ==> r == (slot, slot.instance.value)
  {
    Singleton.GetInstance(slot, Observer([], []))
  }

  lemma GetInstanceTwice(slot: Singleton.Slot<Observer>)
    ensures GetInstance(slot).1 == GetInstance(GetInstance(slot).0).1
  {
    Singleton.SecondCallSameInstance(slot, Observer([], []), Observer([], []));
  }

  /** `subscribe(callback)` pushes the callback at the end. */
  function Subscribe(o: Observer, cb: Callback): (r: Observer)
    ensures |r.observers| == |o.observers| + 1
    ensures r.observers[..|o.observers|] == o.observers && r.observers[|o.observers|] == cb
    ensures r.overdueTasks == o.overdueTasks
  {
    o.(observers := o.observers + [cb])
  }

  function IsNot(cb: Callback): Callback -> bool {
    (c: Callback) => c != cb
  }

  /** `unsubscribe(callback)` removes every occurrence of the callback and
      keeps the others in order. */
  function Unsubscribe(o: Observer, cb: Callback): (r: Observer)
    ensures cb !in r.observers
    ensures forall c :: c != cb ==> multiset(r.observers)[c] == multiset(o.observers)[c]
    ensures IsSubsequence(r.observers, o.observers)
    ensures cb !in o.observers ==> r == o
    ensures r.overdueTasks == o.overdueTasks
  {
    if cb !in o.observers then
      FilterAllPass(o.observers, IsNot(cb));
      o.(observers := Filter(o.observers, IsNot(cb)))
    else
      o.(observers := Filter(o.observers, IsNot(cb)))
  }

  /** Subscribing and then unsubscribing a callback that was not yet
      subscribed restores the subscriber list. */
  lemma SubscribeThenUnsubscribe(o: Observer, cb: Callback)
    requires cb !in o.observers
    ensures Unsubscribe(Subscribe(o, cb), cb) == o
  {
    FilterAppend(o.observers, [cb], IsNot(cb));
    FilterAllPass(o.observers, IsNot(cb));
  }

  /** `notifyObservers()`: every subscriber, in list order, is called once
      with the current overdue list. */
  function NotifyObservers(o: Observer): (r: seq<Delivery>)
    ensures |r| == |o.observers|
    ensures forall i :: 0 <= i < |r| ==> r[i].callback == o.observers[i] && r[i].tasks == o.overdueTasks
    decreases |o.observers|
  {
    if |o.observers| == 0 then []
    else [Delivery(o.observers[0], o.overdueTasks)] + NotifyObservers(o.(observers := o.observers[1..]))
  }

  /** `checkOverdueTasks()` at time `now`, over the manager's list: the
      overdue tasks in list order, stored, pushed to every subscriber and
      returned. */
  function CheckOverdueTasks(o: Observer, managerTasks: seq<Task>, now: int): (r: CheckResult)
    ensures forall i :: 0 <= i < |r.overdue| ==> IsOverdue(r.overdue[i], now)
    ensures forall t :: t in r.overdue <==> t in managerTasks && IsOverdue(t, now)
    ensures forall t :: IsOverdue(t, now) ==> multiset(r.overdue)[t] == multiset(managerTasks)[t]
    ensures IsSubsequence(r.overdue, managerTasks)
    ensures GetOverdueTasks(r.observer) == r.overdue
    ensures r.observer.observers == o.observers
    ensures |r.deliveries| == |o.observers|
    ensures forall i :: 0 <= i < |r.deliveries| ==>
              r.deliveries[i] == Delivery(o.observers[i], r.overdue)
  {
    var overdue := Filter(managerTasks, OverdueAt(now));
    var o' := o.(overdueTasks := overdue);
    CheckResult(o', overdue, NotifyObservers(o'))
  }

  /** `getOverdueTasks()` */
  function GetOverdueTasks(o: Observer): seq<Task> {
    o.overdueTasks
  }

  /** `getOverdueTasks()` returns what the last check stored: subscribing
      and unsubscribing leave it, and a check replaces it by the overdue
      tasks of the list it was given. */
  lemma GetOverdueTasksTracksChecks(o: Observer, cb: Callback, managerTasks: seq<Task>, now: int)
    ensures GetOverdueTasks(Subscribe(o, cb)) == GetOverdueTasks(o)
    ensures GetOverdueTasks(Unsubscribe(o, cb)) == GetOverdueTasks(o)
    ensures GetOverdueTasks(CheckOverdueTasks(o, managerTasks, now).observer) == Filter(managerTasks, OverdueAt(now))
  {
  }

  /** A check depends only on the manager's list and the time, not on what
      an earlier check found. */
  lemma CheckForgetsEarlierResult(o: Observer, managerTasks: seq<Task>, now: int, earlier: seq<Task>)
    ensures CheckOverdueTasks(o.(overdueTasks := earlier), managerTasks, now) == CheckOverdueTasks(o, managerTasks, now)
  {
  }

  /** Nothing is overdue at or before the earliest due date of the list. */
  lemma NothingOverdueBeforeDueDates(o: Observer, managerTasks: seq<Task>, now: int)
    requires forall i :: 0 <= i < |managerTasks| && HasDueDate(managerTasks[i]) ==> now <= managerTasks[i].dueDate
    ensures CheckOverdueTasks(o, managerTasks, now).overdue == []
  {
  }

  /** A later check finds every task an earlier check found, as long as
      the list is the same: overdue tasks stay overdue. */
  lemma OverdueIsMonotoneInTime(o: Observer, managerTasks: seq<Task>, now: int, later: int)
    requires now <= later
    ensures forall t :: t in CheckOverdueTasks(o, managerTasks, now).overdue ==>
                        t in CheckOverdueTasks(o, managerTasks, later).overdue
  {
  }
}
