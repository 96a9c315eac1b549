# Todo-midterms task model, Lab3 user handlers and sign-up validation in Dafny

This project models the logic of three small TypeScript/React sub-projects
and proves properties about it.

- **Todo-midterms**. A task is one of three shapes:
  - basic: id, title, completed;
  - timed: adds a due date;
  - checklist: adds subtasks.

  The model covers the services and the decisions the components make:
  - the `TaskManager` singleton's list operations;
  - the `TaskAdapter` that turns external records into tasks;
  - the four sorting strategies;
  - the `OverdueTaskObserver` and its subscribers;
  - the `App` handlers and initial load;
  - the `ChecklistTask` form;
  - the decisions `TaskList` makes when it renders.
- **Lab3**. The model covers the status decisions of the four Express
  handlers over the `user` table, including the removal of undefined fields
  in `/updateUser/:id`. It also covers the save and delete logic of the
  `DisplayUser` screen, including its rule that a non-empty form value
  overrides the stored one.
- **Sign-up**. The model covers the client's ordered checks: presence, then
  the email regular expression, then the password length. The email
  expression is proved equal to a direct test at the first `@` and the last
  `.`. The model also covers the back end's `/signup` route, which checks
  presence only.

The modelling choices:

- Everything is a pure function over immutable datatypes and sequences.
- Effects become parameters:
  - The current time is an integer count of milliseconds.
  - Date parsing is a function from string to int.
  - `localeCompare` is a comparator assumed to be a total preorder.
  - Random ids are given as arguments.
  - What the database or the server answered is also given as an argument.
- `Array.prototype.sort` is a stable insertion sort. ECMAScript 2019 and
  later require the sort to be stable.
- `trim` removes exactly the WhiteSpace and LineTerminator characters of
  sections 12.2 and 12.3 of ECMA-262.
- `length` counts UTF-16 code units.

Modules:

- `Seqs` holds the array primitives: filter, conditional map, find.
- `JsString` holds the string primitives.
- `TaskTypes`, `Singleton`, `TaskManager`, `TaskAdapter`, `Sorting`,
  `StableSort`, `TaskSorting`, `OverdueObserver`, `TaskList`, `ChecklistForm` and `TodoApp`
  follow the Todo-midterms files.
- `Http`, `Users`, `UserServer` and `DisplayUser` cover Lab3.
- `SignUp` and `SignupRoute` cover the sign-up form and route.

## Model

| member | source | states |
|---|---|---|
| Seqs.Filter | Midterms/Todo-midterms/src/components/Services/TaskManager.ts:43 | `Array.prototype.filter`: the result is the subsequence of the elements that pass, each with its full multiplicity, and only those |
| Seqs.FilterIdempotent | Midterms/Todo-midterms/src/components/Services/TaskManager.ts:43 | filtering twice with the same predicate equals filtering once |
| Seqs.MapWhere | Midterms/Todo-midterms/src/components/Services/TaskManager.ts:36-38 | the conditional `map`: same length; matching positions take `f`, the other positions are unchanged |
| Seqs.FilterIgnoresMapWhere | Midterms/Todo-midterms/src/components/Services/TaskManager.ts:35-44 | a filter that drops every element the conditional `map` touches, before and after the change, gives the same result on the mapped list as on the original |
| Seqs.Find | Midterms/Todo-midterms/src/components/Services/TaskManager.ts:55 | `Array.prototype.find`: none exactly when no element passes; otherwise an element that passes and that no earlier element precedes |
| Seqs.FindIsFirst | Midterms/Todo-midterms/src/components/Services/TaskManager.ts:55 | if position k passes and no earlier one does, `find` returns the element at k |
| JsString.ToLowerCase | Midterms/Todo-midterms/src/components/Services/TaskManager.ts:49 | same length; no upper-case letter is left; upper-case letters move down by 32 and every other character is kept |
| JsString.ToLowerCaseIdempotent | Midterms/Todo-midterms/src/components/Services/TaskManager.ts:49 | lower-casing twice equals lower-casing once |
| JsString.Includes | Midterms/Todo-midterms/src/components/Services/TaskManager.ts:49 | `includes` holds exactly when the query occurs at some position of the string |
| JsString.IncludesEmpty | Midterms/Todo-midterms/src/components/Services/TaskManager.ts:49 | every string includes the empty string |
| JsString.Trim | Midterms/Todo-midterms/src/components/TaskTypes/ChecklistTask.tsx:86 | the result is a contiguous slice of the input with no white space at either end |
| JsString.TrimEmptyIffBlank | Midterms/Todo-midterms/src/components/TaskTypes/ChecklistTask.tsx:86 | `trim()` gives "" exactly when every character is white space |
| JsString.Utf16Length | src/Components/signUp/SignUp.tsx:27 | the JavaScript length is exactly the character count plus the number of characters beyond the Basic Multilingual Plane, which take a surrogate pair; so it lies between the character count and twice that count |
| Singleton.GetInstance | Midterms/Todo-midterms/src/components/Services/TaskManager.ts:12-17 | after the call the slot holds the returned instance; an occupied slot is returned unchanged with its instance |
| Singleton.SecondCallSameInstance | Midterms/Todo-midterms/src/components/Services/TaskManager.ts:67-71 | a second `getInstance` returns the same instance and slot as the first |
| TaskManager.GetInstance | Midterms/Todo-midterms/src/components/Services/TaskManager.ts:12-17 | the manager's slot: a first call creates an empty manager, later calls return the stored one |
| TaskManager.SingletonTest | Midterms/Todo-midterms/src/components/Services/TaskManager.ts:67-71 | two consecutive `getInstance` calls yield the same manager |
| TaskManager.Init | Midterms/Todo-midterms/src/components/Services/TaskManager.ts:20-27 | after `init(xs)`, `getAllTasks()` returns exactly `xs` |
| TaskManager.AddTask | Midterms/Todo-midterms/src/components/Services/TaskManager.ts:30-32 | length grows by one, the old tasks are an unchanged prefix, and the new task is last |
| TaskManager.UpdateTask | Midterms/Todo-midterms/src/components/Services/TaskManager.ts:35-39 | length is kept; every task with the new task's id becomes the new task and every other task is unchanged |
| TaskManager.RemoveTask | Midterms/Todo-midterms/src/components/Services/TaskManager.ts:42-44 | no task with the id is left; every other task keeps its multiplicity and relative order; the call is a no-op when the id is absent |
| TaskManager.SearchTasks | Midterms/Todo-midterms/src/components/Services/TaskManager.ts:47-51 | the result is the order-preserving subsequence of the tasks whose lower-cased title includes the lower-cased query |
| TaskManager.SearchEmptyQuery | Midterms/Todo-midterms/src/components/Services/TaskManager.ts:47-51 | the empty query returns every task, in order |
| TaskManager.SearchIgnoresQueryCase | Midterms/Todo-midterms/src/components/Services/TaskManager.ts:47-51 | lower-casing the query first does not change the result |
| TaskManager.GetTaskById | Midterms/Todo-midterms/src/components/Services/TaskManager.ts:54-56 | none exactly when no task has the id; otherwise the first task with the id |
| TaskManager.ClearAllTasks | Midterms/Todo-midterms/src/components/Services/TaskManager.ts:59-61 | the list is empty afterwards |
| TaskManager.GetAllTasksTracksOperations | Midterms/Todo-midterms/src/components/Services/TaskManager.ts:25-27 | `getAllTasks()` reads back the list with the task appended after `addTask`, without the id after `removeTask`, and empty after `clearAllTasks` |
| TaskManager.ClearLeavesNothing | Midterms/Todo-midterms/src/components/Services/TaskManager.ts:59-61 | after `clearAllTasks()` no id is found, no query matches and the list is empty |
| TaskManager.FindAfterAdd | Midterms/Todo-midterms/src/components/Services/TaskManager.ts:30-32 | a task added under a new id is found by that id |
| TaskManager.FindAfterUpdate | Midterms/Todo-midterms/src/components/Services/TaskManager.ts:35-39 | after an update of a present id, looking the id up gives the new task |
| TaskManager.UpdateAbsentIsNoop | Midterms/Todo-midterms/src/components/Services/TaskManager.ts:35-39 | updating an id that no task has changes nothing |
| TaskManager.UpdateIdempotent | Midterms/Todo-midterms/src/components/Services/TaskManager.ts:35-39 | applying the same update twice equals applying it once |
| TaskManager.FindAfterRemove | Midterms/Todo-midterms/src/components/Services/TaskManager.ts:42-44 | after removing an id, looking it up gives none |
| TaskManager.RemoveAfterReplace | Midterms/Todo-midterms/src/components/Services/TaskManager.ts:35-44 | removing an id after replacing the tasks with that id equals removing it directly |
| TaskManager.RemoveAfterUpdate | Midterms/Todo-midterms/src/components/Services/TaskManager.ts:35-44 | `updateTask(t)` followed by `removeTask(t.id)` equals `removeTask(t.id)` alone |
| TaskManager.RemoveAfterAdd | Midterms/Todo-midterms/src/components/Services/TaskManager.ts:30-44 | `addTask(t)` followed by `removeTask(t.id)` equals `removeTask(t.id)` alone |
| TaskManager.RemoveIdempotent | Midterms/Todo-midterms/src/components/Services/TaskManager.ts:42-44 | removing the same id twice equals removing it once |
| TaskAdapter.AdaptTask | Midterms/Todo-midterms/src/components/Services/TaskAdapter.ts:20-53 | id and title are copied; completed is true exactly when the record says true; the record becomes a timed task exactly when its `dueDate` is a non-empty string, with the parsed date; it becomes a checklist exactly when there is no due date and a non-empty subtask array, which is copied; otherwise it becomes a basic task |
| TaskAdapter.AdaptExternalTasks | Midterms/Todo-midterms/src/components/Services/TaskAdapter.ts:17-55 | same length as the input, and each position holds the adaptation of the record at that position |
| TaskAdapter.DueDateTakesPrecedence | Midterms/Todo-midterms/src/components/Services/TaskAdapter.ts:29-36 | a record with both a due date and subtasks becomes a timed task |
| TaskAdapter.EmptySubtasksGiveBasicTask | Midterms/Todo-midterms/src/components/Services/TaskAdapter.ts:39-53 | a record with no due date and an empty subtask array becomes a basic task |
| TaskAdapter.DescriptionIsDropped | Midterms/Todo-midterms/src/components/Services/TaskAdapter.ts:22-26 | the description has no influence on the adapted task |
| TaskAdapter.AdaptAppend | Midterms/Todo-midterms/src/components/Services/TaskAdapter.ts:20 | adapting is element-wise: adapting a concatenation concatenates the results |
| TaskAdapter.MockAdaptation | Midterms/Todo-midterms/src/components/Services/MockAPI.tsx:5-26 | the mock records adapt, in order, to a basic task, a timed task and a checklist with two subtasks, none of them completed |
| Sorting.Insert | Midterms/Todo-midterms/src/components/Services/TaskSorting.ts:8 | one insertion step keeps every element and adds the inserted one |
| Sorting.InsertSorted | Midterms/Todo-midterms/src/components/Services/TaskSorting.ts:8 | inserting into a sorted list keeps it sorted |
| Sorting.Sort | Midterms/Todo-midterms/src/components/Services/TaskSorting.ts:8 | `[...xs].sort(cmp)` is a permutation of `xs` that is sorted by `cmp` |
| Sorting.SortKeepsSortedInput | Midterms/Todo-midterms/src/components/Services/TaskSorting.ts:28-29 | stability: an input already in order comes back unchanged, elements that compare equal included |
| StableSort.FilterInsert | Midterms/Todo-midterms/src/components/Services/TaskSorting.ts:8 | inserting an element never reorders a class of elements that compare equal, and goes in front of that class's members when it belongs to it |
| StableSort.SortIsStable | Midterms/Todo-midterms/src/components/Services/TaskSorting.ts:8 | stability of `sort`: the elements of any class that compare equal among themselves come out in their input order |
| Sorting.SortIdempotent | Midterms/Todo-midterms/src/components/Services/TaskSorting.ts:8 | sorting a sorted result changes nothing |
| TaskSorting.ByIdIsTotalPreorder | Midterms/Todo-midterms/src/components/Services/TaskSorting.ts:8 | comparing tasks by `localeCompare` of the ids is a total preorder |
| TaskSorting.ByTitleIsTotalPreorder | Midterms/Todo-midterms/src/components/Services/TaskSorting.ts:12 | comparing tasks by `localeCompare` of the titles is a total preorder |
| TaskSorting.SortById | Midterms/Todo-midterms/src/components/Services/TaskSorting.ts:7-9 | a permutation of the tasks, non-decreasing in id |
| TaskSorting.SortByTitle | Midterms/Todo-midterms/src/components/Services/TaskSorting.ts:11-13 | a permutation of the tasks, non-decreasing in title |
| TaskSorting.DueDateIsTotalPreorder | Midterms/Todo-midterms/src/components/Services/TaskSorting.ts:16-22 | the due-date comparator, which treats tasks without a due date as dated at the epoch, is a total preorder |
| TaskSorting.SortByDueDate | Midterms/Todo-midterms/src/components/Services/TaskSorting.ts:15-23 | a permutation of the tasks, non-decreasing in the due date, where a task without one counts as 0 |
| TaskSorting.SortByDueDateKeepsTiesInOrder | Midterms/Todo-midterms/src/components/Services/TaskSorting.ts:15-23 | stability: for every due time, the tasks that sort at that time, including those without a due date at 0, appear in the result in their input order |
| TaskSorting.SortByDueDateStable | Midterms/Todo-midterms/src/components/Services/TaskSorting.ts:15-23 | tasks that all share one key stay in their input order |
| TaskSorting.CompletionIsTotalPreorder | Midterms/Todo-midterms/src/components/Services/TaskSorting.ts:26-30 | the completion comparator is a total preorder |
| TaskSorting.SortByCompletion | Midterms/Todo-midterms/src/components/Services/TaskSorting.ts:25-31 | a permutation in which no completed task comes before an incomplete one |
| TaskSorting.InsertIntoPartition | Midterms/Todo-midterms/src/components/Services/TaskSorting.ts:26-30 | one insertion into an incomplete-then-complete list puts an incomplete task at the front and a completed one at the head of the completed part |
| TaskSorting.SortCompletionPartition | Midterms/Todo-midterms/src/components/Services/TaskSorting.ts:25-31 | the stable sort by completion equals the incomplete tasks in input order followed by the completed tasks in input order |
| TaskSorting.SortByCompletionPartition | Midterms/Todo-midterms/src/components/Services/TaskSorting.ts:25-31 | `sortByCompletion(ts)` equals `filter(incomplete) ++ filter(completed)` |
| OverdueObserver.GetInstance | Midterms/Todo-midterms/src/components/Services/OverdueTaskObserver.tsx:14-19 | a first call creates an observer with no overdue tasks and no subscribers; later calls return the stored one |
| OverdueObserver.GetInstanceTwice | Midterms/Todo-midterms/src/components/Services/OverdueTaskObserver.tsx:14-19 | two consecutive `getInstance` calls yield the same observer |
| OverdueObserver.Subscribe | Midterms/Todo-midterms/src/components/Services/OverdueTaskObserver.tsx:21-23 | the callback is appended and the earlier subscribers are an unchanged prefix |
| OverdueObserver.Unsubscribe | Midterms/Todo-midterms/src/components/Services/OverdueTaskObserver.tsx:25-27 | every occurrence of the callback goes; the others keep their multiplicity and order; a no-op when the callback is absent |
| OverdueObserver.SubscribeThenUnsubscribe | Midterms/Todo-midterms/src/components/Services/OverdueTaskObserver.tsx:21-27 | subscribing a new callback and unsubscribing it restores the observer |
| OverdueObserver.NotifyObservers | Midterms/Todo-midterms/src/components/Services/OverdueTaskObserver.tsx:29-31 | one call per subscriber, in list order, each with the stored overdue list |
| OverdueObserver.CheckOverdueTasks | Midterms/Todo-midterms/src/components/Services/OverdueTaskObserver.tsx:33-43 | the result is the manager's tasks that have a due date before `now` and are not completed, in the manager's order; `getOverdueTasks` then returns it; every subscriber is notified once with it |
| OverdueObserver.GetOverdueTasksTracksChecks | Midterms/Todo-midterms/src/components/Services/OverdueTaskObserver.tsx:45-47 | `getOverdueTasks()` is unchanged by subscribing and unsubscribing, and after a check it is the overdue tasks of the checked list, in order |
| OverdueObserver.CheckForgetsEarlierResult | Midterms/Todo-midterms/src/components/Services/OverdueTaskObserver.tsx:33-43 | a check's outcome does not depend on what an earlier check stored |
| OverdueObserver.NothingOverdueBeforeDueDates | Midterms/Todo-midterms/src/components/Services/OverdueTaskObserver.tsx:36-38 | at or before every due date of the list, nothing is overdue |
| OverdueObserver.OverdueIsMonotoneInTime | Midterms/Todo-midterms/src/components/Services/OverdueTaskObserver.tsx:36-38 | over the same list, a task overdue at one time is still overdue later |
| TaskList.Classify | Midterms/Todo-midterms/src/components/TaskList.tsx:43-49 | timed exactly when the task has a due date; checklist exactly when it has subtasks but no due date; basic otherwise |
| TaskList.ClassifyMatchesShape | Midterms/Todo-midterms/src/components/TaskList.tsx:43-49 | the classification is the task's own shape |
| TaskList.WarningIsObserverPredicate | Midterms/Todo-midterms/src/components/TaskList.tsx:56 | the inline warning's condition is the observer's overdue test |
| TaskList.Notices | Midterms/Todo-midterms/src/components/TaskList.tsx:31-37 | one notice per overdue task, in order, with that task's message |
| TaskList.Rows | Midterms/Todo-midterms/src/components/TaskList.tsx:40-62 | one row per task, in order, with its kind and its inline-warning flag |
| TaskList.Render | Midterms/Todo-midterms/src/components/TaskList.tsx:24-62 | an empty list shows only the empty-state message; otherwise every notice and every row, each row warned exactly when its task is overdue |
| TaskList.WarningsAgreeWithObserver | Midterms/Todo-midterms/src/components/TaskList.tsx:56 | the warned rows are exactly the tasks a check of the same list at the same time reports, in the same order |
| ChecklistForm.Open | Midterms/Todo-midterms/src/components/TaskTypes/ChecklistTask.tsx:21-33 | an existing task opens with its own title, flag and subtasks; a new one opens with an empty title, unchecked, and one blank subtask |
| ChecklistForm.EditSubtasks | Midterms/Todo-midterms/src/components/TaskTypes/ChecklistTask.tsx:46-48 | same length and ids; the edited field takes the value on every subtask with the id; everything else is unchanged |
| ChecklistForm.HandleSubtaskChange | Midterms/Todo-midterms/src/components/TaskTypes/ChecklistTask.tsx:41-61 | the subtasks are edited; an existing task is saved with its id, the current title and flag, and the whole edited list, unfiltered; a new task is not saved |
| ChecklistForm.AddSubtask | Midterms/Todo-midterms/src/components/TaskTypes/ChecklistTask.tsx:63-73 | a new task gains one blank, unchecked subtask at the end; an existing task is unchanged |
| ChecklistForm.RemoveSubtask | Midterms/Todo-midterms/src/components/TaskTypes/ChecklistTask.tsx:75-78 | a new task loses every subtask with the id and keeps the rest in order; an existing task is unchanged |
| ChecklistForm.RemoveUndoesAdd | Midterms/Todo-midterms/src/components/TaskTypes/ChecklistTask.tsx:63-78 | removing a subtask just added under a fresh id restores the form |
| ChecklistForm.ChangeTitle | Midterms/Todo-midterms/src/components/TaskTypes/ChecklistTask.tsx:116 | only a new task's title can change |
| ChecklistForm.ToggleCompleted | Midterms/Todo-midterms/src/components/TaskTypes/ChecklistTask.tsx:130-139 | the flag changes; an existing task is saved as the prop with the new flag and the current subtasks |
| ChecklistForm.FilledInIffVisible | Midterms/Todo-midterms/src/components/TaskTypes/ChecklistTask.tsx:86 | a subtask survives the trim test exactly when its title has a character that is not white space |
| ChecklistForm.HandleSubmit | Midterms/Todo-midterms/src/components/TaskTypes/ChecklistTask.tsx:80-104 | a checklist task with the prop's id (a fresh id when it has none or an empty one), the title, the flag, and exactly the subtasks with a visible title, in order; an update for an existing task, which keeps its form; a creation for a new task, whose form is reset |
| ChecklistForm.SubmitKeepsExistingId | Midterms/Todo-midterms/src/components/TaskTypes/ChecklistTask.tsx:83 | an existing task with an id is submitted as an update under that id |
| ChecklistForm.SubmitKeepsFilledInSubtasks | Midterms/Todo-midterms/src/components/TaskTypes/ChecklistTask.tsx:86 | when every subtask has a visible title, all of them are submitted |
| ChecklistForm.SubmitTitleOnlyNewForm | Midterms/Todo-midterms/src/components/TaskTypes/ChecklistTask.tsx:80-104 | a fresh form with only a non-empty title typed creates a task with that title, unchecked, and no subtasks |
| ChecklistForm.ExistingTitleIsFixed | Midterms/Todo-midterms/src/components/TaskTypes/ChecklistTask.tsx:80-139 | on an existing task, whatever is typed into the title, the checkbox saves the prop with its own title and the new flag, and a submit keeps the prop's title |
| TodoApp.FinishLoad | Midterms/Todo-midterms/src/App.tsx:26-41 | after a successful fetch, the list is the adapted external list as `init` then `getAllTasks` return it; after a failed one, the list and manager are unchanged; loading ends in both cases |
| TodoApp.Mount | Midterms/Todo-midterms/src/App.tsx:25-45 | the mount-time overdue check runs on the manager as it was before the load, and the load then completes as `FinishLoad` says |
| TodoApp.MountCheckSeesEmptyManager | Midterms/Todo-midterms/src/App.tsx:42-44 | on a fresh page the mount-time check reports nothing, whatever the fetch returns |
| TodoApp.HandleCreateTask | Midterms/Todo-midterms/src/App.tsx:47-49 | the new task is appended after the unchanged list; manager, observer and sort choice are untouched |
| TodoApp.HandleUpdateTask | Midterms/Todo-midterms/src/App.tsx:51-55 | length is kept; tasks with the id are replaced and the others are unchanged; the manager is untouched |
| TodoApp.HandleDeleteTask | Midterms/Todo-midterms/src/App.tsx:57-59 | every task with the id goes and the rest keep their order; the manager is untouched |
| TodoApp.GetSortedTasks | Midterms/Todo-midterms/src/App.tsx:61-75 | always a permutation of the list; for each of the four methods, that strategy's result with its ordering; for any other value, the list itself |
| TodoApp.RunLeavesManagerAlone | Midterms/Todo-midterms/src/App.tsx:47-59 | no sequence of creates, updates, deletes and sort choices changes the task manager or the observer |
| TodoApp.CheckAfterRunSeesLoadedTasks | Midterms/Todo-midterms/src/App.tsx:47-59 | after any such sequence, an overdue check gives what it gave on the loaded list |
| TodoApp.CreatedOverdueTaskOnlyWarnedInline | Midterms/Todo-midterms/src/App.tsx:47-49 | an overdue task created on an empty page gets the inline warning, but the observer reports nothing |
| UserServer.RegistrationRow | Lab3/lab_3/BackEnd/src/server.tsx:54-65 | the inserted row has exactly the five registration fields, as the body gives them |
| UserServer.RegisterUser | Lab3/lab_3/BackEnd/src/server.tsx:31-81 | 400 "All fields are required" with no insert exactly when some field is not truthy; otherwise the insert is issued; 500 exactly when the database fails, with its message or "Internal server error" if the call threw; 201 with the returned rows otherwise |
| UserServer.RegisterValidationIgnoresDb | Lab3/lab_3/BackEnd/src/server.tsx:43-52 | with a missing field, the outcome does not depend on the database |
| UserServer.GetUsers | Lab3/lab_3/BackEnd/src/server.tsx:84-104 | 500 exactly when the database fails; 404 "No users found!" exactly when it answers with null or no rows; 200 with the non-empty rows otherwise |
| UserServer.GetUsersAgreesWithUpdate | Lab3/lab_3/BackEnd/src/server.tsx:84-104 | listing and updating read a successful database reply alike: no rows, null or empty, is a 404 in both; rows are a 200 in both, carrying the rows |
| UserServer.DeleteUser | Lab3/lab_3/BackEnd/src/server.tsx:107-132 | 400 "User ID is required" with no call exactly when the id is empty; 500 exactly when the database fails; 200 "User deleted successfully!" otherwise |
| UserServer.DeleteOfMissingUserSucceeds | Lab3/lab_3/BackEnd/src/server.tsx:118-126 | a delete that matched no row is still a 200 |
| UserServer.StripUndefined | Lab3/lab_3/BackEnd/src/server.tsx:147-149 | exactly the entries whose value is not undefined are kept, with their values, `null` included |
| UserServer.StripUndefinedKeepsFields | Lab3/lab_3/BackEnd/src/server.tsx:147-149 | every field reads the same before and after stripping |
| UserServer.StripUndefinedOnJson | Lab3/lab_3/BackEnd/src/server.tsx:147-149 | a body without undefined entries is left as it is |
| UserServer.StripUndefinedIdempotent | Lab3/lab_3/BackEnd/src/server.tsx:147-149 | stripping twice equals stripping once |
| UserServer.UpdateUser | Lab3/lab_3/BackEnd/src/server.tsx:135-175 | 400 with no call exactly when the id is empty; otherwise the update carries the stripped body; 500 exactly when the database fails; 404 "User not found or no changes made" exactly when no row comes back; 200 with `success: true` and the rows otherwise |
| DisplayUser.FailureMessage | Lab3/lab_3/src/components/displayUser/DisplayUser.tsx:100-105 | the error line after a failed request is never empty: the connection message, the body's non-empty `error`, or the fallback |
| DisplayUser.HandleEditClick | Lab3/lab_3/src/components/displayUser/DisplayUser.tsx:60-63 | the clicked user is being edited and the form holds exactly that user's six fields |
| DisplayUser.HandleInputChange | Lab3/lab_3/src/components/displayUser/DisplayUser.tsx:65-67 | the named input takes the value, every other entry is kept, and no key other than the named one is added |
| DisplayUser.MergeNeverBlanks | Lab3/lab_3/src/components/displayUser/DisplayUser.tsx:73-80 | an empty form value never overrides, so a fully filled user stays fully filled |
| DisplayUser.MergeUntouchedForm | Lab3/lab_3/src/components/displayUser/DisplayUser.tsx:73-80 | the form as the edit click filled it merges back to the user's own fields |
| DisplayUser.SaveRequest | Lab3/lab_3/src/components/displayUser/DisplayUser.tsx:69-89 | no request when no user is being edited; otherwise a PUT for the edited id whose body is exactly the five merged fields, as strings |
| DisplayUser.MergeTypedValueWins | Lab3/lab_3/src/components/displayUser/DisplayUser.tsx:73-80 | field by field, a non-empty typed value replaces the stored one, and an empty or missing one leaves it |
| DisplayUser.EditTypeSave | Lab3/lab_3/src/components/displayUser/DisplayUser.tsx:60-98 | edit click, a non-empty value typed into one input and a successful save: the rows with the user's id show the user's fields with that one value in place, under their own id; every other row and the list length are unchanged |
| DisplayUser.HandleSave | Lab3/lab_3/src/components/displayUser/DisplayUser.tsx:69-107 | nothing happens when no user is being edited; on success, users with the edited id take the merged fields and keep their id, the others are unchanged, and editing ends; on failure only the error line changes |
| DisplayUser.SaveKeepsIds | Lab3/lab_3/src/components/displayUser/DisplayUser.tsx:94-98 | a save never changes the length of the list or any user's id |
| DisplayUser.SaveUntouchedKeepsUsers | Lab3/lab_3/src/components/displayUser/DisplayUser.tsx:60-98 | saving right after the edit click leaves the list as it was |
| DisplayUser.HandleDelete | Lab3/lab_3/src/components/displayUser/DisplayUser.tsx:41-58 | on success every user with the id goes and the rest keep their order; on failure only the error line changes |
| DisplayUser.DeleteAbsentId | Lab3/lab_3/src/components/displayUser/DisplayUser.tsx:49-50 | a successful delete of an id nobody has leaves the screen unchanged |
| DisplayUser.SaveReachesServerIntact | Lab3/lab_3/src/components/displayUser/DisplayUser.tsx:82-89 | the server's stripping leaves the save body intact, so the update it issues carries exactly the merged fields |
| DisplayUser.DeleteFollowsServer | Lab3/lab_3/src/components/displayUser/DisplayUser.tsx:41-58 | when the server's delete succeeds the user disappears from the screen; when it fails the list stays and an error shows |
| SignUp.OnlySplitIsFirstAtLastDot | src/Components/signUp/SignUp.tsx:12-14 | the email pattern matches exactly when it matches with the `@` at the first `@` and the `.` at the last `.` |
| SignUp.IsValidEmail | src/Components/signUp/SignUp.tsx:12-14 | holds exactly when the whole string is a local part of `[A-Za-z0-9._%+-]`, `@`, a domain of `[A-Za-z0-9.-]`, `.`, and two or more ASCII letters |
| SignUp.AcceptedShortEmail | src/Components/signUp/SignUp.tsx:12-14 | a short sample address is accepted by the pattern |
| SignUp.AcceptedDottedEmail | src/Components/signUp/SignUp.tsx:12-14 | a sample address with dots and a plus in the local part and a dotted domain is accepted |
| SignUp.RejectedEmails | src/Components/signUp/SignUp.tsx:12-14 | sample strings the pattern rejects: a one-letter ending, an empty local part, a digit in the ending |
| SignUp.HandleSubmit | src/Components/signUp/SignUp.tsx:16-31 | "Please fill up all fields" exactly when a field is empty; otherwise "Invalid email format" exactly when the email does not match; otherwise the password error exactly when it has fewer than 8 code units; the three fields are posted exactly when all checks pass |
| SignUp.PasswordLengthCountsCodeUnits | src/Components/signUp/SignUp.tsx:27-30 | with the other checks passed, a Basic Multilingual Plane password is posted exactly when it has at least 8 characters, and any posted password has at least 4 |
| SignUp.AstralPasswordIsLongEnough | src/Components/signUp/SignUp.tsx:27 | four characters outside the Basic Multilingual Plane have length 8 |
| SignUp.SentFormIsAccepted | src/Components/signUp/SignUp.tsx:32-37 | every request the form posts passes the server's presence check with 201 |
| SignUp.ServerAcceptsWhatFormRejects | backend/src/routes.ts:5-13 | the server registers an email the form rejects as malformed |
| SignUp.AfterResponse | src/Components/signUp/SignUp.tsx:39-50 | a failed request shows the generic error; a non-2xx answer shows the body's error; a 2xx answer welcomes the user |
| SignUp.SignupEndToEnd | src/Components/signUp/SignUp.tsx:16-50 | a form that passes the client checks ends in the welcome |
| SignupRoute.Signup | backend/src/routes.ts:5-13 | 400 "All fields are required" exactly when email, userName or password is not truthy; 201 "User registered successfully!" exactly otherwise; one response either way |
| SignupRoute.SignupChecksPresenceOnly | backend/src/routes.ts:8-12 | any three non-empty strings are accepted, whatever their format or length |
| SignupRoute.FalsyFieldIsMissing | backend/src/routes.ts:8-10 | any of the three fields sent as `0`, `false` or `null` counts as missing |

## Left out

- React rendering, hooks, toasts and the UI-only components. This covers `BasicTask.tsx`, `TimedTask.tsx`, `TaskFactory.tsx`, `Notification.tsx`, `Navbar.jsx` and both router `App` files. They route props and draw markup, and make no decisions of their own.
- `fetch`, Express wiring, the Supabase client and environment setup are I/O.
  - Each handler takes what the database or the server answered as a parameter.
  - `backend/src/server.ts` mounts the router under `/api/auth`, while `SignUp.tsx` posts to `/signup`. `SignUp.SentFormIsAccepted` and `SignUp.SignupEndToEnd` assume the request reaches the route.
- The `setInterval` polling of the observer is timer plumbing. A check takes the current time as a parameter.
- The subscribe-on-mount effect of `TaskList` is not modelled as such. `TaskList.Render` takes the overdue list the component last received as a parameter.
- `Math.random().toString(36)` ids are arguments.
- Date parsing is a parameter function from string to milliseconds. This applies to `new Date(string)` and to the date formatting in `TimedTask.tsx`. Invalid Date (NaN) is not modelled.
- TaskSorting.SortById: `localeCompare`'s collation is not modelled. It is a comparator assumed to be a total preorder, which the real collation is.
- TaskSorting.SortByTitle: same abstraction of `localeCompare` as for `SortById`.
- TaskSorting.SortByDueDate: due dates are integer milliseconds, so NaN from an invalid date cannot occur.
- JsString.ToLowerCase: maps only the ASCII letters A–Z. Unicode case mapping beyond ASCII is not modelled, so the search model is weaker for non-ASCII titles.
- Http.Truthy: JSON numbers are integers here. A non-zero fraction counts as truthy, as it does in JavaScript, and JSON cannot carry NaN.
- `Lab3/lab_3/src/components/registerUser/RegisterUser.tsx` is not part of this model. Its presence check duplicates the server's, and its `Number(...)` coercion is floating-point behaviour.
- The initial `fetchUsers` effect of `DisplayUser` is not modelled. It only copies the server's list, or its error, into state.
- ChecklistForm.HandleSubmit: models the submit handler only. The browser's `required` check on the title input blocks a submit with an empty title before the handler runs. That check is not modelled, so the handler's contract also covers empty titles.
- The optional calls `onUpdate?.(...)` and `onCreate?.(...)` are modelled as always made. A missing callback only makes the call a no-op.
- UserServer.StripUndefined: a body is a map, so the key order of `Object.entries` is not modelled. The update depends only on keys and values.
- UserServer.UpdateUser: a request body that is not an object makes `Object.entries` throw outside the handler's `try`. That case is not modelled.
- Express never routes an empty `:id`. The empty-id 400 branches of `DeleteUser` and `UpdateUser` are modelled as the code writes them, and the cross-lemmas in `DisplayUser` assume a non-empty id.
- React state updates are modelled as taking effect on the state the handler reads. The stale-closure interleavings of concurrent handlers are not modelled.
