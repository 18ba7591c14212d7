# Task-list state manager of a React to-do app, in Dafny

This project models the state manager inside the `TodoApp` component (`src/components/TodoApp.jsx`). That component keeps one list of tasks. Each task has an id, a name, a due date, a completion flag and a creation stamp. Its handlers add, delete, edit and toggle tasks, and a two-phase drag moves a task between the "uncompleted" and "completed" panes. Every handler that changes the list writes the whole new list to the browser's local storage. Add, delete, edit and a drop that moves a task also raise a success notification in the single notification slot; toggling raises none. A refused add or edit, and a drop that moves nothing, change and write nothing. From the list the component derives the search/status filter, the progress statistics and the due-date reminders. The project also models the pure parts of `src/components/TaskLists.jsx`: the split of the filtered tasks into two panes, the drop targets of the panes, and the edit dialog's check before it calls `updateTask`.

Layout, one module per concern:

- `Text` (text.dfy): `trim`, ASCII `toLowerCase`, `includes`.
- `Seqs` (seqs.dfy): `filter` over sequences, and the facts that it keeps order, keeps exactly the elements that pass, and splits a list in two.
- `Tasks` (tasks.dfy): the records. Due dates are day numbers; an empty date field is `Blank`, and a date whose time value is NaN is `Unparsable`.
- `TaskOps` (task_ops.dfy): the input guard and the new lists the handlers build.
- `Derived` (derived.dfy): the filter, the statistics and the reminder scan.
- `Persistence` (persistence.dfy): a storage key as a slot with a load fallback.
- `App` (todo_app.dfy): the component's state as class `TodoApp`. Its handlers and effects are methods that reassign its fields. Each method is proved against the functions above.
- `TaskLists` (task_lists.dfy): the panes, and the edit dialog as class `EditDialog`.

Where the code differs from what a reader might expect of such an app, the model follows the code:

- `addTask` returns nothing. It does not return a success flag.
- Toggling a task raises no notification.
- Deleting a missing id still writes the list and raises "Task deleted successfully!".
- An edit always carries both a name and a date, and both must pass the guard.
- A drop compares the target with the flag of the task *as it was picked up*. It does not look at the current list.

The component's effects run once when it mounts, in the order it declares them: the list is saved, the theme flag is saved, and the reminder check runs (`Mounted`). So both keys are written back with what was loaded, even when a key was missing or corrupt. After that, the effects on `tasks` run after every handler that sets the list: first the save effect, then the reminder check (`TasksChanged`). A failed save replaces the handler's success notification with an error. Any incomplete task due by tomorrow replaces it with that task's reminder. So after a change, the slot shows the reminder of the last such task in list order (`ScanShowsLastReminder`).

## Model

| member | source | states |
|---|---|---|
| Text.Trim | src/components/TodoApp.jsx:124 | the trimmed name is the slice of the name left after its blank prefix and blank suffix; it is empty exactly when the name is all white space, and otherwise starts and ends with a non-space character |
| Text.IncludesIffOccurs | src/components/TodoApp.jsx:276 | of `Text.Includes`, the model of `includes` (applied to the names and terms `Text.Lower` lower-cases): the search's substring test holds exactly when the term occurs at some offset of the name |
| TaskOps.ValidInput | src/components/TodoApp.jsx:124 | the add/edit guard passes exactly when the name has a non-space character and a date was given |
| TaskOps.SubmitDisabled | src/components/TodoApp.jsx:403 | the add button (and, by the same expression at TaskLists.jsx:357, the dialog's save button) is disabled exactly when the name is all white space or no date was given, which is exactly when the handler behind it refuses the fields |
| TaskOps.AppendKeepsUnique | src/components/TodoApp.jsx:126-134 | appending the new task keeps ids unique exactly when they were unique and the clock value is not yet an id |
| TaskOps.Deleted | src/components/TodoApp.jsx:155 | no task with the deleted id remains, and the list does not grow |
| TaskOps.DeletedSpec | src/components/TodoApp.jsx:155 | deletion keeps exactly the tasks with another id, every copy of each, in their original order; a missing id leaves the list equal; unique ids stay unique |
| TaskOps.DeletedRemovesOne | src/components/TodoApp.jsx:155 | with unique ids, deleting a present id removes exactly one task |
| TaskOps.Edited | src/components/TodoApp.jsx:184-188 | same length; every task keeps position, id, flag and creation stamp; the matching task(s) get the new name and date; all others are identical |
| TaskOps.EditTwiceIsEditOnce | src/components/TodoApp.jsx:184-188 | saving the same edit again changes nothing |
| TaskOps.Toggled | src/components/TodoApp.jsx:209-213 | same length; only the completion flag can differ, and it flips exactly for the tasks with the id |
| TaskOps.ToggleTwiceRestores | src/components/TodoApp.jsx:209-213 | toggling the same id twice gives back the original list |
| TaskOps.Reclassified | src/components/TodoApp.jsx:248-252 | same length; only the completion flag can differ; the tasks with the id get the target flag |
| TaskOps.ReclassifyToSameIsNoOp | src/components/TodoApp.jsx:247-252 | moving a task to the flag it already has leaves the list equal |
| TaskOps.ReclassifyToOtherIsToggle | src/components/TodoApp.jsx:247-252 | moving a task to the other flag is the same as toggling it |
| Derived.FilteredSpec | src/components/TodoApp.jsx:275-296 | of `Derived.FilteredTasks`, the model of `filteredTasks`: the filtered view is an order-preserving subsequence of the list that keeps every copy of each visible task and no copy of any other; for each status it holds exactly the matching tasks that are completed, incomplete, incomplete and due today, or incomplete and due before today |
| Derived.EmptyTermMatches | src/components/TodoApp.jsx:276 | an empty search term matches every name |
| Derived.FilteredAllIsEverything | src/components/TodoApp.jsx:275-278 | status "all" (or an unknown status) with an empty search returns the whole list in order |
| Derived.StatusOf | src/components/TodoApp.jsx:278-295 | every status string reads as exactly one status, which stands for that string again; it is an unknown status exactly when it is none of the five strings the filter compares with |
| Derived.StatusRoundTrip | src/components/TodoApp.jsx:278-295 | reading back the string a status stands for gives that status, so no unknown status carries one of the five strings |
| Derived.UnknownStatusIsAll | src/components/TodoApp.jsx:295 | a status string that is none of the five compared strings filters by the search alone, like "all" |
| Derived.RoundedPercent | src/components/TodoApp.jsx:301 | the rate is the integer nearest to 100 * completed / total, halves rounded up; 0 for an empty list; in 0..100; 100 when all are done |
| Derived.CountsPartition | src/components/TodoApp.jsx:322 | completed and active counts add up to the total; when all tasks are of one kind, its count is the total |
| Derived.Statistics | src/components/TodoApp.jsx:299-301 | total is the list length; completed is the number of completed tasks and active the number of incomplete ones, adding up to the total; the rate is the rounded percentage of completed over total; the rate lies in 0..100, is 0 for an empty list or when none is done, and is 100 when all are done |
| Derived.Reminder | src/components/TodoApp.jsx:91-112 | a task raises a reminder exactly when it is incomplete and due by tomorrow; it is an error when overdue and a warning when due today or tomorrow |
| Derived.ScanWithoutReminders | src/components/TodoApp.jsx:91-113 | when no task raises a reminder the scan leaves the slot as it was |
| Derived.ScanShowsLastReminder | src/components/TodoApp.jsx:91-113 | of `Derived.Scan`, the model of the reminder `forEach`: after the scan the slot holds the reminder of the last task in list order that raises one |
| Derived.ScanSkipsCompleted | src/components/TodoApp.jsx:92 | the scan's result is the same with the completed tasks removed |
| Persistence.Load | src/components/TodoApp.jsx:31-58 | a stored value is returned; a missing or corrupt key gives the fallback (empty list, light mode) |
| Persistence.LoadAfterSave | src/components/TodoApp.jsx:34-35 | loading what was saved returns it |
| App.TodoApp.constructor | src/components/TodoApp.jsx:31-60 | the initial state: list and theme loaded with their fallbacks, empty forms, closed dialog, nothing picked up |
| App.TodoApp.WriteTasks | src/components/TodoApp.jsx:139-144 | the storage key holds the new list after a successful write and is unchanged after a failed one |
| App.TodoApp.AddTask | src/components/TodoApp.jsx:123-151 | refused input changes nothing; otherwise exactly one incomplete task with the untrimmed name and the clock id is appended, the list is written, the form cleared and success raised; ids stay unique for a fresh clock value |
| App.TodoApp.DeleteTask | src/components/TodoApp.jsx:154-170 | the list becomes the deleted list, it is written, success is raised; unique ids stay unique |
| App.TodoApp.OpenEditDialog | src/components/TodoApp.jsx:173-178 | the dialog opens on the task with its name and date in the fields |
| App.TodoApp.SaveEditedTask | src/components/TodoApp.jsx:181-205 | refused input changes nothing; otherwise only name and date of the edited id change, the dialog closes, the list is written and success raised |
| App.TodoApp.ToggleTaskCompletion | src/components/TodoApp.jsx:208-223 | only the flag of the matching task(s) flips; the list is written; the notification is untouched |
| App.TodoApp.HandleDragStart | src/components/TodoApp.jsx:226-236 | the task is recorded as picked up |
| App.TodoApp.HandleDrop | src/components/TodoApp.jsx:245-272 | the list changes only when a task was picked up with a flag different from the target, and then only that task's flag; nothing is picked up afterwards |
| App.TodoApp.SaveTasksEffect | src/components/TodoApp.jsx:63-74 | a successful write stores the list; a failed one keeps the old key and raises the save error |
| App.TodoApp.CheckDueTasks | src/components/TodoApp.jsx:87-114 | the loop leaves the slot equal to the scan of the list from the old slot |
| App.TodoApp.TasksChanged | src/components/TodoApp.jsx:63-120 | after a change the key holds the list (or its old content) and the slot holds the scan started from the handler's notification or the save error |
| App.TodoApp.SaveDarkModeEffect | src/components/TodoApp.jsx:76-83 | a successful write stores the theme flag; a failed one is only logged and keeps the old key |
| App.TodoApp.Mounted | src/components/TodoApp.jsx:62-119 | at mount both keys hold what was loaded when their writes succeed, so reloading gives the same list and flag; the slot holds the scan of the loaded list, started from the save error if the list's write failed |
| App.TodoApp.SetDarkMode | src/components/TodoApp.jsx:76-83 | the flag takes the new value, and a change is written to its key when the write succeeds |
| TaskLists.DropTarget | src/components/TaskLists.jsx:120 | the uncompleted pane drops with target false and the completed pane with target true |
| TaskLists.BucketsPartition | src/components/TaskLists.jsx:138-139 | of `TaskLists.Bucket`, the model of the two pane `filter` calls: each pane holds exactly the filtered tasks with its flag, in filtered order, and together they hold every filtered task once |
| TaskLists.RenderPane | src/components/TaskLists.jsx:130-139 | the "No ... tasks found" line shows exactly when no filtered task has the pane's flag; otherwise the pane lists its bucket |
| TaskLists.DropLandsInPane | src/components/TaskLists.jsx:203-206 | after a drop on a pane, every task with the dragged id is in that pane's bucket |
| TaskLists.EditDialog.constructor | src/components/TaskLists.jsx:38-41 | no task, empty fields, dialog closed |
| TaskLists.EditDialog.OpenEditDialog | src/components/TaskLists.jsx:44-49 | the dialog opens on the task with its name and date in the fields |
| TaskLists.EditDialog.SaveEditedTask | src/components/TaskLists.jsx:52-61 | a call is made exactly when the guard passes; it carries the task's id and both new fields and closes the dialog; otherwise the dialog stays as it was |

## Left out

- Rendering: JSX, MUI and Tailwind styling, the dialogs as widgets, the Snackbar and its close and auto-hide. These are presentation only.
- `src/components/Navbar.jsx` is not part of this model. Its switch only calls the theme setter, modelled as `SetDarkMode`.
- `src/components/TaskManagement.jsx` is not part of this model. It forwards to an `addTask` that returns a success flag, and no shown file defines one.
- The `updateTask` callback of `TaskLists` is defined in no shown file. `EditDialog.SaveEditedTask` returns the call it would make.
- Timer plumbing: `setInterval`, the daily re-run of the check and `clearInterval` on cleanup. `CheckDueTasks` is one run of the check; the first run of every effect at mount is `Mounted`.
- Clocks: `Date.now()` and the creation time are parameters. The creation stamp is a number, not an ISO string.
- Dates: due dates and today are day numbers.
  - Parsing a date string and moving it to local midnight is not modelled, and neither is the one-day shift this causes west of UTC.
  - DST is not modelled. A 23- or 25-hour day makes the day difference fractional, and a value such as 1.04 gives no reminder.
  - The "Overdue" chip compares with the current instant. It is display only.
- Derived.RoundedPercent: computes `Math.round` on exact rationals and does not reproduce floating-point rounding at halves.
- Text.Lower: ASCII only; Unicode case mapping is not modelled.
- Text.IsSpace: covers a fixed set of white-space characters; the rest of Unicode's space separators are not recognised.
- Storage: `JSON.stringify`, `JSON.parse` and `localStorage` are modelled as a slot that is absent, corrupt or holds a value. Two things are not modelled:
  - stored JSON that parses to something other than a list (such as `null`);
  - losing ids beyond 2^53 in a round trip.
  A failed write is the `writeOk` parameter.
- Drag mechanics: `dataTransfer`, the drag image and `handleDragOver`. These change no state.
- The search term and the status selection are parameters of `FilteredTasks`. They are not fields of the class, because no handler of the core changes them.
- React batching: a handler's state updates are applied one after the other. Each handler reads only the state from before the call, so the result is the same.
