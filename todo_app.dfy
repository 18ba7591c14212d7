/** The state of the `TodoApp` component and its handlers. Each handler is a
    method that reassigns the fields it changes, as the component's state
    setters do; the new task lists come from `TaskOps`. The component's effects
    on `tasks` (save, then reminder check) are methods of their own, and
    `TasksChanged` runs them in the order the component declares them. */
module App {
  import opened Tasks
  import opened TaskOps
  import opened Derived
  import opened Persistence

  const AddedMessage := "Task added successfully!"
  const DeletedMessage := "Task deleted successfully!"
  const UpdatedMessage := "Task updated successfully!"
  const CompletedMessage := "Task marked as completed!"
  const ReopenedMessage := "Task moved back to uncompleted list!"
  const SaveErrorMessage := "Error saving tasks. Your changes may not persist after refresh."

  /** The open success notification with `message`. */
  function Succeeded(message: string): Notification
  {
    Notification(true, message, Success)
  }

  /** The error notification the save effect raises when a write fails. */
  const SaveFailed := Notification(true, SaveErrorMessage, Error)

  class TodoApp {
    /** The canonical task list. */
    var tasks: seq<Task>
    /** The `tasks` key of local storage. */
    var stored: Slot<seq<Task>>
    var darkMode: bool
    /** The `darkMode` key of local storage. */
    var storedDarkMode: Slot<bool>
    /** The single notification slot. */
    var notification: Notification
    /** The task picked up by the current drag, if any. */
    var draggedTask: Option<Task>
    /** The add form's fields. */
    var newTaskName: string
    var newTaskDate: DueDate
    /** The edit dialog's state. */
    var editTask: Option<Task>
    var editTaskName: string
    var editTaskDate: DueDate
    var openDialog: bool

    /** The component's initial state: both keys are read from storage, with
        an empty list and light mode as the fallbacks. */
    constructor (taskSlot: Slot<seq<Task>>, darkModeSlot: Slot<bool>)
      ensures tasks == Load(taskSlot, []) && stored == taskSlot
      ensures darkMode == Load(darkModeSlot, false) && storedDarkMode == darkModeSlot
      ensures notification == InitialNotification && draggedTask == None
      ensures newTaskName == "" && newTaskDate == Blank
      ensures editTask == None && editTaskName == "" && editTaskDate == Blank && !openDialog
    {
      tasks := Load(taskSlot, []);
      stored := taskSlot;
      darkMode := Load(darkModeSlot, false);
      storedDarkMode := darkModeSlot;
      notification := InitialNotification;
      draggedTask := None;
      newTaskName, newTaskDate := "", Blank;
      editTask, editTaskName, editTaskDate := None, "", Blank;
      openDialog := false;
    }

    /** Writes the whole list to the `tasks` key right after a change; a
        failed write is only logged, so the key keeps its old content. */
    method WriteTasks(ts: seq<Task>, writeOk: bool)
      modifies this`stored
      ensures stored == if writeOk then Save(ts) else old(stored)
    {
      if writeOk {
        stored := Save(ts);
      }
    }

    /** Adds a task from the form. A blank name or an empty date is refused and
        nothing changes. Otherwise one task, not completed, with the name as
        typed and the clock reading `now` as id, is appended; the list is
        written; the form is cleared; a success notification is raised. Ids
        stay unique when `now` is not yet in use. */
    method AddTask(now: int, createdAt: int, writeOk: bool)
      modifies this`tasks, this`stored, this`notification, this`newTaskName, this`newTaskDate
      ensures !ValidInput(old(newTaskName), old(newTaskDate)) ==> unchanged(this)
      ensures ValidInput(old(newTaskName), old(newTaskDate)) ==>
        && tasks == old(tasks) + [Task(now, old(newTaskName), old(newTaskDate), false, createdAt)]
        && stored == (if writeOk then Save(tasks) else old(stored))
        && notification == Succeeded(AddedMessage)
        && newTaskName == "" && newTaskDate == Blank
      ensures UniqueIds(old(tasks)) && IdFree(old(tasks), now) ==> UniqueIds(tasks)
    {
      if !ValidInput(newTaskName, newTaskDate) {
        return;
      }
      var added := Task(now, newTaskName, newTaskDate, false, createdAt);
      AppendKeepsUnique(tasks, added);
      var updated := tasks + [added];
      tasks := updated;
      newTaskName := "";
      newTaskDate := Blank;
      WriteTasks(updated, writeOk);
      notification := Succeeded(AddedMessage);
    }

    /** Deletes every task with id `id`, keeping the others in order; writes
        the list and raises a success notification, even when no task had
        that id. */
    method DeleteTask(id: int, writeOk: bool)
      modifies this`tasks, this`stored, this`notification
      ensures tasks == Deleted(old(tasks), id)
      ensures stored == if writeOk then Save(tasks) else old(stored)
      ensures notification == Succeeded(DeletedMessage)
      ensures UniqueIds(old(tasks)) ==> UniqueIds(tasks)
    {
      DeletedSpec(tasks, id);
      var updated := Deleted(tasks, id);
      tasks := updated;
      WriteTasks(updated, writeOk);
      notification := Succeeded(DeletedMessage);
    }

    /** Opens the edit dialog on `task`, with its name and date in the fields. */
    method OpenEditDialog(task: Task)
      modifies this`editTask, this`editTaskName, this`editTaskDate, this`openDialog
      ensures editTask == Some(task) && editTaskName == task.name && editTaskDate == task.date
      ensures openDialog
    {
      editTask := Some(task);
      editTaskName := task.name;
      editTaskDate := task.date;
      openDialog := true;
    }

    /** Saves the edit dialog. A blank name or an empty date is refused and
        nothing changes, the dialog stays open. Otherwise name and date of the
        task(s) with the edited task's id are replaced, the dialog closes, the
        list is written and a success notification is raised. The dialog's
        task is only read once the fields have passed the guard. */
    method SaveEditedTask(writeOk: bool)
      requires editTask.Some? || !ValidInput(editTaskName, editTaskDate)
      modifies this`tasks, this`stored, this`notification, this`openDialog
      ensures !ValidInput(old(editTaskName), old(editTaskDate)) ==> unchanged(this)
      ensures ValidInput(old(editTaskName), old(editTaskDate)) ==>
        && tasks == Edited(old(tasks), old(editTask).value.id, old(editTaskName), old(editTaskDate))
        && !openDialog
        && stored == (if writeOk then Save(tasks) else old(stored))
        && notification == Succeeded(UpdatedMessage)
      ensures UniqueIds(old(tasks)) ==> UniqueIds(tasks)
    {
      if !ValidInput(editTaskName, editTaskDate) {
        return;
      }
      var updated := Edited(tasks, editTask.value.id, editTaskName, editTaskDate);
      tasks := updated;
      openDialog := false;
      WriteTasks(updated, writeOk);
      notification := Succeeded(UpdatedMessage);
    }

    /** Flips the completion flag of the task(s) with id `id` and writes the
        list. It raises no notification. */
    method ToggleTaskCompletion(id: int, writeOk: bool)
      modifies this`tasks, this`stored
      ensures tasks == Toggled(old(tasks), id)
      ensures stored == if writeOk then Save(tasks) else old(stored)
      ensures UniqueIds(old(tasks)) ==> UniqueIds(tasks)
    {
      var updated := Toggled(tasks, id);
      tasks := updated;
      WriteTasks(updated, writeOk);
    }

    /** Picks `task` up: it is the one a later drop moves. */
    method HandleDragStart(task: Task)
      modifies this`draggedTask
      ensures draggedTask == Some(task)
    {
      draggedTask := Some(task);
    }

    /** Drops on a pane whose tasks have completion flag `target`. When a task
        was picked up and its flag, as it was at pick-up, differs from
        `target`, the task(s) with its id get flag `target`, the list is
        written and a success notification names the direction; otherwise
        nothing changes. Either way nothing is picked up afterwards. */
    method HandleDrop(target: bool, writeOk: bool)
      modifies this`tasks, this`stored, this`notification, this`draggedTask
      ensures draggedTask == None
      ensures old(draggedTask).Some? && old(draggedTask).value.completed != target ==>
        && tasks == Reclassified(old(tasks), old(draggedTask).value.id, target)
        && stored == (if writeOk then Save(tasks) else old(stored))
        && notification == Succeeded(if target then CompletedMessage else ReopenedMessage)
      ensures !(old(draggedTask).Some? && old(draggedTask).value.completed != target) ==>
        tasks == old(tasks) && stored == old(stored) && notification == old(notification)
      ensures UniqueIds(old(tasks)) ==> UniqueIds(tasks)
    {
      if draggedTask.Some? && draggedTask.value.completed != target {
        var updated := Reclassified(tasks, draggedTask.value.id, target);
        tasks := updated;
        WriteTasks(updated, writeOk);
        notification := Succeeded(if target then CompletedMessage else ReopenedMessage);
      }
      draggedTask := None;
    }

    /** The effect that saves the list whenever it changes: on a failed write
        the key keeps its old content and an error notification is raised. */
    method SaveTasksEffect(writeOk: bool)
      modifies this`stored, this`notification
      ensures writeOk ==> stored == Save(tasks) && notification == old(notification)
      ensures !writeOk ==> stored == old(stored) && notification == SaveFailed
    {
      if writeOk {
        stored := Save(tasks);
      } else {
        notification := SaveFailed;
      }
    }

    /** One run of the reminder check: walks the list in order and lets every
        task that raises a reminder overwrite the notification slot. */
    method CheckDueTasks(today: int)
      modifies this`notification
      ensures notification == Scan(tasks, today, old(notification))
    {
      var i := 0;
      while i < |tasks|
        invariant 0 <= i <= |tasks|
        invariant Scan(tasks[i..], today, notification) == Scan(tasks, today, old(notification))
      {
        assert tasks[i..][1..] == tasks[i + 1..];
        var task := tasks[i];
        if !task.completed {
          var reminder := Reminder(task, today);
          if reminder.Some? {
            notification := reminder.value;
          }
        }
        i := i + 1;
      }
    }

    /** What follows every change of the list: the save effect, then the
        reminder check, in the order the component declares them. The slot then
        shows the last reminder if any task raises one, and otherwise what the
        handler (or a failed save) put there. */
    method TasksChanged(writeOk: bool, today: int)
      modifies this`stored, this`notification
      ensures stored == if writeOk then Save(tasks) else old(stored)
      ensures notification == Scan(tasks, today, if writeOk then old(notification) else SaveFailed)
    {
      SaveTasksEffect(writeOk);
      CheckDueTasks(today);
    }

    /** The effect that saves the theme flag whenever it changes; a failed
        write is only logged, so the key keeps its old content. */
    method SaveDarkModeEffect(writeOk: bool)
      modifies this`storedDarkMode
      ensures storedDarkMode == if writeOk then Save(darkMode) else old(storedDarkMode)
    {
      if writeOk {
        storedDarkMode := Save(darkMode);
      }
    }

    /** Sets the theme flag; when it changes, the effect writes it to the
        `darkMode` key (a failed write is only logged). */
    method SetDarkMode(value: bool, writeOk: bool)
      modifies this`darkMode, this`storedDarkMode
      ensures darkMode == value
      ensures storedDarkMode == if value != old(darkMode) && writeOk then Save(value) else old(storedDarkMode)
    {
      if value != darkMode {
        darkMode := value;
        SaveDarkModeEffect(writeOk);
      }
    }

    /** The first render: every effect runs once, in the order the component
        declares them (save the list, save the theme, check due dates). So
        both keys are written back with what was loaded, a missing or corrupt
        key included, and the slot shows the reminders of the loaded list. */
    method Mounted(tasksOk: bool, darkOk: bool, today: int)
      modifies this`stored, this`storedDarkMode, this`notification
      ensures stored == if tasksOk then Save(tasks) else old(stored)
      ensures storedDarkMode == if darkOk then Save(darkMode) else old(storedDarkMode)
      ensures notification == Scan(tasks, today, if tasksOk then old(notification) else SaveFailed)
      ensures tasksOk ==> Load(stored, []) == tasks
      ensures darkOk ==> Load(storedDarkMode, false) == darkMode
    {
      SaveTasksEffect(tasksOk);
      SaveDarkModeEffect(darkOk);
      CheckDueTasks(today);
    }
  }

  /** A session: add "Pay rent", complete it, delete it; storage follows. */
  method PayRentSession()
  {
    var app := new TodoApp(Absent, Corrupt);
    assert app.tasks == [];
    app.Mounted(true, true, 19875);
    assert app.stored == Holds([]) && app.storedDarkMode == Holds(false);
    app.newTaskName := "Pay rent";
    app.newTaskDate := Day(19875);
    assert !Text.IsSpace(app.newTaskName[0]);
    app.AddTask(1717200000000, 1717200000000, true);
    assert |app.tasks| == 1 && !app.tasks[0].completed && app.tasks[0].name == "Pay rent";
    assert Statistics(app.tasks).activeCount == 1;
    app.ToggleTaskCompletion(1717200000000, true);
    assert app.tasks[0].completed;
    assert Statistics(app.tasks).completedCount == 1 && Statistics(app.tasks).activeCount == 0;
    app.DeleteTask(1717200000000, true);
    assert app.tasks == [] && Load(app.stored, [Task(0, "", Blank, false, 0)]) == [];
  }
}
