/** The `TaskLists` component: the two panes over the filtered tasks, their
    drop zones, and the edit dialog that checks its fields before handing the
    edit to its `updateTask` callback. */
module TaskLists {
  import opened Tasks
  import opened Seqs
  import opened TaskOps

  /** The two panes: pending tasks on one side, completed on the other. */
  datatype Pane = UncompletedPane | CompletedPane

  /** The completion flag of the tasks a pane lists. */
  function PaneFlag(pane: Pane): bool
  {
    pane == CompletedPane
  }

  /** The drop handler of a pane passes its own flag as the target: `false`
      for the uncompleted pane, `true` for the completed one. */
  function DropTarget(pane: Pane): (target: bool)
    ensures target == PaneFlag(pane)
    ensures target <==> pane.CompletedPane?
  {
    match pane
    case UncompletedPane => false
    case CompletedPane => true
  }

  /** The tasks a pane lists: the filtered tasks with its flag, in order. */
  function Bucket(filtered: seq<Task>, pane: Pane): seq<Task>
  {
    match pane
    case UncompletedPane => Filter(filtered, (t: Task) => !t.completed)
    case CompletedPane => Filter(filtered, (t: Task) => t.completed)
  }

  /** Each pane holds exactly the filtered tasks with its flag, in the
      filtered order, and the two panes together hold every filtered task
      exactly once. */
  lemma BucketsPartition(filtered: seq<Task>)
    ensures forall pane, t :: t in Bucket(filtered, pane) <==> t in filtered && t.completed == PaneFlag(pane)
    ensures IsSubsequence(Bucket(filtered, UncompletedPane), filtered)
    ensures IsSubsequence(Bucket(filtered, CompletedPane), filtered)
    ensures multiset(Bucket(filtered, UncompletedPane)) + multiset(Bucket(filtered, CompletedPane)) == multiset(filtered)
  {
    forall pane, t ensures t in Bucket(filtered, pane) <==> t in filtered && t.completed == PaneFlag(pane) {
      FilterMembers(filtered, (t: Task) => !t.completed, t);
      FilterMembers(filtered, (t: Task) => t.completed, t);
    }
    FilterIsSubsequence(filtered, (t: Task) => !t.completed);
    FilterIsSubsequence(filtered, (t: Task) => t.completed);
    FilterPartition(filtered, (t: Task) => !t.completed, (t: Task) => t.completed);
  }

  /** What a pane shows: its "No ... tasks found" line, or its task cards. */
  datatype PaneView = NothingFound(text: string) | Cards(cards: seq<Task>)

  /** The pane as rendered. It shows the "nothing found" line exactly when no
      filtered task has the pane's flag, and otherwise the pane's bucket. */
  function RenderPane(filtered: seq<Task>, pane: Pane): (v: PaneView)
    ensures v.NothingFound? <==> forall i :: 0 <= i < |filtered| ==> filtered[i].completed != PaneFlag(pane)
    ensures v.Cards? ==> v.cards == Bucket(filtered, pane) && v.cards != []
  {
    BucketsPartition(filtered);
    var bucket := Bucket(filtered, pane);
    if |bucket| == 0 then
      assert forall i :: 0 <= i < |filtered| ==> filtered[i] in filtered;
      NothingFound(if pane.CompletedPane? then "No completed tasks found" else "No uncompleted tasks found")
    else
      assert bucket[0] in bucket;
      Cards(bucket)
  }

  /** After a drop on a pane reclassifies a task, every task with that id
      sits in that pane's bucket of the new list. */
  lemma DropLandsInPane(ts: seq<Task>, id: int, pane: Pane)
    ensures forall t :: t in Reclassified(ts, id, DropTarget(pane)) && t.id == id ==>
      t in Bucket(Reclassified(ts, id, DropTarget(pane)), pane)
  {
    var r := Reclassified(ts, id, DropTarget(pane));
    BucketsPartition(r);
    forall t | t in r && t.id == id ensures t.completed == PaneFlag(pane) {
      var i :| 0 <= i < |r| && r[i] == t;
      assert ts[i].id == id;
    }
  }

  /** The call the dialog makes to its `updateTask` callback. */
  datatype UpdateRequest = UpdateRequest(id: int, name: string, date: DueDate)

  /** The edit dialog's state. */
  class EditDialog {
    var editTask: Option<Task>
    var editTaskName: string
    var editTaskDate: DueDate
    var openDialog: bool

    /** The component's initial state: no task, empty fields, dialog closed. */
    constructor ()
      ensures editTask == None && editTaskName == "" && editTaskDate == Blank && !openDialog
    {
      editTask := None;
      editTaskName := "";
      editTaskDate := Blank;
      openDialog := false;
    }

    /** Opens the dialog on `task`, with its name and date in the fields. */
    method OpenEditDialog(task: Task)
      modifies this
      ensures editTask == Some(task) && editTaskName == task.name && editTaskDate == task.date
      ensures openDialog
    {
      editTask := Some(task);
      editTaskName := task.name;
      editTaskDate := task.date;
      openDialog := true;
    }

    /** Saves the dialog. With a blank name or an empty date it makes no call
        and leaves everything as it was, dialog open. Otherwise it makes one
        call carrying the task's id and both new fields, then closes the
        dialog. The task is only read once the fields have passed the guard. */
    method SaveEditedTask() returns (call: Option<UpdateRequest>)
      requires editTask.Some? || !ValidInput(editTaskName, editTaskDate)
      modifies this`openDialog
      ensures call.Some? <==> ValidInput(editTaskName, editTaskDate)
      ensures call.None? ==> openDialog == old(openDialog)
      ensures call.Some? ==> call.value == UpdateRequest(editTask.value.id, editTaskName, editTaskDate) && !openDialog
    {
      if !ValidInput(editTaskName, editTaskDate) {
        return None;
      }
      call := Some(UpdateRequest(editTask.value.id, editTaskName, editTaskDate));
      openDialog := false;
    }
  }
}
