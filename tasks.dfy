/** The records the task manager keeps: tasks, their due dates and the single
    notification slot. */
module Tasks {

  datatype Option<T> = None | Some(value: T)

  /** The value of a date field. `Blank` is the empty string a cleared date
      input yields (falsy, so refused by validation); `Unparsable` is text that
      `new Date` turns into an invalid date, whose time value is NaN; `Day` is a
      calendar date, as the number of the day it falls on. */
  datatype DueDate = Blank | Unparsable | Day(day: int)

  /** One task: `id` comes from the clock at creation, `createdAt` is the
      creation time stamp. */
  datatype Task = Task(id: int, name: string, date: DueDate, completed: bool, createdAt: int)

  datatype Severity = Info | Success | Warning | Error

  /** The one notification slot: every new notification replaces the last. */
  datatype Notification = Notification(open: bool, message: string, severity: Severity)

  /** The slot as the app starts: closed, empty, informational. */
  const InitialNotification := Notification(false, "", Info)

  /** No two tasks of `ts` share an id. */
  predicate UniqueIds(ts: seq<Task>)
  {
    forall i, j :: 0 <= i < j < |ts| ==> ts[i].id != ts[j].id
  }

  /** No task of `ts` has id `id`. */
  predicate IdFree(ts: seq<Task>, id: int)
  {
    forall i :: 0 <= i < |ts| ==> ts[i].id != id
  }
}
