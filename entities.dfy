/** The three kinds of record the app stores (tasks, log entries, point entries),
    the values their forms submit, the checks a submission must pass, and the
    status change a task card undergoes when it is dropped on a board column. */
module Entities {
  import opened Records

  /** The status that makes a task's reason matter. */
  const Cancelled: string := "cancelled"

  /** A task's fields. `reason` is a JavaScript string or `null`: a drop stores
      whatever the reason prompt returned, and a dismissed prompt returns `null`. */
  datatype TaskFields = TaskFields(
    title: string, description: string, assignee: string, dueDate: string,
    priority: string, status: string, reason: Option<string>, links: string)

  type Task = Record<TaskFields>

  datatype LogFields = LogFields(
    date: string, assignee: string, category: string, description: string,
    link: string, status: string, notes: string)
  {
    /** The log form's required inputs are filled in. */
    predicate Complete() {
      date != [] && assignee != [] && description != []
    }
  }

  type Log = Record<LogFields>

  datatype PointFields = PointFields(
    date: string, name: string, item: string, change: int, reason: string, confirmed: string)

  type Point = Record<PointFields>

  /** The task form's eight inputs as read when the form is saved. */
  datatype TaskForm = TaskForm(
    title: string, description: string, assignee: string, dueDate: string,
    priority: string, status: string, reason: string, links: string)
  {
    /** Title, assignee and due date are filled in. */
    predicate Complete() {
      title != [] && assignee != [] && dueDate != []
    }

    /** The fields a save writes: the reason input is kept only for a cancelled task. */
    function Fields(): (f: TaskFields)
      ensures f.status == status
      ensures f.reason == Some(if status == Cancelled then reason else "")
    {
      TaskFields(title, description, assignee, dueDate, priority, status,
                 Some(if status == Cancelled then reason else ""), links)
    }
  }

  /** The point form's inputs; `change` is what `parseInt` made of the change input, `None` for NaN. */
  datatype PointForm = PointForm(
    date: string, name: string, item: string, change: Option<int>, reason: string, confirmed: string)
  {
    /** Date, name and item are filled in and the change parsed as an integer. */
    predicate Complete() {
      date != [] && name != [] && item != [] && change.Some?
    }

    function Fields(): PointFields
      requires Complete()
    {
      PointFields(date, name, item, change.value, reason, confirmed)
    }
  }

  /** The form edits an existing record rather than creating one: the id being
      edited is present and truthy, which rules out 0. */
  predicate IsEdit(editing: Option<int>) {
    editing.Some? && editing.value != 0
  }

  /** A reason JavaScript treats as falsy: `null` or the empty string. */
  predicate ReasonEmpty(reason: Option<string>) {
    reason == None || reason == Some("")
  }

  /** The task after its card is dropped on the column for `newStatus`, where
      `answer` is what the reason prompt returns if it is shown. */
  function Dropped(t: Task, newStatus: string, answer: Option<string>): (d: Task)
    ensures d.id == t.id && d.fields.status == newStatus
    ensures d.fields == t.fields.(status := newStatus, reason := d.fields.reason)
    ensures !ReasonEmpty(t.fields.reason) ==> d.fields.reason == t.fields.reason
    ensures newStatus != Cancelled ==> d.fields.reason == t.fields.reason
    ensures newStatus == Cancelled && ReasonEmpty(t.fields.reason) ==> d.fields.reason == answer
    ensures ReasonEmpty(d.fields.reason) <==>
              ReasonEmpty(t.fields.reason) && (newStatus != Cancelled || ReasonEmpty(answer))
  {
    var moved := t.fields.(status := newStatus);
    if newStatus == Cancelled && ReasonEmpty(t.fields.reason) then
      t.(fields := moved.(reason := answer))
    else
      t.(fields := moved)
  }

  /** Dropping onto the cancelled column can leave a cancelled task without a
      reason: the status changes even when the prompt is dismissed. */
  lemma CancelledWithoutReason(t: Task)
    requires ReasonEmpty(t.fields.reason)
    ensures Dropped(t, Cancelled, None).fields.status == Cancelled
    ensures Dropped(t, Cancelled, None).fields.reason == None
  {
  }
}
