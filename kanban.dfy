/** The kanban view: four columns, each showing the tasks whose status names it,
    in the order the tasks are stored. */
module Kanban {
  import opened Records
  import opened Entities

  /** The board's columns, left to right, named by the status of the cards they hold. */
  const Columns: seq<string> := ["to-do", "in-progress", "done", Cancelled]

  /** `tasks.filter(task => task.status === status)`. */
  function Column(tasks: seq<Task>, status: string): (col: seq<Task>)
    ensures |col| <= |tasks|
    ensures forall i :: 0 <= i < |col| ==> col[i] in tasks && col[i].fields.status == status
    ensures forall i :: 0 <= i < |tasks| && tasks[i].fields.status == status ==> tasks[i] in col
  {
    if tasks == [] then []
    else (if tasks[0].fields.status == status then [tasks[0]] else []) + Column(tasks[1..], status)
  }

  /** The cards of each column, in the order of `Columns`. */
  function Board(tasks: seq<Task>): (board: seq<seq<Task>>)
    ensures |board| == |Columns|
  {
    seq(|Columns|, i requires 0 <= i < |Columns| => Column(tasks, Columns[i]))
  }

  /** A column shows exactly the tasks whose status names it. */
  lemma BoardShowsByStatus(tasks: seq<Task>, i: nat, t: Task)
    requires i < |Columns|
    ensures t in Board(tasks)[i] <==> t in tasks && t.fields.status == Columns[i]
  {
  }

  /** A task whose status is none of the four columns' is shown in no column. */
  lemma UnknownStatusHidden(tasks: seq<Task>, t: Task)
    requires t.fields.status !in Columns
    ensures forall i :: 0 <= i < |Columns| ==> t !in Board(tasks)[i]
  {
  }

  /** Bucketing a concatenation buckets each part: a column keeps the tasks' stored order. */
  lemma {:induction false} ColumnAppend(a: seq<Task>, b: seq<Task>, status: string)
    ensures Column(a + b, status) == Column(a, status) + Column(b, status)
  {
    if a == [] {
      assert a + b == b;
    } else {
      assert (a + b)[1..] == a[1..] + b;
      ColumnAppend(a[1..], b, status);
    }
  }

  /** When every task has one of the four statuses, the columns together hold every task exactly once. */
  lemma {:induction false} EveryCardShownOnce(tasks: seq<Task>)
    requires forall i :: 0 <= i < |tasks| ==> tasks[i].fields.status in Columns
    ensures |Board(tasks)[0]| + |Board(tasks)[1]| + |Board(tasks)[2]| + |Board(tasks)[3]| == |tasks|
  {
    if tasks != [] {
      var tail := tasks[1..];
      assert forall i :: 0 <= i < |tail| ==> tail[i] == tasks[i + 1];
      EveryCardShownOnce(tail);
    }
  }

  /** Replacing the card at position `k` (an edit or a drop) shows the new card at
      that position in the column of its status and in no other, and leaves every
      other card where it was. */
  lemma ColumnAfterReplace(tasks: seq<Task>, k: nat, d: Task, status: string)
    requires k < |tasks|
    ensures Column(tasks[k := d], status) ==
              Column(tasks[..k], status)
              + (if d.fields.status == status then [d] else [])
              + Column(tasks[k + 1..], status)
  {
    var before, after := tasks[..k], tasks[k + 1..];
    assert tasks[k := d] == (before + [d]) + after;
    ColumnAppend(before + [d], after, status);
    ColumnAppend(before, [d], status);
  }

  /** A newly created task is shown last in the column of its status. */
  lemma CreatedShownLast(tasks: seq<Task>, t: Task)
    ensures Column(tasks + [t], t.fields.status) == Column(tasks, t.fields.status) + [t]
  {
    ColumnAppend(tasks, [t], t.fields.status);
  }

  /** Dropping a task onto a column moves its card there, at the task's position in
      the list, and out of every other column. */
  lemma DropMovesCard(tasks: seq<Task>, id: int, newStatus: string, answer: Option<string>, status: string)
    requires HasId(tasks, id)
    ensures var k := FirstIndex(tasks, id);
            var d := Dropped(tasks[k], newStatus, answer);
            Column(tasks[k := d], status) ==
              Column(tasks[..k], status)
              + (if status == newStatus then [d] else [])
              + Column(tasks[k + 1..], status)
  {
    var k := FirstIndex(tasks, id);
    ColumnAfterReplace(tasks, k, Dropped(tasks[k], newStatus, answer), status);
  }
}
