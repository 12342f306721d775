/** The app's module-level state and the handlers that change it: the three
    collections with their save/delete handlers, the drag-and-drop status change,
    the password gate, and the running total the points view shows. Form inputs,
    the answers of `confirm` and `prompt`, the value `parseInt` produced and the
    id `Date.now()` supplied arrive as parameters. */
module ClassWorks {
  import opened Records
  import opened Entities
  import opened Ledger

  /** The section `login` opens. */
  const KanbanSection: string := "kanban-section"

  /** A new password is taken when it is non-empty and matches its confirmation. */
  predicate PasswordAcceptable(newPass: string, confirmPass: string) {
    newPass == confirmPass && newPass != []
  }

  class App {
    var tasks: seq<Task>
    var logs: seq<Log>
    var points: seq<Point>
    /** The stored password; `None` until one has been set. */
    var password: Option<string>
    var isLoggedIn: bool
    /** The section `showSection` last made visible; `None` while the page's own default shows. */
    var section: Option<string>

    /** Start-up: each collection is what storage held, or empty when the key was absent. */
    constructor (storedTasks: Option<seq<Task>>, storedLogs: Option<seq<Log>>,
                 storedPoints: Option<seq<Point>>, storedPassword: Option<string>)
      ensures tasks == storedTasks.GetOr([]) && logs == storedLogs.GetOr([])
      ensures points == storedPoints.GetOr([])
      ensures password == storedPassword && !isLoggedIn && section == None
    {
      tasks := storedTasks.GetOr([]);
      logs := storedLogs.GetOr([]);
      points := storedPoints.GetOr([]);
      password := storedPassword;
      isLoggedIn := false;
      section := None;
    }

    // ---------------------------------------------------------------- tasks

    /** Saves the task form: rejected unless complete; otherwise it overwrites the
        fields of the task being edited, in place, or appends a new task under `freshId`. */
    method SaveTask(form: TaskForm, editing: Option<int>, freshId: int) returns (saved: bool)
      requires form.Complete() && IsEdit(editing) ==> HasId(tasks, editing.value)
      requires form.Complete() && !IsEdit(editing) ==> !HasId(tasks, freshId)
      modifies this`tasks
      ensures saved == form.Complete()
      ensures !saved ==> tasks == old(tasks)
      ensures saved && IsEdit(editing) ==>
                var k := FirstIndex(old(tasks), editing.value);
                tasks == old(tasks)[k := Record(editing.value, form.Fields())]
      ensures saved && !IsEdit(editing) ==> tasks == old(tasks) + [Record(freshId, form.Fields())]
      ensures UniqueIds(old(tasks)) ==> UniqueIds(tasks)
    {
      if !form.Complete() {
        return false;
      }
      if IsEdit(editing) {
        var k := FirstIndex(tasks, editing.value);
        tasks := tasks[k := tasks[k].(fields := form.Fields())];
      } else {
        if UniqueIds(tasks) {
          AppendFreshKeepsUnique(tasks, Record(freshId, form.Fields()));
        }
        tasks := tasks + [Record(freshId, form.Fields())];
      }
      saved := true;
    }

    /** Deletes, once confirmed, every task carrying `id`. */
    method DeleteTask(id: int, confirmed: bool)
      modifies this`tasks
      ensures tasks == if confirmed then WithoutId(old(tasks), id) else old(tasks)
      ensures confirmed ==> !HasId(tasks, id)
      ensures !HasId(old(tasks), id) ==> tasks == old(tasks)
      ensures confirmed && UniqueIds(old(tasks)) && HasId(old(tasks), id) ==>
                var k := FirstIndex(old(tasks), id);
                tasks == old(tasks)[..k] + old(tasks)[k + 1..] && |tasks| == |old(tasks)| - 1
      ensures UniqueIds(old(tasks)) ==> UniqueIds(tasks)
    {
      DeleteFacts(tasks, id);
      if confirmed {
        tasks := WithoutId(tasks, id);
      }
    }

    /** Drops the card of task `id` on the column for `newStatus`; `answer` is what
        the reason prompt returns if the drop asks for one. */
    method Drop(id: int, newStatus: string, answer: Option<string>)
      requires HasId(tasks, id)
      modifies this`tasks
      ensures var k := FirstIndex(old(tasks), id);
              tasks == old(tasks)[k := Dropped(old(tasks)[k], newStatus, answer)]
      ensures UniqueIds(old(tasks)) ==> UniqueIds(tasks)
    {
      var k := FirstIndex(tasks, id);
      tasks := tasks[k := Dropped(tasks[k], newStatus, answer)];
    }

    // ----------------------------------------------------------------- logs

    /** Saves the log form: rejected unless complete; otherwise it overwrites the
        fields of the entry being edited, in place, or appends a new entry under `freshId`. */
    method SaveLog(form: LogFields, editing: Option<int>, freshId: int) returns (saved: bool)
      requires form.Complete() && IsEdit(editing) ==> HasId(logs, editing.value)
      requires form.Complete() && !IsEdit(editing) ==> !HasId(logs, freshId)
      modifies this`logs
      ensures saved == form.Complete()
      ensures !saved ==> logs == old(logs)
      ensures saved && IsEdit(editing) ==>
                var k := FirstIndex(old(logs), editing.value);
                logs == old(logs)[k := Record(editing.value, form)]
      ensures saved && !IsEdit(editing) ==> logs == old(logs) + [Record(freshId, form)]
      ensures UniqueIds(old(logs)) ==> UniqueIds(logs)
    {
      if !form.Complete() {
        return false;
      }
      if IsEdit(editing) {
        var k := FirstIndex(logs, editing.value);
        logs := logs[k := logs[k].(fields := form)];
      } else {
        if UniqueIds(logs) {
          AppendFreshKeepsUnique(logs, Record(freshId, form));
        }
        logs := logs + [Record(freshId, form)];
      }
      saved := true;
    }

    /** Deletes, once confirmed, every log entry carrying `id`. */
    method DeleteLog(id: int, confirmed: bool)
      modifies this`logs
      ensures logs == if confirmed then WithoutId(old(logs), id) else old(logs)
      ensures confirmed ==> !HasId(logs, id)
      ensures !HasId(old(logs), id) ==> logs == old(logs)
      ensures confirmed && UniqueIds(old(logs)) && HasId(old(logs), id) ==>
                var k := FirstIndex(old(logs), id);
                logs == old(logs)[..k] + old(logs)[k + 1..] && |logs| == |old(logs)| - 1
      ensures UniqueIds(old(logs)) ==> UniqueIds(logs)
    {
      DeleteFacts(logs, id);
      if confirmed {
        logs := WithoutId(logs, id);
      }
    }

    // --------------------------------------------------------------- points

    /** Saves the point form: rejected unless complete and the change parsed;
        otherwise it overwrites the entry being edited, in place, or appends a new
        entry under `freshId`. The total moves by exactly the change made. */
    method SavePoint(form: PointForm, editing: Option<int>, freshId: int) returns (saved: bool)
      requires form.Complete() && IsEdit(editing) ==> HasId(points, editing.value)
      requires form.Complete() && !IsEdit(editing) ==> !HasId(points, freshId)
      modifies this`points
      ensures saved == form.Complete()
      ensures !saved ==> points == old(points)
      ensures saved && IsEdit(editing) ==>
                var k := FirstIndex(old(points), editing.value);
                && points == old(points)[k := Record(editing.value, form.Fields())]
                && Total(points) == Total(old(points)) - old(points)[k].fields.change + form.change.value
      ensures saved && !IsEdit(editing) ==>
                && points == old(points) + [Record(freshId, form.Fields())]
                && Total(points) == Total(old(points)) + form.change.value
      ensures UniqueIds(old(points)) ==> UniqueIds(points)
    {
      if !form.Complete() {
        return false;
      }
      if IsEdit(editing) {
        var k := FirstIndex(points, editing.value);
        TotalAfterReplace(points, k, points[k].(fields := form.Fields()));
        points := points[k := points[k].(fields := form.Fields())];
      } else {
        TotalAfterAppend(points, Record(freshId, form.Fields()));
        if UniqueIds(points) {
          AppendFreshKeepsUnique(points, Record(freshId, form.Fields()));
        }
        points := points + [Record(freshId, form.Fields())];
      }
      saved := true;
    }

    /** Deletes, once confirmed, every point entry carrying `id`; with unique ids the
        total drops by exactly that entry's change. */
    method DeletePoint(id: int, confirmed: bool)
      modifies this`points
      ensures points == if confirmed then WithoutId(old(points), id) else old(points)
      ensures confirmed ==> !HasId(points, id)
      ensures !HasId(old(points), id) ==> points == old(points)
      ensures confirmed && UniqueIds(old(points)) && HasId(old(points), id) ==>
                var k := FirstIndex(old(points), id);
                && points == old(points)[..k] + old(points)[k + 1..]
                && Total(points) == Total(old(points)) - old(points)[k].fields.change
      ensures UniqueIds(old(points)) ==> UniqueIds(points)
    {
      DeleteFacts(points, id);
      if UniqueIds(points) && HasId(points, id) {
        TotalAfterDelete(points, id);
      }
      if confirmed {
        points := WithoutId(points, id);
      }
    }

    /** The running total the points view shows: each entry's change added in turn. */
    method PointsTotal() returns (total: int)
      ensures total == Total(points)
    {
      total := 0;
      var i := 0;
      while i < |points|
        invariant 0 <= i <= |points|
        invariant total == Total(points[..i])
      {
        assert points[..i + 1][..i] == points[..i];
        total := total + points[i].fields.change;
        i := i + 1;
      }
      assert points[..|points|] == points;
    }

    // ----------------------------------------------------------- the gate

    /** First-use password: taken when non-empty and confirmed, else nothing changes. */
    method SetInitialPassword(newPass: string, confirmPass: string) returns (accepted: bool)
      modifies this`password
      ensures accepted == PasswordAcceptable(newPass, confirmPass)
      ensures password == if accepted then Some(newPass) else old(password)
    {
      accepted := PasswordAcceptable(newPass, confirmPass);
      if accepted {
        password := Some(newPass);
      }
    }

    /** Logs in when `input` equals the stored password, which then opens the
        kanban section; a failed attempt changes nothing. */
    method Login(input: string) returns (ok: bool)
      modifies this`isLoggedIn, this`section
      ensures ok == (password == Some(input))
      ensures password == None ==> !ok
      ensures isLoggedIn == (ok || old(isLoggedIn))
      ensures section == if ok then Some(KanbanSection) else old(section)
    {
      ok := password == Some(input);
      if ok {
        isLoggedIn := true;
        ShowSection(KanbanSection);
      }
    }

    /** Settings password change: same rule as the first-use password. */
    method ChangePassword(newPass: string, confirmPass: string) returns (accepted: bool)
      modifies this`password
      ensures accepted == PasswordAcceptable(newPass, confirmPass)
      ensures password == if accepted then Some(newPass) else old(password)
    {
      accepted := PasswordAcceptable(newPass, confirmPass);
      if accepted {
        password := Some(newPass);
      }
    }

    method Logout()
      modifies this`isLoggedIn
      ensures !isLoggedIn
    {
      isLoggedIn := false;
    }

    /** Shows a section, but only to a logged-in user. */
    method ShowSection(sectionId: string)
      modifies this`section
      ensures section == if isLoggedIn then Some(sectionId) else old(section)
    {
      if !isLoggedIn {
        return;
      }
      section := Some(sectionId);
    }
  }

  /** What every delete handler relies on about `WithoutId`. */
  lemma {:induction false} DeleteFacts<F>(s: seq<Record<F>>, id: int)
    ensures !HasId(WithoutId(s, id), id)
    ensures !HasId(s, id) ==> WithoutId(s, id) == s
    ensures UniqueIds(s) && HasId(s, id) ==>
              var k := FirstIndex(s, id);
              WithoutId(s, id) == s[..k] + s[k + 1..] && |WithoutId(s, id)| == |s| - 1
    ensures UniqueIds(s) ==> UniqueIds(WithoutId(s, id))
  {
    if !HasId(s, id) {
      WithoutIdAbsent(s, id);
    }
    if UniqueIds(s) {
      WithoutIdKeepsUnique(s, id);
      if HasId(s, id) {
        WithoutIdUnique(s, id);
      }
    }
  }

  /** Setting "abc" and then logging in: "xyz" is refused, "abc" gets in. */
  method GateScenario() {
    var app := new App(None, None, None, None);
    var ok := app.Login("abc");
    assert !ok && !app.isLoggedIn;
    var accepted := app.SetInitialPassword("abc", "abd");
    assert !accepted && app.password == None;
    accepted := app.SetInitialPassword("abc", "abc");
    assert accepted;
    ok := app.Login("xyz");
    assert !ok && !app.isLoggedIn;
    app.ShowSection("settings-section");
    assert app.section == None;
    ok := app.Login("abc");
    assert ok && app.isLoggedIn && app.section == Some(KanbanSection);
    app.Logout();
    assert !app.isLoggedIn;
  }
}
