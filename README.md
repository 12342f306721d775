# Class-works board: a verified model of its state machine

`style.js` drives a single-page classroom app with three parts: a kanban board of
tasks, an activity log, and a points ledger, all behind a locally stored
password. Under the DOM wiring sit a few pieces of logic, and this project models them:

- **Three collections** (`tasks`, `logs`, `points`). Each is an ordered list of
  records keyed by a numeric `id`.
  - Saving a form is validated. A valid save either overwrites the edited record's
    fields in place or appends a new record.
  - Deleting, once confirmed, keeps every record whose `id` differs.
- **The drag-and-drop status change** of a task. When a task is dropped on the
  cancelled column and has no reason yet, the app asks for one.
- **The password gate.** The state is `password` and `isLoggedIn`, plus the
  section that `showSection` shows.
- **Two views with logic in them.**
  - The board buckets tasks by status into four columns, keeping list order.
  - The points view shows a running total of every entry's `change`.

Files and modules:

| file | module | contents |
|---|---|---|
| `records.dfy` | `Records` | `Record<F>` (an id plus fields), lookup of the first record with an id (`find`), deletion by id (`filter`), id uniqueness |
| `entities.dfy` | `Entities` | task, log and point fields; the form values and their required-field checks; `Dropped`, the task after a drop |
| `kanban.dfy` | `Kanban` | `Column` and `Board`, the bucketing done by `renderKanban` |
| `ledger.dfy` | `Ledger` | `Total`, the sum that `renderPoints` shows |
| `app.dfy` | `ClassWorks` | class `App` holding the module-level state, with one method per handler |

The class `App` stands for the script's module-level variables. Each handler is
a method, and its ``modifies this`field`` frame names the variables it may
change. The handlers' inputs are parameters:

- the form inputs (`TaskForm`, `LogFields`, `PointForm`);
- `confirm`'s answer, as `confirmed: bool`;
- `prompt`'s answer, as `Option<string>`, where `None` is `null`;
- `parseInt`'s result, as `Option<int>`, where `None` is `NaN`;
- the id `Date.now()` would give, as `freshId`, required to be unused;
- the id being edited, as `editing: Option<int>`. The source tests it for
  truthiness, so `Some(0)` counts as a create, just as in the source.

A task's `reason` is `Option<string>`, because a drop stores the prompt's
result and that result can be `null`. "Empty reason" means JavaScript-falsy:
`null` or `''`.

Some behaviour of the code is worth noting, and the model keeps it as written:

- Dropping a task on the cancelled column changes its status even when the
  reason prompt is dismissed. The reason then becomes `null`
  (`Entities.CancelledWithoutReason`). The task can therefore be cancelled with no reason recorded.
- Deleting an id that no record carries silently changes nothing. No
  not-found error is reported.
- A point entry needs `date`, `name` and `item` filled in and a `change` that
  parses. `reason` and `confirmed` may be empty.
- Column statuses are `'to-do'`, `'in-progress'`, `'done'` and `'cancelled'`.
- `changePassword` is not itself gated on being logged in. Only the visibility
  of the settings section is gated.

## Model

| member | source | states |
|---|---|---|
| `Records.FirstIndex` | style.js:227 | the record `find` returns: it is the first one carrying the id; nothing before it has that id |
| `Records.WithoutId` | style.js:248 | the filter keeps exactly the records whose id differs: every kept record comes from the list, none has the id, and every record with another id is kept |
| `Records.WithoutIdAppend` | style.js:248 | filtering a concatenation filters each part, so the kept records keep their relative order |
| `Records.WithoutIdAbsent` | style.js:248 | deleting an id that no record carries leaves the list unchanged |
| `Records.WithoutIdUnique` | style.js:246-252 | with unique ids, deleting a present id removes exactly that one record: the result is the list without that position, one shorter |
| `Records.WithoutIdKeepsUnique` | style.js:248 | deletion never creates duplicate ids |
| `Records.AppendFreshKeepsUnique` | style.js:237-238 | appending a record under a fresh id keeps ids unique |
| `Entities.TaskForm.Fields` | style.js:216-217 | a saved task takes the status chosen; its reason is the reason input when that status is `'cancelled'` and `''` otherwise |
| `Entities.Dropped` | style.js:270-276 | a drop sets the status and touches no other field except the reason. A non-empty reason is never replaced. On a drop to `'cancelled'` when the reason was empty, the prompt's answer becomes the reason, whatever it is; in every other case the reason is kept. The reason ends empty exactly when it was empty and the drop was not a cancel answered with a non-empty reason |
| `Entities.CancelledWithoutReason` | style.js:273-275 | a dismissed prompt still leaves the task cancelled, with a `null` reason |
| `Kanban.Column` | style.js:135 | a column holds only tasks of the list with its status, and holds every such task |
| `Kanban.Board` | style.js:131-135 | the board has one column per status, four in all |
| `Kanban.BoardShowsByStatus` | style.js:131-135 | a task is in column i if and only if it is in the list and its status is column i's status |
| `Kanban.UnknownStatusHidden` | style.js:131-135 | a task whose status is none of the four is in no column |
| `Kanban.ColumnAppend` | style.js:135 | bucketing a concatenation buckets each part, so each column keeps list order |
| `Kanban.EveryCardShownOnce` | style.js:131-135 | when every status is one of the four, the four column sizes add up to the number of tasks |
| `Kanban.ColumnAfterReplace` | style.js:226-235 | after the task at one position is replaced, its column shows it at that position and every other card stays where it was |
| `Kanban.CreatedShownLast` | style.js:236-238 | a created task is shown last in the column of its status |
| `Kanban.DropMovesCard` | style.js:266-280 | a dropped card appears at its list position in the target column and in no other column |
| `Ledger.TotalAppend` | style.js:385-387 | the running total of a concatenation is the sum of the parts' totals |
| `Ledger.TotalAfterAppend` | style.js:460-462 | creating a point entry adds its change to the total |
| `Ledger.TotalAfterReplace` | style.js:452-459 | editing an entry moves the total by the new change minus the old one |
| `Ledger.TotalAfterDelete` | style.js:470-476 | with unique ids, deleting a present entry lowers the total by exactly its change |
| `Ledger.TotalExample` | style.js:385-387 | changes 4, -2 and 3 total 5; deleting the -2 entry leaves 7 |
| `ClassWorks.App.constructor` | style.js:9-13 | each collection is what storage held or empty; the password is the stored one; nobody is logged in |
| `ClassWorks.App.SaveTask` | style.js:210-244 | accepted exactly when title, assignee and due date are non-empty. A rejected save changes nothing. An edit rewrites the fields of the first task with that id, keeping its id, its position and every other task. A create appends one task under the fresh id. Only `tasks` changes, and ids stay unique |
| `ClassWorks.App.DeleteTask` | style.js:246-252 | a confirmed delete leaves the tasks filtered by id, with no task carrying that id. An unconfirmed delete, or one of an absent id, changes nothing. With unique ids, exactly one task goes and the rest keep their order |
| `ClassWorks.App.Drop` | style.js:266-280 | only the first task with the id changes, as `Dropped` says; every other task and every other variable is unchanged |
| `ClassWorks.App.SaveLog` | style.js:339-371 | as `SaveTask`, with date, assignee and description required and the log fields stored as entered |
| `ClassWorks.App.DeleteLog` | style.js:373-379 | as `DeleteTask`, on `logs` |
| `ClassWorks.App.SavePoint` | style.js:438-468 | as `SaveTask`, with date, name and item required and `change` required to parse. The total rises by the new change on a create, and on an edit moves by the new change minus the old one |
| `ClassWorks.App.DeletePoint` | style.js:470-476 | as `DeleteTask`, on `points`; with unique ids, a confirmed delete of a present id lowers the total by that entry's change |
| `ClassWorks.App.PointsTotal` | style.js:385-405 | the accumulating loop computes the sum of `change` over the whole ledger |
| `ClassWorks.App.SetInitialPassword` | style.js:79-92 | the password becomes the new value exactly when it is non-empty and equals the confirmation; otherwise it is unchanged |
| `ClassWorks.App.Login` | style.js:94-107 | succeeds exactly when the input equals the stored password, so never while no password is set. Success sets `isLoggedIn` and shows the kanban section. Failure changes nothing |
| `ClassWorks.App.ChangePassword` | style.js:109-120 | same acceptance rule and effect as the first-use password |
| `ClassWorks.App.Logout` | style.js:122-127 | clears `isLoggedIn`, and nothing else changes |
| `ClassWorks.App.ShowSection` | style.js:62-69 | when logged out nothing changes; otherwise the requested section is the one shown |

## Left out

- DOM rendering is not modelled: template strings, `innerHTML`, the per-card listeners, modal show/hide, feedback text and the `hidden` class toggling of sections. The model keeps which section `showSection` last showed, as `App.section`. The kanban view and the points total are modelled as the pure `Column`/`Board` and `Total`. `renderLogs` is a flat table of `logs` in order, so it adds no logic.
- `loadData`/`saveData` and the password's `localStorage` writes are not modelled. They are browser storage and JSON, a foreign API. The constructor takes what storage held as parameters. Every handler that changes state writes the whole changed collection back, so stored state mirrors memory after each handler. A corrupt stored value would make `JSON.parse` throw, and that is not modelled either.
- `Date.now()` is not modelled. The new id is the `freshId` parameter, required to be unused.
- `confirm`, `prompt` and `parseInt` are foreign calls. Their results are parameters.
- The edit/add modal bookkeeping is not modelled as state: `openAdd*Modal`, `openEdit*Modal`, `clear*Modal`, the form pre-fills and the live cancel-reason toggle. `currentTaskId`, `currentLogId` and `currentPointId` become the `editing` parameter.
- The checks in `drop` for the drag source and the target column (`column && draggedTask`) are not modelled. They are DOM state: the model starts from the column's status and the dragged card's id.
- The start-up choice between the first-use password modal and the login modal is not modelled (style.js:29-33). It is UI only.
- Ids and point changes are integers here, not IEEE doubles. JavaScript's precision limits on very large numbers are not modelled.
- ClassWorks.App.SaveTask, ClassWorks.App.SaveLog, ClassWorks.App.SavePoint: the edited id must be present. The source dereferences the `undefined` that `find` returns when the id is stale, and throws. The model states no error path for that case.
- ClassWorks.App.Drop: the dropped id must be present, for the same reason.
