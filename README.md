# Task board: client board logic, task API and task form, modelled in Dafny

The application is a three-column task board ("to-do", "in-progress", "done").
A board maps each column id to a map from task id to task record
`{id, title, description, created_at, updated_at}`. The same board logic exists twice:

- the React client (`frontend/src/App.jsx`) updates its copy optimistically or
  after the server confirms;
- the FastAPI server (`backend/main.py`) loads the stored board, changes it in place
  and saves it back.

The task form (`frontend/src/components/TaskModal.jsx`) guards the submit button and trims
its fields.

The project is organised as follows:

- `wrappers.dfy`: `Option`, `Result`, and `Reply`. A `Reply` is a remote call's
  outcome, either the data it returned or a failure.
- `text.dfy`: JavaScript's `String.prototype.trim` over the ECMAScript white-space set,
  and Python's `str()` of a non-negative integer, with the parse that inverts it.
- `kanban.dfy`: the board shape both copies share, and the map operations both are
  built from:
  - the first-holding-column scan;
  - store under a key;
  - delete from the first holder;
  - replace in the first holder;
  - remove-then-insert move.

  The invariants are:
  - `Complete`: all three columns are present;
  - `Unique`: no id is in two columns.
- `client.dfy`:
  - the pure updaters of `App.jsx`, as functions;
  - the moved-task search and `findTaskColumn`, as methods with loops;
  - the component state, as the class `App`, whose methods are the event handlers.

  Each remote call is an input: a `Reply` for the request, and for a failed move
  also the reply of the reload it triggers.
- `backend.dfy`: the endpoints of `main.py` as methods of `TaskService`, whose `file`
  field is the stored board. The column-init loop and the scan loops with their
  found flag, `break` and `return` are kept as loops. Each endpoint is stated against
  the `Kanban` functions and keeps `Consistent(file)`: all columns present, ids unique,
  every record filed under its own id. `CreateTask` keeps it only when the generated id
  is new. The clock, the millisecond reading of the id and
  its random suffix are parameters.
- `taskform.dfy`: the submit guard, the disabled conditions of the form's controls,
  and the class `TaskModal` holding the two field values with the prefill effect.

Both copies scan the columns with `data.items()` and `Object.entries(tasks)`, that is, in
the key order of the stored board. The model fixes that order as to-do, in-progress, done,
the order of the column list and of the empty-board literals. This is a modelling choice:
a stored file may list its columns in another order, and `create_task` and `move_task`
append a missing column at the end. The order only matters for an id that two columns
hold; on a board without duplicates the lookup is plain membership (`ColumnOfUnique`).

In these places the model follows the code rather than what its comments or the manual network script `frontend/src/test-api.js` suggest:

- **Where the drag searches.** The client's drag updater looks for the dragged id in
  every column, not only the source one. If the id is found somewhere other than the
  source, it is copied into the destination and also left where it was. Lemma
  `StaleDropDuplicates` exhibits this.
- **No revert on a failed move.** The comment at `frontend/src/App.jsx:102` speaks of
  reverting the optimistic update; the code instead reloads the whole board, so the
  result is whatever the reload returns, not the board before the drag.
- **Which error message stays.** After a failed move, the reload is started without
  being awaited and the move message is set. If the reload then fails,
  "Failed to load tasks" replaces the move message.
- **Empty titles.** The server accepts an empty title, although `frontend/src/test-api.js:118`
  expects a rejection. Only the client's form rejects one.
- **Task id on the column route.** `GET /tasks/<task id>` hits the column route and
  answers 400 (`TaskIdIsNoColumn`), not the 404 that `frontend/src/test-api.js:80-84` expects.

## Model

| member | source | states |
|---|---|---|
| Kanban.EmptyBoardWellFormed | backend/main.py:67-71 | The initial board has all three columns, holds no id, and has no duplicates. |
| Kanban.FirstIndex | frontend/src/App.jsx:186-190 | The scan result is the position of the first column that holds the id: no earlier column holds it, and `\|cols\|` means none does. |
| Kanban.ColumnOf | frontend/src/App.jsx:185-192 | The lookup yields a column that holds the id, and no column earlier in the fixed order holds it; it yields none exactly when no column holds the id. |
| Kanban.ColumnOfUnique | frontend/src/App.jsx:185-192 | On a board without duplicates, the lookup gives column c exactly when c holds the id. |
| Kanban.Put | frontend/src/App.jsx:136-142 | Storing under a key creates the column if it is missing and records the value under the key. Every other column and every other key of that column is unchanged. |
| Kanban.PutKeepsUnique | backend/main.py:180-183 | Writing an id into the column that already holds it, or into any column when no column holds it, keeps ids unique. |
| Kanban.RemoveFirst | frontend/src/App.jsx:164-175 | Delete from the first holder. If no column holds the id, the board is unchanged. Otherwise the id leaves the column the lookup finds, and the other columns and other keys are unchanged. |
| Kanban.RemoveFirstErases | backend/main.py:232-237 | On a board without duplicates, a delete leaves the id in no column, keeps ids unique, and does not change where any other id is. |
| Kanban.Replace | frontend/src/App.jsx:118-130 | The confirmed edit: if no column holds the id, nothing changes. Otherwise the record is stored under the id in the column the lookup finds. |
| Kanban.ReplaceKeepsMembership | backend/main.py:208-217 | Overwriting a record, on any board, leaves the set of ids in every column, and hence every lookup, unchanged. |
| Kanban.ReplaceKeepsUnique | backend/main.py:208-217 | Overwriting a record keeps ids unique. |
| Kanban.SameMembershipSameIndex | frontend/src/App.jsx:186-190 | Two boards whose columns hold the same ids scan to the same index. |
| Kanban.MoveEntry | backend/main.py:122-128 | Pop-then-insert: the record sits under the id in the destination, and leaves the source when the source differs from the destination. Only the two named columns change, and no other id or record changes. |
| Kanban.MoveEntryKeepsUnique | backend/main.py:118-128 | Moving an id out of the only column holding it keeps ids unique, and the lookup then finds the id in the destination. |
| Kanban.MoveEntryWithinColumn | frontend/src/App.jsx:80-88 | Moving an id within one column and storing its own record gives back the same board, so the id is still there exactly once. |
| Client.Reloaded | frontend/src/App.jsx:39-49 | A failed load leaves three empty columns and no id; a successful one leaves the fetched board. |
| Client.Relocated | frontend/src/App.jsx:66-91 | If no column holds the dragged id, the board is returned unchanged. Otherwise the column keys become the old ones plus source and destination, so a complete board stays complete; the record found by the scan is in the destination under the same id and leaves the source when the two differ. All other columns, ids and records are unchanged. |
| Client.DragUpdater | frontend/src/App.jsx:66-91 | The updater, written with its early-exit search loop, computes `Relocated`. |
| Client.RelocatedKeepsUnique | frontend/src/App.jsx:80-90 | When the dragged task is in the source column, uniqueness holds after the drag and the task is found in the destination only. |
| Client.SameColumnDropKeepsBoard | frontend/src/App.jsx:80-88 | Dropping a task elsewhere in its own column leaves the board unchanged. |
| Client.StaleDropDuplicates | frontend/src/App.jsx:71-88 | A drag whose source column does not hold the task, while another column does, leaves the id in two columns. |
| Client.CreateConfirmed | frontend/src/App.jsx:133-142 | A confirmed create stores the returned record at `tasks[targetColumn][newTask.id]`, after which the lookup finds it there. Other columns are unchanged, and ids stay unique when the created id is new. |
| Client.App.constructor | frontend/src/App.jsx:10-20 | Initial state: three empty columns, loading, no error, modal closed. |
| Client.App.BeginLoad | frontend/src/App.jsx:35-36 | Sets loading and clears the error before the fetch. |
| Client.App.FinishLoad | frontend/src/App.jsx:40-52 | After the fetch, the board is `Reloaded(response)`, loading ends, and a failure sets "Failed to load tasks". |
| Client.App.LoadTasks | frontend/src/App.jsx:33-53 | The whole load: the board is the fetched one or three empty columns, with no error or the load message. |
| Client.App.OnDragEnd | frontend/src/App.jsx:56-106 | A drop with no destination, or onto its own position (the predicate `Ignored`, lines 57 and 61-63), changes nothing. A confirmed move leaves `Relocated` of the old board, keeping all three columns present, and keeping uniqueness when the task was in its source column. A failed move leaves the reload's board with loading finished, and the move message, or the load message when the reload fails too. |
| Client.App.FindTaskColumn | frontend/src/App.jsx:185-192 | The early-exit loop returns the lookup result, none exactly when no column holds the id. |
| Client.App.HandleSaveTask | frontend/src/App.jsx:109-154 | A confirmed edit gives `Replace` of the old board, and a confirmed create gives `Put` into the target column; both close the modal. A failure keeps the board and the modal, and sets "Failed to update task" or "Failed to create task". `actionLoading` is false at the end of every path. The presence of all columns is kept, and so is uniqueness, for a create only when the created id is new. |
| Client.App.HandleDeleteTask | frontend/src/App.jsx:157-182 | A confirmed delete gives `RemoveFirst` of the old board, leaving the id in no column when ids were unique. A failure keeps the board and sets "Failed to delete task". `actionLoading` is false at the end of every path. |
| Client.App.OpenNewTaskModal | frontend/src/App.jsx:195-199 | Opens the modal for creating in the given column, with no task being edited. |
| Client.App.OpenEditTaskModal | frontend/src/App.jsx:202-206 | Opens the modal for editing the given task, with no target column. |
| Client.App.CloseModal | frontend/src/App.jsx:316-320 | Closes the modal and clears the edited task and the target column. |
| Client.App.DismissError | frontend/src/App.jsx:239 | The banner's close button clears the error. |
| Backend.ParseColumn | backend/main.py:145 | A string is accepted exactly when it is the name of one of the three columns, and it gives that column. |
| Backend.ValidateMove | backend/main.py:101-108 | A move request passes exactly when its three fields are non-empty and both columns are valid. Every rejection is 400. Empty fields are reported first, then an invalid source, then an invalid destination, each with its own message. |
| Backend.TaskId | backend/main.py:83-86 | An id is `task-`, then a canonical decimal numeral of the millisecond reading, then `-`, then the suffix. |
| Backend.TaskIdRoundTrip | backend/main.py:83-86 | A generated id has the form `task-<ms>-<s>` with a six-character suffix from `[a-z0-9]`, and reads back to the reading and suffix it was built from. |
| Backend.ParsedTaskIdIsGenerated | backend/main.py:83-86 | Every string of that form is the id generated from what it reads back to. |
| Backend.TaskIdInjective | backend/main.py:83-86 | Different clock readings or suffixes give different ids. |
| Backend.TaskIdIsNoColumn | backend/main.py:140-146 | No generated id is a column name, so a GET with a task id is rejected by the column route with 400. |
| Backend.Loaded | backend/main.py:60-71 | `load_data` gives the stored board, or three empty columns when the file is not valid JSON. |
| Backend.LoadedWellFormed | backend/main.py:60-71 | A consistent store loads to a well-formed board. |
| Backend.WithColumns | backend/main.py:113-115 | After the column-init step all three columns are present and each holds what it held before. |
| Backend.WithColumnsKeeps | backend/main.py:113-115 | Adding empty columns keeps ids unique and records filed under their own ids. |
| Backend.Updated | backend/main.py:211-217 | After a patch, the title and description change only where the patch gives a value, id and created_at are kept, and updated_at is the new reading. |
| Backend.UpdatedPartial | backend/main.py:211-217 | An empty patch only refreshes updated_at, and applying a patch twice equals applying it once. |
| Backend.PutKeepsWellFormed | backend/main.py:180-183 | Storing a record under its own id, in its own column or in any column when the id is new, keeps the board well formed. |
| Backend.TaskService.constructor | backend/main.py:41 | The service starts from the given store. |
| Backend.TaskService.MoveTask | backend/main.py:95-138 | The request is validated before any data change. Missing columns are added, and a task absent from the source gives 404 with the store unchanged. Otherwise the task is popped from the source, its updated_at refreshed, and stored under the same id in the destination, with all else kept. The store stays consistent. |
| Backend.TaskService.GetTasks | backend/main.py:140-149 | An unknown column gives 400; otherwise the reply is that column's map, or `{}` when the column is missing. |
| Backend.TaskService.GetAllTasks | backend/main.py:151-155 | Returns the loaded board, which is well formed when the store is consistent. |
| Backend.TaskService.CreateTask | backend/main.py:157-188 | An invalid column gives 400 with the store unchanged. Otherwise a record with the generated id, the title as sent, the description and the two readings is stored in that column only, and returned. There is no title check. The store stays consistent when the id is fresh. |
| Backend.TaskService.UpdateTask | backend/main.py:190-222 | An id in no column gives 404 with the store unchanged. Otherwise the first column holding the id keeps it, with the patched record stored in place, and that record is returned. The store stays consistent. |
| Backend.TaskService.DeleteTask | backend/main.py:224-240 | An id in no column gives 404. Otherwise the id is popped from the first column holding it and the deleted record is returned. On a consistent store the id is then in no column. |
| Text.TrimStart | frontend/src/components/TaskModal.jsx:21 | The longest suffix that does not start with white space; the dropped prefix is all white space. |
| Text.TrimEnd | frontend/src/components/TaskModal.jsx:21 | The longest prefix that does not end with white space; the dropped suffix is all white space. |
| Text.Trim | frontend/src/components/TaskModal.jsx:21 | `trim()` leaves no white space at either end and is never longer than its input. |
| Text.TrimOffset | frontend/src/components/TaskModal.jsx:27-28 | Gives the offset at which `trim()` starts in the input: the result is the slice there, and what lies before and after it is all white space. |
| Text.TrimIsSlice | frontend/src/components/TaskModal.jsx:27-28 | `trim()` is a contiguous slice of the input, with only white space cut from either side. |
| Text.TrimEmptyIffBlank | frontend/src/components/TaskModal.jsx:21 | `trim()` is empty exactly when the input is all white space. |
| Text.TrimOfTrimmed | frontend/src/components/TaskModal.jsx:27-28 | Trimming a string with no white space at its ends changes nothing. |
| Text.TrimIdempotent | frontend/src/components/TaskModal.jsx:27-28 | Trimming twice equals trimming once. |
| Text.DigitChar | backend/main.py:84 | A digit value gives a digit character. |
| Text.DigitValue | backend/main.py:84 | A digit character has a value below ten. |
| Text.Decimal | backend/main.py:84 | `str(n)` is a canonical numeral: non-empty, all digits, no leading zero unless it is "0". |
| Text.ParseDecimalOfDecimal | backend/main.py:84 | Reading back `str(n)` gives `n`. |
| Text.ParseDecimalPositive | backend/main.py:84 | A canonical numeral that does not start with '0' has a positive value. |
| Text.DecimalOfParseDecimal | backend/main.py:84 | Every canonical numeral is `str` of its value. |
| TaskForm.Submit | frontend/src/components/TaskModal.jsx:18-30 | Nothing is saved exactly when the title is blank. Otherwise `onSave` gets both fields trimmed, and the title is non-empty and trimmed. |
| TaskForm.ControlsFor | frontend/src/components/TaskModal.jsx:41 | Close, cancel and the inputs (lines 58, 73 and 84) are disabled exactly while loading. Submit is disabled exactly when loading or the title is blank (line 91). |
| TaskForm.EnabledSubmitSaves | frontend/src/components/TaskModal.jsx:91 | An enabled submit button always gets past the guard. A submit that passes the guard while not loading had the button enabled. |
| TaskForm.TaskModal.constructor | frontend/src/components/TaskModal.jsx:5-6 | Both fields start empty. |
| TaskForm.TaskModal.Prefill | frontend/src/components/TaskModal.jsx:8-16 | Editing copies the task's title and description, with a null description read as "". A new task clears both fields. |
| TaskForm.TaskModal.ChangeTitle | frontend/src/components/TaskModal.jsx:57 | The title field takes the typed value. |
| TaskForm.TaskModal.ChangeDescription | frontend/src/components/TaskModal.jsx:72 | The description field takes the typed value. |

## Left out

- **Rendering and gestures.** JSX rendering, the Tailwind classes, the icons, and the drag-and-drop library's gesture handling are left out. The drop result is an input record.
- **Transport.** The HTTP transport, the `./api` client module, axios, FastAPI routing and CORS are left out. Each remote call is an input: its reply, or a failure. The request body `taskData` therefore has no effect on the client's board; only the server's reply does.
- **File I/O.** The JSON file reads and writes are abstracted as the `file` field: a stored board, or text that is not valid JSON.
- **Other load failures.** A file that is not valid text makes the read raise `UnicodeDecodeError`, which `load_data` does not catch, so the endpoint fails; and valid JSON that is not an object (such as `[]`) is returned as is. Neither case is modelled.
- **save_data failure.** The 500 reply of `save_data` is not modelled; saving always succeeds.
- **init_data_file.** When the file is missing, `init_data_file` calls `os.makedirs("")`, which raises. This path is not modelled: the store starts either readable or undecodable.
- **Unknown columns.** The stored JSON could hold column keys other than the three known ones, or records of other shapes. Neither is modelled.
- **Column scan order.** The server's `data.items()` scans and the client's `Object.entries` scans follow the stored board's key order, which a stored file or an appended missing column can change. The model scans the three known columns in the fixed order to-do, in-progress, done. For an id held by two columns the real lookup may then pick a different column than `ColumnOf`; on a board without duplicates the two agree.
- **Order within a column.** Maps have no key order. A same-column drop at another index moves the key to the end of the JavaScript object, which reorders the cards; the model sees no change there.
- **Truthiness in findTaskColumn.** `findTaskColumn` and the drag search test `columnTasks[id]` for truthiness, which could also match inherited prototype keys. The model tests key membership, which for task records is the same.
- **Clock and randomness.** `time.time()` floats and `random.choices` are left out. Timestamps are `real` inputs; the millisecond reading and the suffix are parameters of `CreateTask`.
- **Fresh ids.** Neither copy checks that a created id is new: `generate_task_id` can repeat an id, and the client stores the returned record in the target column whatever other column already holds that id. A fresh id is therefore an assumption of the uniqueness and consistency clauses of `Backend.TaskService.CreateTask`, the create path of `Client.App.HandleSaveTask`, and `Client.CreateConfirmed`, not something the model guarantees.
- **Async interleaving.** Each handler is one sequential step, so the render-time `tasks` that `findTaskColumn` reads inside the updaters equals `prevTasks`.
- **actionLoading.** The flag only disables buttons. The model does not claim that moves exclude each other.
- **Error auto-clear.** The five-second timer at `frontend/src/App.jsx:209-216` is not modelled. `error` is a last-write-wins slot that `DismissError` clears.
- **Root and health endpoints.** The static `/` and `/health` endpoints are not modelled.
- **Task card.** `frontend/src/components/TaskCard.jsx` is not part of this model. Besides the date formatting of float timestamps, it asks `window.confirm` before calling `onDelete` (lines 37-38), so a declined confirmation never reaches `HandleDeleteTask`; and it disables its edit and delete buttons while `actionLoading` is set (lines 28 and 41). That disabling is why `Client.App.Valid()`, which `HandleDeleteTask` and `OpenEditTaskModal` require, includes `!actionLoading`: no such handler can start while another is in flight.
- **Other files.** `frontend/src/test-api.js` (a manual network script) is not part of this model. Where that script's expectations differ from `main.py`, the model follows `main.py`: 400, not 404, for a GET of a task id, and no empty-title rejection on the server.
- Client.App.HandleSaveTask: requires an open modal, because its only caller is the modal's save callback. Without that, the source would create into a null target column.
