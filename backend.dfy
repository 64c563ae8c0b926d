/** The task API of the server (backend/main.py). Each endpoint loads the stored
    board, changes its copy step by step and saves it back; the store is the
    `file` field. Clock readings and the random id suffix are inputs. */
module Backend {
  import opened Wrappers
  import opened Text
  import opened Kanban

  /** An `HTTPException`: status code and detail text. */
  datatype HttpError = HttpError(status: nat, detail: string)

  /** The request bodies, as the request models parse them (`null` and an
      absent optional field are both `None`, except that an absent create
      description is `""`). */
  datatype TaskMove = TaskMove(sourceColumn: string, destinationColumn: string, taskId: string)
  datatype TaskCreate = TaskCreate(title: string, description: Option<string>)
  datatype TaskUpdate = TaskUpdate(title: Option<string>, description: Option<string>)

  datatype MoveReply = MoveReply(message: string, task: Task, from: string, to: string)
  datatype DeleteReply = DeleteReply(message: string, deletedTask: Task)

  /** Python's rendering of the `valid_columns` list inside the f-strings. */
  const ValidColumnsText: string := "['to-do', 'in-progress', 'done']"
  const InvalidColumn: string := "Invalid column. Valid columns are: " + ValidColumnsText
  const MissingFields: string := "Missing required fields: source_column, destination_column, task_id"
  const TaskNotFound: string := "Task not found"
  const Moved: string := "Task moved successfully"
  const Deleted: string := "Task deleted successfully"

  function InvalidSource(s: string): string {
    "Invalid source column '" + s + "'. Valid columns are: " + ValidColumnsText
  }

  function InvalidDestination(s: string): string {
    "Invalid destination column '" + s + "'. Valid columns are: " + ValidColumnsText
  }

  function NotInSource(id: string, s: string): string {
    "Task '" + id + "' not found in source column '" + s + "'"
  }

  /** `s in valid_columns`, giving the column it names. */
  function ParseColumn(s: string): (r: Option<ColumnId>)
    ensures r.Some? ==> Name(r.value) == s
    ensures r.None? <==> forall c :: Name(c) != s
  {
    if s == "to-do" then Some(ToDo)
    else if s == "in-progress" then Some(InProgress)
    else if s == "done" then Some(Done)
    else None
  }

  /** The checks `move_task` makes before it touches any data, in their order:
      all three fields non-empty, then the source column, then the destination. */
  function ValidateMove(req: TaskMove): (r: Result<(ColumnId, ColumnId), HttpError>)
    ensures r.Ok? <==>
      && req.sourceColumn != "" && req.destinationColumn != "" && req.taskId != ""
      && ParseColumn(req.sourceColumn).Some? && ParseColumn(req.destinationColumn).Some?
    ensures r.Ok? ==> Name(r.value.0) == req.sourceColumn && Name(r.value.1) == req.destinationColumn
    ensures r.Err? ==> r.error.status == 400
    ensures r.Err? && (req.sourceColumn == "" || req.destinationColumn == "" || req.taskId == "") ==>
      r.error.detail == MissingFields
    ensures req.sourceColumn != "" && req.destinationColumn != "" && req.taskId != ""
            && ParseColumn(req.sourceColumn).None? ==>
      r == Err(HttpError(400, InvalidSource(req.sourceColumn)))
    ensures req.sourceColumn != "" && req.destinationColumn != "" && req.taskId != ""
            && ParseColumn(req.sourceColumn).Some? && ParseColumn(req.destinationColumn).None? ==>
      r == Err(HttpError(400, InvalidDestination(req.destinationColumn)))
  {
    if req.sourceColumn == "" || req.destinationColumn == "" || req.taskId == "" then
      Err(HttpError(400, MissingFields))
    else
      match (ParseColumn(req.sourceColumn), ParseColumn(req.destinationColumn))
      case (None, _) => Err(HttpError(400, InvalidSource(req.sourceColumn)))
      case (_, None) => Err(HttpError(400, InvalidDestination(req.destinationColumn)))
      case (Some(src), Some(dst)) => Ok((src, dst))
  }

  // ---------------------------------------------------------------------------
  // Task ids: "task-" + str(milliseconds) + "-" + six characters of [a-z0-9].

  /** `string.ascii_lowercase + string.digits`. */
  const IdAlphabet: string := "abcdefghijklmnopqrstuvwxyz0123456789"

  /** What `random.choices(IdAlphabet, k=6)` can produce. */
  predicate IsSuffix(s: string) {
    |s| == 6 && forall i :: 0 <= i < 6 ==> s[i] in IdAlphabet
  }

  /** `generate_task_id`, given the clock in whole milliseconds and the random suffix. */
  function TaskId(ms: nat, suffix: string): (id: string)
    ensures |id| == 6 + |Decimal(ms)| + |suffix|
    ensures id[..5] == "task-"
    ensures IsNumeral(id[5..5 + |Decimal(ms)|]) && id[5 + |Decimal(ms)|] == '-'
    ensures id[|id| - |suffix|..] == suffix
  {
    "task-" + Decimal(ms) + "-" + suffix
  }

  /** Reads an id of the generated form back into its milliseconds and suffix. */
  function ParseTaskId(id: string): (r: Option<(nat, string)>)
    ensures r.Some? ==> IsSuffix(r.value.1)
  {
    if |id| < 13 || id[..5] != "task-" || id[|id| - 7] != '-' then None
    else
      var digits, suffix := id[5..|id| - 7], id[|id| - 6..];
      if IsNumeral(digits) && IsSuffix(suffix) then Some((ParseDecimal(digits), suffix)) else None
  }

  /** Every generated id has the generated form and gives back what built it. */
  lemma TaskIdRoundTrip(ms: nat, suffix: string)
    requires IsSuffix(suffix)
    ensures ParseTaskId(TaskId(ms, suffix)) == Some((ms, suffix))
  {
    var id, d := TaskId(ms, suffix), Decimal(ms);
    assert id[..5] == "task-";
    assert id[5..|id| - 7] == d;
    assert id[|id| - 7] == '-';
    assert id[|id| - 6..] == suffix;
    ParseDecimalOfDecimal(ms);
  }

  /** Every string of the generated form is a generated id. */
  lemma ParsedTaskIdIsGenerated(id: string)
    requires ParseTaskId(id).Some?
    ensures TaskId(ParseTaskId(id).value.0, ParseTaskId(id).value.1) == id
  {
    var digits := id[5..|id| - 7];
    DecimalOfParseDecimal(digits);
    assert id == id[..5] + digits + [id[|id| - 7]] + id[|id| - 6..];
  }

  /** Distinct clock readings or suffixes give distinct ids. */
  lemma TaskIdInjective(ms1: nat, s1: string, ms2: nat, s2: string)
    requires IsSuffix(s1) && IsSuffix(s2)
    requires TaskId(ms1, s1) == TaskId(ms2, s2)
    ensures ms1 == ms2 && s1 == s2
  {
    TaskIdRoundTrip(ms1, s1);
    TaskIdRoundTrip(ms2, s2);
  }

  /** No generated id names a column, so `GET /tasks/{id}` with a task id hits the
      column route and is rejected with 400. */
  lemma TaskIdIsNoColumn(ms: nat, suffix: string)
    ensures ParseColumn(TaskId(ms, suffix)).None?
  {
    var id := TaskId(ms, suffix);
    assert id[0] == 't' && id[1] == 'a';
    forall c ensures Name(c) != id {
      assert Name(c)[0] != 't' || Name(c)[1] != 'a';
    }
  }

  // ---------------------------------------------------------------------------
  // The stored board.

  /** The content of tasks.json: a board, or text that is not valid JSON. */
  datatype FileState = Unreadable | Stored(board: Board)

  /** `load_data`: the stored board, or three empty columns when the file cannot
      be decoded. */
  function Loaded(f: FileState): (b: Board)
    ensures f.Unreadable? ==> b == EmptyBoard
    ensures f.Stored? ==> b == f.board
  {
    match f
    case Unreadable => EmptyBoard
    case Stored(b) => b
  }

  /** Every entry is filed under its own id. */
  ghost predicate KeysMatch(b: Board) {
    forall c, k :: k in Col(b, c) ==> Col(b, c)[k].id == k
  }

  ghost predicate WellFormed(b: Board) {
    Complete(b) && Unique(b) && KeysMatch(b)
  }

  /** What the endpoints keep true of the store. */
  ghost predicate Consistent(f: FileState) {
    f.Stored? ==> WellFormed(f.board)
  }

  lemma LoadedWellFormed(f: FileState)
    requires Consistent(f)
    ensures WellFormed(Loaded(f))
  {
  }

  /** The board after `move_task`'s loop that adds every missing column as `{}`. */
  function WithColumns(d: Board): (r: Board)
    ensures Complete(r)
    ensures forall c :: Col(r, c) == Col(d, c)
  {
    var r := map[ToDo := Col(d, ToDo), InProgress := Col(d, InProgress), Done := Col(d, Done)];
    assert forall c :: Col(r, c) == Col(d, c) by {
      forall c ensures Col(r, c) == Col(d, c) { assert c == Order[Rank(c)]; }
    }
    r
  }

  /** Adding empty columns keeps ids unique and entries under their own ids. */
  lemma WithColumnsKeeps(d: Board)
    ensures Unique(d) ==> Unique(WithColumns(d))
    ensures KeysMatch(d) ==> KeysMatch(WithColumns(d))
  {
  }

  /** `update_task`'s field-wise patch: only the fields sent (not `None`) are
      overwritten, and `updated_at` is refreshed. */
  function Updated(t: Task, patch: TaskUpdate, now: Timestamp): (r: Task)
    ensures r.id == t.id && r.createdAt == t.createdAt && r.updatedAt == now
    ensures r.title == patch.title.GetOr(t.title)
    ensures r.description == (if patch.description.Some? then patch.description else t.description)
  {
    var t1 := if patch.title.Some? then t.(title := patch.title.value) else t;
    var t2 := if patch.description.Some? then t1.(description := patch.description) else t1;
    t2.(updatedAt := now)
  }

  /** An empty patch only refreshes the timestamp, and applying a patch twice is
      the same as applying it once. */
  lemma UpdatedPartial(t: Task, patch: TaskUpdate, n1: Timestamp, n2: Timestamp)
    ensures Updated(t, TaskUpdate(None, None), n1) == t.(updatedAt := n1)
    ensures Updated(Updated(t, patch, n1), patch, n2) == Updated(t, patch, n2)
  {
  }

  lemma PutKeepsWellFormed(b: Board, c: ColumnId, t: Task)
    requires WellFormed(b)
    requires InBoard(b, t.id) ==> t.id in Col(b, c)
    ensures WellFormed(Put(b, c, t.id, t))
  {
    PutKeepsUnique(b, c, t.id, t);
  }

  class TaskService {
    var file: FileState

    constructor (initial: FileState)
      ensures file == initial
    {
      file := initial;
    }

    /** `POST /tasks/move`: validate, load, add missing columns, then pop the
        task from the source column and store it, with a fresh `updated_at`,
        under the same id in the destination. */
    method MoveTask(req: TaskMove, now: Timestamp) returns (r: Result<MoveReply, HttpError>)
      modifies this
      ensures ValidateMove(req).Err? ==> r == Err(ValidateMove(req).error) && file == old(file)
      ensures ValidateMove(req).Ok? ==>
        var src, dst := ValidateMove(req).value.0, ValidateMove(req).value.1;
        var data := WithColumns(Loaded(old(file)));
        if req.taskId !in data[src] then
          r == Err(HttpError(404, NotInSource(req.taskId, req.sourceColumn))) && file == old(file)
        else
          var task := data[src][req.taskId].(updatedAt := now);
          && r == Ok(MoveReply(Moved, task, req.sourceColumn, req.destinationColumn))
          && file == Stored(MoveEntry(data, src, dst, req.taskId, task))
      ensures Consistent(old(file)) ==> Consistent(file)
    {
      var valid := ValidateMove(req);
      if valid.Err? {
        return Err(valid.error);
      }
      var src, dst := valid.value.0, valid.value.1;
      var data := Loaded(file);
      ghost var loaded := data;

      var i := 0;
      while i < |Order|
        invariant 0 <= i <= |Order|
        invariant forall c :: c in data <==> c in loaded || c in Order[..i]
        invariant forall c :: Col(data, c) == Col(loaded, c)
      {
        var col := Order[i];
        if col !in data {
          data := data[col := map[]];
        }
        i := i + 1;
      }
      assert data == WithColumns(loaded) by {
        var w := WithColumns(loaded);
        assert Order[..i] == Order;
        forall c ensures c in data && c in w && data[c] == w[c] {
          assert Order[Rank(c)] == c;
          assert Col(data, c) == Col(loaded, c) == Col(w, c);
        }
        assert data.Keys == w.Keys;
      }

      if req.taskId !in data[src] {
        return Err(HttpError(404, NotInSource(req.taskId, req.sourceColumn)));
      }
      var task := data[src][req.taskId];
      data := data[src := data[src] - {req.taskId}];
      task := task.(updatedAt := now);
      data := data[dst := data[dst][req.taskId := task]];
      if Consistent(file) {
        WithColumnsKeeps(loaded);
        MoveEntryKeepsUnique(WithColumns(loaded), src, dst, req.taskId, task);
      }
      file := Stored(data);
      return Ok(MoveReply(Moved, task, req.sourceColumn, req.destinationColumn));
    }

    /** `GET /tasks/{column_id}`. */
    method GetTasks(columnId: string) returns (r: Result<Column, HttpError>)
      ensures ParseColumn(columnId).None? ==> r == Err(HttpError(400, InvalidColumn))
      ensures ParseColumn(columnId).Some? ==> r == Ok(Col(Loaded(file), ParseColumn(columnId).value))
    {
      var c := ParseColumn(columnId);
      if c.None? {
        return Err(HttpError(400, InvalidColumn));
      }
      var data := Loaded(file);
      return Ok(if c.value in data then data[c.value] else map[]);
    }

    /** `GET /tasks`. */
    method GetAllTasks() returns (data: Board)
      ensures data == Loaded(file)
      ensures Consistent(file) ==> WellFormed(data)
    {
      data := Loaded(file);
    }

    /** `POST /tasks/{column_id}`: no check on the title; the new record goes under
        a generated id in the named column only. */
    method CreateTask(columnId: string, task: TaskCreate, ms: nat, suffix: string,
                      createdAt: Timestamp, updatedAt: Timestamp)
      returns (r: Result<Task, HttpError>)
      requires IsSuffix(suffix)
      modifies this
      ensures ParseColumn(columnId).None? ==> r == Err(HttpError(400, InvalidColumn)) && file == old(file)
      ensures ParseColumn(columnId).Some? ==>
        var t := Task(TaskId(ms, suffix), task.title, task.description, createdAt, updatedAt);
        && r == Ok(t)
        && file == Stored(Put(Loaded(old(file)), ParseColumn(columnId).value, t.id, t))
      ensures r.Ok? ==> ParseTaskId(r.value.id) == Some((ms, suffix))
      ensures Consistent(old(file)) && !InBoard(Loaded(old(file)), TaskId(ms, suffix)) ==> Consistent(file)
    {
      var c := ParseColumn(columnId);
      if c.None? {
        return Err(HttpError(400, InvalidColumn));
      }
      var data := Loaded(file);
      var taskId := TaskId(ms, suffix);
      TaskIdRoundTrip(ms, suffix);
      var newTask := Task(taskId, task.title, task.description, createdAt, updatedAt);
      if c.value !in data {
        data := data[c.value := map[]];
      }
      data := data[c.value := data[c.value][taskId := newTask]];
      assert data == Put(Loaded(file), c.value, taskId, newTask);
      if Consistent(file) && !InBoard(Loaded(file), taskId) {
        PutKeepsWellFormed(Loaded(file), c.value, newTask);
      }
      file := Stored(data);
      return Ok(newTask);
    }

    /** `PUT /tasks/{task_id}`: find the first column holding the id, patch that
        record in place and refresh `updated_at`. */
    method UpdateTask(taskId: string, taskUpdate: TaskUpdate, now: Timestamp)
      returns (r: Result<Task, HttpError>)
      modifies this
      ensures !InBoard(Loaded(old(file)), taskId) ==>
        r == Err(HttpError(404, TaskNotFound)) && file == old(file)
      ensures InBoard(Loaded(old(file)), taskId) ==>
        var data := Loaded(old(file));
        var t := Updated(Col(data, ColumnOf(data, taskId).value)[taskId], taskUpdate, now);
        r == Ok(t) && file == Stored(Replace(data, taskId, t))
      ensures Consistent(old(file)) ==> Consistent(file)
    {
      var data := Loaded(file);
      var taskFound := false;
      var targetColumn: Option<ColumnId> := None;
      var i := 0;
      while i < |Order|
        invariant 0 <= i <= |Order|
        invariant !taskFound && targetColumn.None?
        invariant forall j :: 0 <= j < i ==> taskId !in Col(data, Order[j])
      {
        var columnId := Order[i];
        if columnId in data && taskId in data[columnId] {
          taskFound := true;
          targetColumn := Some(columnId);
          break;
        }
        i := i + 1;
      }
      if !taskFound {
        assert Order[0] == ToDo && Order[1] == InProgress && Order[2] == Done;
        return Err(HttpError(404, TaskNotFound));
      }
      assert FirstIndex(data, taskId, Order) == i;
      var target := targetColumn.value;
      var currentTask := data[target][taskId];
      if taskUpdate.title.Some? {
        currentTask := currentTask.(title := taskUpdate.title.value);
      }
      if taskUpdate.description.Some? {
        currentTask := currentTask.(description := taskUpdate.description);
      }
      currentTask := currentTask.(updatedAt := now);
      data := data[target := data[target][taskId := currentTask]];
      if Consistent(file) {
        ReplaceKeepsUnique(Loaded(file), taskId, currentTask);
        ReplaceKeepsMembership(Loaded(file), taskId, currentTask);
      }
      file := Stored(data);
      return Ok(currentTask);
    }

    /** `DELETE /tasks/{task_id}`: pop the id from the first column holding it
        and return the deleted record. */
    method DeleteTask(taskId: string) returns (r: Result<DeleteReply, HttpError>)
      modifies this
      ensures !InBoard(Loaded(old(file)), taskId) ==>
        r == Err(HttpError(404, TaskNotFound)) && file == old(file)
      ensures InBoard(Loaded(old(file)), taskId) ==>
        var data := Loaded(old(file));
        && r == Ok(DeleteReply(Deleted, Col(data, ColumnOf(data, taskId).value)[taskId]))
        && file == Stored(RemoveFirst(data, taskId))
      ensures Consistent(old(file)) ==> Consistent(file)
      ensures Consistent(old(file)) && r.Ok? ==> !InBoard(Loaded(file), taskId)
    {
      var data := Loaded(file);
      var i := 0;
      while i < |Order|
        invariant 0 <= i <= |Order|
        invariant forall j :: 0 <= j < i ==> taskId !in Col(data, Order[j])
      {
        var columnId := Order[i];
        if columnId in data && taskId in data[columnId] {
          assert FirstIndex(data, taskId, Order) == i;
          var deletedTask := data[columnId][taskId];
          data := data[columnId := data[columnId] - {taskId}];
          if Consistent(file) {
            RemoveFirstErases(Loaded(file), taskId);
          }
          file := Stored(data);
          return Ok(DeleteReply(Deleted, deletedTask));
        }
        i := i + 1;
      }
      assert Order[0] == ToDo && Order[1] == InProgress && Order[2] == Done;
      return Err(HttpError(404, TaskNotFound));
    }
  }
}
