/** The board component of the web client (frontend/src/App.jsx): the board-state
    updaters, which are pure copy-and-replace expressions, and the component state
    that the event handlers change step by step. Every remote call is an input: the
    reply the server gave, or a failure. */
module Client {
  import opened Wrappers
  import opened Kanban

  const LoadFailed: string := "Failed to load tasks"
  const MoveFailed: string := "Failed to move task. Please try again."
  const UpdateFailed: string := "Failed to update task"
  const CreateFailed: string := "Failed to create task"
  const DeleteFailed: string := "Failed to delete task"

  /** One end of a drag: the column (`droppableId`) and the position in it. */
  datatype DragLocation = DragLocation(droppableId: ColumnId, index: nat)

  /** What the drag-and-drop library reports when a drag ends; no destination
      means the card was dropped outside every column. */
  datatype DropResult = DropResult(draggableId: string, source: DragLocation,
                                   destination: Option<DragLocation>)

  /** The two early returns of `onDragEnd`: the card lands nowhere, or back
      where it started. */
  predicate Ignored(drop: DropResult) {
    || drop.destination.None?
    || (drop.source.droppableId == drop.destination.value.droppableId
        && drop.source.index == drop.destination.value.index)
  }

  /** The board a reload leaves: the fetched board, or three empty columns when
      the fetch failed. */
  function Reloaded(reply: Reply<Board>): (b: Board)
    ensures reply.Failure? ==> Complete(b) && Unique(b) && forall id :: !InBoard(b, id)
    ensures reply.Success? ==> b == reply.data
  {
    if reply.Success? then reply.data else EmptyBoard
  }

  /** The optimistic updater of `onDragEnd`: look the dragged id up in every
      column in order, and if some column holds it, delete it from the source
      column and store the record found under the same id in the destination. */
  function Relocated(prev: Board, id: string, src: ColumnId, dst: ColumnId): (next: Board)
    ensures !InBoard(prev, id) ==> next == prev
    ensures InBoard(prev, id) ==>
      && next.Keys == prev.Keys + {src, dst}
      && id in Col(next, dst)
      && Col(next, dst)[id] == Col(prev, ColumnOf(prev, id).value)[id]
      && (src != dst ==> id !in Col(next, src))
      && (forall c :: c != src && c != dst ==> Col(next, c) == Col(prev, c))
      && (forall c, k :: k != id ==> (k in Col(next, c) <==> k in Col(prev, c)))
      && (forall c, k :: k != id && k in Col(prev, c) ==> Col(next, c)[k] == Col(prev, c)[k])
  {
    match ColumnOf(prev, id)
    case None => prev
    case Some(c) => MoveEntry(prev, src, dst, id, Col(prev, c)[id])
  }

  /** The updater as written, with the early-exit search loop for the moved task. */
  method DragUpdater(prevTasks: Board, draggableId: string, src: ColumnId, dst: ColumnId)
    returns (newTasks: Board)
    ensures newTasks == Relocated(prevTasks, draggableId, src, dst)
  {
    newTasks := prevTasks;
    var movedTask: Option<Task> := None;
    var i := 0;
    while i < |Order|
      invariant 0 <= i <= |Order|
      invariant movedTask.None?
      invariant forall j :: 0 <= j < i ==> draggableId !in Col(newTasks, Order[j])
    {
      var columnTasks := Col(newTasks, Order[i]);
      if draggableId in columnTasks {
        movedTask := Some(columnTasks[draggableId]);
        break;
      }
      i := i + 1;
    }
    if movedTask.None? {
      assert !InBoard(prevTasks, draggableId) by {
        assert Order[0] == ToDo && Order[1] == InProgress && Order[2] == Done;
      }
      return prevTasks;
    }
    assert FirstIndex(prevTasks, draggableId, Order) == i;
    var sourceColumn := Col(newTasks, src) - {draggableId};
    newTasks := newTasks[src := sourceColumn];
    var destColumn := Col(newTasks, dst)[draggableId := movedTask.value];
    newTasks := newTasks[dst := destColumn];
  }

  /** A drag whose task sits in its source column keeps ids unique and leaves
      the task in the destination column only. */
  lemma RelocatedKeepsUnique(prev: Board, id: string, src: ColumnId, dst: ColumnId)
    requires Unique(prev)
    requires InBoard(prev, id) ==> id in Col(prev, src)
    ensures Unique(Relocated(prev, id, src, dst))
    ensures InBoard(prev, id) ==> ColumnOf(Relocated(prev, id, src, dst), id) == Some(dst)
  {
    if InBoard(prev, id) {
      ColumnOfUnique(prev, id, src);
      MoveEntryKeepsUnique(prev, src, dst, id, Col(prev, src)[id]);
    }
  }

  /** Dropping a task into the column it is already in changes nothing. */
  lemma SameColumnDropKeepsBoard(prev: Board, id: string, c: ColumnId)
    requires Unique(prev) && id in Col(prev, c)
    ensures Relocated(prev, id, c, c) == prev
  {
    ColumnOfUnique(prev, id, c);
    MoveEntryWithinColumn(prev, c, id);
  }

  /** The updater searches every column, not only the source: a drop whose source
      column does not hold the task copies it into the destination and leaves the
      original in place, so the id is then in two columns. */
  lemma StaleDropDuplicates(t: Task)
    ensures var prev := map[ToDo := map[], InProgress := map[], Done := map[t.id := t]];
      && Unique(prev)
      && !Unique(Relocated(prev, t.id, ToDo, InProgress))
  {
    var prev := map[ToDo := map[], InProgress := map[], Done := map[t.id := t]];
    var next := Relocated(prev, t.id, ToDo, InProgress);
    assert ColumnOf(prev, t.id) == Some(Done) by { ColumnOfUnique(prev, t.id, Done); }
    assert t.id in Col(next, InProgress) && t.id in Col(next, Done);
  }

  /** A confirmed create stores the returned record in the target column, where
      the column lookup then finds it; nothing else changes. */
  lemma CreateConfirmed(prev: Board, target: ColumnId, newTask: Task)
    requires Unique(prev) && !InBoard(prev, newTask.id)
    ensures var next := Put(prev, target, newTask.id, newTask);
      && Unique(next)
      && ColumnOf(next, newTask.id) == Some(target)
      && Col(next, target)[newTask.id] == newTask
      && (forall c :: c != target ==> Col(next, c) == Col(prev, c))
  {
    var next := Put(prev, target, newTask.id, newTask);
    PutKeepsUnique(prev, target, newTask.id, newTask);
    ColumnOfUnique(next, newTask.id, target);
  }

  /** The component state of `App`. */
  class App {
    var tasks: Board
    var loading: bool
    var error: Option<string>
    var isModalOpen: bool
    var editingTask: Option<Task>
    var targetColumn: Option<ColumnId>
    var actionLoading: bool

    /** Between events no action is in flight, and an open modal is either
        editing a task or creating one in a known column. */
    ghost predicate Valid()
      reads this
    {
      && !actionLoading
      && (isModalOpen ==> editingTask.Some? != targetColumn.Some?)
      && (!isModalOpen ==> editingTask.None? && targetColumn.None?)
    }

    /** The initial `useState` values. */
    constructor ()
      ensures Valid()
      ensures tasks == EmptyBoard && loading && error.None? && !isModalOpen
    {
      tasks := EmptyBoard;
      loading := true;
      error := None;
      isModalOpen := false;
      editingTask := None;
      targetColumn := None;
      actionLoading := false;
    }

    /** The part of `loadTasks` that runs before the fetch is awaited. */
    method BeginLoad()
      modifies this`loading, this`error
      ensures loading && error.None?
    {
      loading := true;
      error := None;
    }

    /** The part of `loadTasks` that runs once the fetch has settled. */
    method FinishLoad(response: Reply<Board>)
      modifies this`tasks, this`error, this`loading
      ensures tasks == Reloaded(response) && !loading
      ensures error == (if response.Success? then old(error) else Some(LoadFailed))
    {
      if response.Success? {
        tasks := response.data;
      } else {
        error := Some(LoadFailed);
        tasks := EmptyBoard;
      }
      loading := false;
    }

    method LoadTasks(response: Reply<Board>)
      modifies this`tasks, this`error, this`loading
      ensures tasks == Reloaded(response) && !loading
      ensures error == (if response.Success? then None else Some(LoadFailed))
    {
      BeginLoad();
      FinishLoad(response);
    }

    /** `onDragEnd`: the optimistic relocation, then the remote move; a failed move
        starts a reload (not awaited), reports the move failure, and the reload's
        outcome lands last. */
    method OnDragEnd(drop: DropResult, move: Reply<()>, reload: Reply<Board>)
      modifies this`tasks, this`error, this`loading
      ensures Ignored(drop) ==>
        tasks == old(tasks) && error == old(error) && loading == old(loading)
      ensures !Ignored(drop) && move.Success? ==>
        && tasks == Relocated(old(tasks), drop.draggableId, drop.source.droppableId,
                              drop.destination.value.droppableId)
        && error == old(error) && loading == old(loading)
      ensures !Ignored(drop) && move.Failure? ==>
        && tasks == Reloaded(reload) && !loading
        && error == Some(if reload.Success? then MoveFailed else LoadFailed)
      ensures !Ignored(drop) && move.Success? && old(Unique(tasks))
              && (InBoard(old(tasks), drop.draggableId) ==>
                  drop.draggableId in Col(old(tasks), drop.source.droppableId)) ==>
        Unique(tasks)
      ensures !Ignored(drop) && move.Success? && old(Complete(tasks)) ==> Complete(tasks)
    {
      if drop.destination.None? {
        return;
      }
      var source, destination, draggableId := drop.source, drop.destination.value, drop.draggableId;
      if source.droppableId == destination.droppableId && source.index == destination.index {
        return;
      }
      ghost var before := tasks;
      tasks := DragUpdater(tasks, draggableId, source.droppableId, destination.droppableId);
      if move.Failure? {
        BeginLoad();
        error := Some(MoveFailed);
        FinishLoad(reload);
      } else if Unique(before) && (InBoard(before, draggableId) ==> draggableId in Col(before, source.droppableId)) {
        RelocatedKeepsUnique(before, draggableId, source.droppableId, destination.droppableId);
      }
    }

    /** `findTaskColumn`: scan the columns in order and return the first that
        holds the id. */
    method FindTaskColumn(taskId: string) returns (columnId: Option<ColumnId>)
      ensures columnId == ColumnOf(tasks, taskId)
      ensures columnId.None? <==> !InBoard(tasks, taskId)
    {
      var i := 0;
      while i < |Order|
        invariant 0 <= i <= |Order|
        invariant forall j :: 0 <= j < i ==> taskId !in Col(tasks, Order[j])
      {
        if taskId in Col(tasks, Order[i]) {
          assert FirstIndex(tasks, taskId, Order) == i;
          return Some(Order[i]);
        }
        i := i + 1;
      }
      return None;
    }

    /** `handleSaveTask`: the remote update or create comes first; only a
        confirmed record reaches the board. */
    method HandleSaveTask(response: Reply<Task>)
      requires Valid() && isModalOpen
      modifies this`tasks, this`error, this`isModalOpen, this`editingTask,
               this`targetColumn, this`actionLoading
      ensures Valid()
      ensures response.Success? && old(editingTask).Some? ==>
        tasks == Replace(old(tasks), old(editingTask).value.id, response.data)
      ensures response.Success? && old(editingTask).None? ==>
        tasks == Put(old(tasks), old(targetColumn).value, response.data.id, response.data)
      ensures response.Success? ==> !isModalOpen && error == old(error)
      ensures response.Failure? ==>
        && tasks == old(tasks)
        && error == Some(if old(editingTask).Some? then UpdateFailed else CreateFailed)
        && isModalOpen && editingTask == old(editingTask) && targetColumn == old(targetColumn)
      ensures old(Unique(tasks))
              && (response.Success? && old(editingTask).None? ==> !InBoard(old(tasks), response.data.id)) ==>
        Unique(tasks)
      ensures old(Complete(tasks)) ==> Complete(tasks)
    {
      ghost var before := tasks;
      actionLoading := true;
      if editingTask.Some? {
        if response.Success? {
          var columnId := FindTaskColumn(editingTask.value.id);
          if columnId.Some? {
            tasks := tasks[columnId.value := Col(tasks, columnId.value)[editingTask.value.id := response.data]];
          }
          if Unique(before) { ReplaceKeepsUnique(before, editingTask.value.id, response.data); }
        }
      } else {
        if response.Success? {
          var newTask := response.data;
          tasks := tasks[targetColumn.value := Col(tasks, targetColumn.value)[newTask.id := newTask]];
          if Unique(before) && !InBoard(before, newTask.id) {
            PutKeepsUnique(before, targetColumn.value, newTask.id, newTask);
          }
        }
      }
      if response.Success? {
        isModalOpen := false;
        editingTask := None;
        targetColumn := None;
      } else {
        error := Some(if editingTask.Some? then UpdateFailed else CreateFailed);
      }
      actionLoading := false;
    }

    /** `handleDeleteTask`: the remote delete comes first; a confirmed delete
        removes the id from the column the lookup finds. */
    method HandleDeleteTask(taskId: string, response: Reply<()>)
      requires Valid()
      modifies this`tasks, this`error, this`actionLoading
      ensures Valid()
      ensures response.Success? ==> tasks == RemoveFirst(old(tasks), taskId) && error == old(error)
      ensures response.Failure? ==> tasks == old(tasks) && error == Some(DeleteFailed)
      ensures response.Success? && old(Unique(tasks)) ==> Unique(tasks) && !InBoard(tasks, taskId)
      ensures old(Complete(tasks)) ==> Complete(tasks)
    {
      ghost var before := tasks;
      actionLoading := true;
      if response.Success? {
        var columnId := FindTaskColumn(taskId);
        if columnId.Some? {
          var columnCopy := Col(tasks, columnId.value) - {taskId};
          tasks := tasks[columnId.value := columnCopy];
        }
        if Unique(before) { RemoveFirstErases(before, taskId); }
      } else {
        error := Some(DeleteFailed);
      }
      actionLoading := false;
    }

    method OpenNewTaskModal(columnId: ColumnId)
      requires Valid()
      modifies this`targetColumn, this`editingTask, this`isModalOpen
      ensures Valid()
      ensures isModalOpen && targetColumn == Some(columnId) && editingTask.None?
    {
      targetColumn := Some(columnId);
      editingTask := None;
      isModalOpen := true;
    }

    method OpenEditTaskModal(task: Task)
      requires Valid()
      modifies this`targetColumn, this`editingTask, this`isModalOpen
      ensures Valid()
      ensures isModalOpen && editingTask == Some(task) && targetColumn.None?
    {
      editingTask := Some(task);
      targetColumn := None;
      isModalOpen := true;
    }

    /** The modal's `onClose`. */
    method CloseModal()
      requires Valid()
      modifies this`targetColumn, this`editingTask, this`isModalOpen
      ensures Valid()
      ensures !isModalOpen && editingTask.None? && targetColumn.None?
    {
      isModalOpen := false;
      editingTask := None;
      targetColumn := None;
    }

    /** The × button of the error banner. */
    method DismissError()
      modifies this`error
      ensures error.None?
    {
      error := None;
    }
  }
}
