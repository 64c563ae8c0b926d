/** The board shape shared by the client (App.jsx) and the server (main.py), and the
    map operations both copies are built from. */
module Kanban {
  import opened Wrappers

  /** The three fixed columns. */
  datatype ColumnId = ToDo | InProgress | Done

  /** The model's fixed scan order over the columns, the order of `valid_columns`
      and of the empty-board literals. The real scans follow the stored board's
      key order, which can differ (a stored file may list the columns otherwise,
      and a missing column is added at the end). */
  const Order: seq<ColumnId> := [ToDo, InProgress, Done]

  /** The wire name of a column. */
  function Name(c: ColumnId): string {
    match c
    case ToDo => "to-do"
    case InProgress => "in-progress"
    case Done => "done"
  }

  /** Position of a column in `Order`. */
  function Rank(c: ColumnId): (k: nat)
    ensures k < |Order| && Order[k] == c
  {
    match c
    case ToDo => 0
    case InProgress => 1
    case Done => 2
  }

  /** A wall-clock reading (Python's `time.time()`), supplied from outside. */
  type Timestamp = real

  /** The task record `{id, title, description, created_at, updated_at}`. The
      description may be JSON `null`, which the request model of the server accepts. */
  datatype Task = Task(id: string, title: string, description: Option<string>,
                       createdAt: Timestamp, updatedAt: Timestamp)

  type Column = map<string, Task>

  /** Column id to the tasks of that column, keyed by task id. */
  type Board = map<ColumnId, Column>

  /** The tasks of a column; a missing column reads as empty, as both
      `{ ...tasks[c] }` and `data.get(c, {})` do. */
  function Col(b: Board, c: ColumnId): Column {
    if c in b then b[c] else map[]
  }

  /** The board with three empty columns. */
  const EmptyBoard: Board := map[ToDo := map[], InProgress := map[], Done := map[]]

  /** All three columns are present as keys. */
  predicate Complete(b: Board) {
    ToDo in b && InProgress in b && Done in b
  }

  /** Some column holds `id`. */
  predicate InBoard(b: Board, id: string) {
    id in Col(b, ToDo) || id in Col(b, InProgress) || id in Col(b, Done)
  }

  /** No task id appears in two columns. */
  ghost predicate Unique(b: Board) {
    forall c: ColumnId, d: ColumnId, id: string :: c != d && id in Col(b, c) ==> id !in Col(b, d)
  }

  lemma EmptyBoardWellFormed()
    ensures Complete(EmptyBoard) && Unique(EmptyBoard)
    ensures forall id :: !InBoard(EmptyBoard, id)
  {
  }

  /** The index, in `cols`, of the first column holding `id`; `|cols|` when none does. */
  function FirstIndex(b: Board, id: string, cols: seq<ColumnId>): (k: nat)
    ensures k <= |cols|
    ensures forall j :: 0 <= j < k ==> id !in Col(b, cols[j])
    ensures k < |cols| ==> id in Col(b, cols[k])
    decreases |cols|
  {
    if cols == [] then 0
    else if id in Col(b, cols[0]) then 0
    else 1 + FirstIndex(b, id, cols[1..])
  }

  /** The first column, in `Order`, that holds `id`, or none. */
  function ColumnOf(b: Board, id: string): (r: Option<ColumnId>)
    ensures r.Some? ==> id in Col(b, r.value)
    ensures r.Some? ==> forall j :: 0 <= j < Rank(r.value) ==> id !in Col(b, Order[j])
    ensures r.None? <==> !InBoard(b, id)
  {
    var k := FirstIndex(b, id, Order);
    if k < |Order| then Some(Order[k]) else None
  }

  /** On a board without duplicates the first holder is the only holder. */
  lemma ColumnOfUnique(b: Board, id: string, c: ColumnId)
    requires Unique(b)
    ensures ColumnOf(b, id) == Some(c) <==> id in Col(b, c)
  {
    if id in Col(b, c) {
      var r := ColumnOf(b, id);
      assert r.Some?;
      assert id in Col(b, r.value);
    }
  }

  /** `b[c][key] = t`, creating column `c` if it is missing. */
  function Put(b: Board, c: ColumnId, key: string, t: Task): (r: Board)
    ensures r.Keys == b.Keys + {c}
    ensures key in Col(r, c) && Col(r, c)[key] == t
    ensures forall d :: d != c ==> Col(r, d) == Col(b, d)
    ensures forall k :: k != key ==> (k in Col(r, c) <==> k in Col(b, c))
    ensures forall k :: k != key && k in Col(b, c) ==> Col(r, c)[k] == Col(b, c)[k]
  {
    b[c := Col(b, c)[key := t]]
  }

  /** Writing an id into the column that already holds it, or into any column
      when no column holds it, keeps ids unique. */
  lemma PutKeepsUnique(b: Board, c: ColumnId, key: string, t: Task)
    requires Unique(b)
    requires InBoard(b, key) ==> key in Col(b, c)
    ensures Unique(Put(b, c, key, t))
  {
    var r := Put(b, c, key, t);
    forall d1: ColumnId, d2: ColumnId, id: string | d1 != d2 && id in Col(r, d1)
      ensures id !in Col(r, d2)
    {
      if id == key {
        assert d1 == c || d2 == c;
      }
    }
  }

  /** Deleting `key` from the first column that holds it (`for ... if key in col:
      pop` and `findTaskColumn` followed by `delete`); no change when none does. */
  function RemoveFirst(b: Board, key: string): (r: Board)
    ensures !InBoard(b, key) ==> r == b
    ensures InBoard(b, key) ==> var c := ColumnOf(b, key).value;
      && r.Keys == b.Keys
      && key !in Col(r, c)
      && (forall d :: d != c ==> Col(r, d) == Col(b, d))
      && (forall k :: k != key ==> (k in Col(r, c) <==> k in Col(b, c)))
      && (forall k :: k != key && k in Col(b, c) ==> Col(r, c)[k] == Col(b, c)[k])
  {
    match ColumnOf(b, key)
    case None => b
    case Some(c) => b[c := Col(b, c) - {key}]
  }

  /** On a board without duplicates, deleting removes the id from every column
      and touches no other id. */
  lemma RemoveFirstErases(b: Board, key: string)
    requires Unique(b)
    ensures !InBoard(RemoveFirst(b, key), key)
    ensures Unique(RemoveFirst(b, key))
    ensures forall c, k :: k != key ==> (k in Col(RemoveFirst(b, key), c) <==> k in Col(b, c))
  {
    var r := RemoveFirst(b, key);
    if InBoard(b, key) {
      var c := ColumnOf(b, key).value;
      forall d | d != c ensures key !in Col(r, d) {
        assert key in Col(b, c);
      }
      assert key !in Col(r, c);
    }
  }

  /** Overwrite the entry of `key` in the first column that holds it; no change
      when no column holds it. */
  function Replace(b: Board, key: string, t: Task): (r: Board)
    ensures !InBoard(b, key) ==> r == b
    ensures InBoard(b, key) ==> r == Put(b, ColumnOf(b, key).value, key, t)
  {
    match ColumnOf(b, key)
    case None => b
    case Some(c) => Put(b, c, key, t)
  }

  /** Replacing an entry never changes which column an id is in. */
  lemma ReplaceKeepsMembership(b: Board, key: string, t: Task)
    ensures forall c, k :: k in Col(Replace(b, key, t), c) <==> k in Col(b, c)
    ensures forall k :: ColumnOf(Replace(b, key, t), k) == ColumnOf(b, k)
  {
    var r := Replace(b, key, t);
    assert forall d, k :: k in Col(r, d) <==> k in Col(b, d);
    forall k ensures ColumnOf(r, k) == ColumnOf(b, k) {
      assert FirstIndex(r, k, Order) == FirstIndex(b, k, Order) by {
        SameMembershipSameIndex(r, b, k, Order);
      }
    }
  }

  /** Replacing an entry keeps ids unique. */
  lemma ReplaceKeepsUnique(b: Board, key: string, t: Task)
    requires Unique(b)
    ensures Unique(Replace(b, key, t))
  {
    if InBoard(b, key) {
      PutKeepsUnique(b, ColumnOf(b, key).value, key, t);
    }
  }

  /** Two boards whose columns hold the same ids give the same scan result. */
  lemma {:induction false} SameMembershipSameIndex(a: Board, b: Board, k: string, cols: seq<ColumnId>)
    requires forall c :: k in Col(a, c) <==> k in Col(b, c)
    ensures FirstIndex(a, k, cols) == FirstIndex(b, k, cols)
    decreases |cols|
  {
    if cols != [] && k !in Col(a, cols[0]) {
      SameMembershipSameIndex(a, b, k, cols[1..]);
    }
  }

  /** Remove `id` from column `src`, then store `t` under `id` in column `dst` (the
      destination is read after the removal, so `src == dst` keeps one entry). */
  function MoveEntry(b: Board, src: ColumnId, dst: ColumnId, id: string, t: Task): (r: Board)
    ensures r.Keys == b.Keys + {src, dst}
    ensures id in Col(r, dst) && Col(r, dst)[id] == t
    ensures src != dst ==> id !in Col(r, src)
    ensures forall c :: c != src && c != dst ==> Col(r, c) == Col(b, c)
    ensures forall c, k :: k != id ==> (k in Col(r, c) <==> k in Col(b, c))
    ensures forall c, k :: k != id && k in Col(b, c) ==> Col(r, c)[k] == Col(b, c)[k]
  {
    var removed := b[src := Col(b, src) - {id}];
    removed[dst := Col(removed, dst)[id := t]]
  }

  /** Moving a task out of the column that holds it keeps ids unique. */
  lemma MoveEntryKeepsUnique(b: Board, src: ColumnId, dst: ColumnId, id: string, t: Task)
    requires Unique(b)
    requires InBoard(b, id) ==> id in Col(b, src)
    ensures Unique(MoveEntry(b, src, dst, id, t))
    ensures ColumnOf(MoveEntry(b, src, dst, id, t), id) == Some(dst)
  {
    var r := MoveEntry(b, src, dst, id, t);
    forall c: ColumnId, d: ColumnId, k: string | c != d && k in Col(r, c)
      ensures k !in Col(r, d)
    {
      if k == id {
        assert c == dst;
      }
    }
    ColumnOfUnique(r, id, dst);
  }

  /** A move within one column that stores the task's own record is no change. */
  lemma MoveEntryWithinColumn(b: Board, c: ColumnId, id: string)
    requires id in Col(b, c)
    ensures MoveEntry(b, c, c, id, Col(b, c)[id]) == b
  {
    var r := MoveEntry(b, c, c, id, Col(b, c)[id]);
    assert r[c] == b[c];
  }
}
