/**
 The task-list store of the `Todo` component (components/Todo.tsx): five handlers,
 each turning the current list into the next one.

 The component's inputs become parameters: `now` is the clock reading in
 milliseconds and `newId` the id `add` stamps on the new task. Ids are not assumed
 to be unique, so every id-based statement is about ALL tasks carrying the id.
 */
module TodoStore {
  import opened Wrappers
  import opened JsString
  import opened TodoItem

  /** Applies `f` to every task whose id is in `ids` and keeps the others, in place. */
  function MapIds(ts: seq<Task>, ids: set<int>, f: Task -> Task): (r: seq<Task>)
    ensures |r| == |ts|
    ensures forall i :: 0 <= i < |ts| ==> r[i] == (if ts[i].id in ids then f(ts[i]) else ts[i])
  {
    if |ts| == 0 then []
    else [if ts[0].id in ids then f(ts[0]) else ts[0]] + MapIds(ts[1..], ids, f)
  }

  /** Number of tasks carrying id `id`. */
  function CountId(ts: seq<Task>, id: int): nat {
    if |ts| == 0 then 0 else (if ts[0].id == id then 1 else 0) + CountId(ts[1..], id)
  }

  predicate HasId(ts: seq<Task>, id: int) {
    exists i :: 0 <= i < |ts| && ts[i].id == id
  }

  /** No two tasks share an id: what `Date.now()` ids in components/Todo.tsx make likely, but nothing enforces. */
  predicate UniqueIds(ts: seq<Task>) {
    forall i, j :: 0 <= i < j < |ts| ==> ts[i].id != ts[j].id
  }

  predicate AllWellFormed(ts: seq<Task>) {
    forall i :: 0 <= i < |ts| ==> WellFormed(ts[i])
  }

  /**
   `handleAddTodo`: appends a fresh, incomplete task when the input text is not blank,
   and leaves the list alone otherwise. The text is stored as typed, untrimmed.
   */
  function AddTodo(ts: seq<Task>, input: string, newId: int, category: string, priority: Priority,
                   labels: seq<string>, dueDate: Option<int>, recurring: Recurring): (r: seq<Task>)
    ensures AllSpace(input) ==> r == ts
    ensures !AllSpace(input) ==>
      && |r| == |ts| + 1
      && r[..|ts|] == ts
      && r[|ts|] == Task(newId, input, false, category, priority, labels, dueDate, recurring, 0, None)
  {
    if Trim(input) != [] then
      ts + [Task(id := newId, text := input, completed := false, category := category,
                 priority := priority, labels := labels, dueDate := dueDate,
                 recurring := recurring, progress := 0, lastCompleted := None)]
    else
      ts
  }

  /**
   `toggleTodo`: every task with the id flips its completion; one that becomes
   completed gets full progress and completion time `now`, one that becomes
   incomplete gets zero progress and no completion time.
   */
  function ToggleTodo(ts: seq<Task>, id: int, now: int): (r: seq<Task>)
    ensures |r| == |ts|
    ensures forall i :: 0 <= i < |ts| && ts[i].id != id ==> r[i] == ts[i]
    ensures forall i :: 0 <= i < |ts| && ts[i].id == id ==>
      && r[i].completed == !ts[i].completed
      && r[i].progress == (if r[i].completed then 100 else 0)
      && r[i].lastCompleted == (if r[i].completed then Some(now) else None)
      && SameDetails(r[i], ts[i])
  {
    MapIds(ts, {id}, t => Toggled(t, now))
  }

  /**
   `updateProgress`: every task with the id gets the requested progress clamped
   into [0, 100]; its completion flag and time are left as they are.
   */
  function UpdateProgress(ts: seq<Task>, id: int, p: int): (r: seq<Task>)
    ensures |r| == |ts|
    ensures forall i :: 0 <= i < |ts| && ts[i].id != id ==> r[i] == ts[i]
    ensures forall i :: 0 <= i < |ts| && ts[i].id == id ==>
      && 0 <= r[i].progress <= 100
      && (0 <= p <= 100 ==> r[i].progress == p)
      && (p < 0 ==> r[i].progress == 0)
      && (100 < p ==> r[i].progress == 100)
      && r[i].completed == ts[i].completed
      && r[i].lastCompleted == ts[i].lastCompleted
      && SameDetails(r[i], ts[i])
  {
    MapIds(ts, {id}, t => WithProgress(t, p))
  }

  /** `deleteTodo`: drops every task with the id and keeps the rest. */
  function DeleteTodo(ts: seq<Task>, id: int): (r: seq<Task>)
    ensures forall t {:trigger t in r} :: t in r <==> t in ts && t.id != id
    ensures |r| == |ts| - CountId(ts, id)
  {
    if |ts| == 0 then []
    else if ts[0].id == id then DeleteTodo(ts[1..], id)
    else [ts[0]] + DeleteTodo(ts[1..], id)
  }

  /** Ids of the tasks in `ts` that the sweep finds due at `now`. */
  function DueIds(ts: seq<Task>, now: int): (ids: set<int>)
    ensures forall x :: x in ids <==> exists j :: 0 <= j < |ts| && ts[j].id == x && ShouldReset(ts[j], now)
  {
    if |ts| == 0 then {}
    else (if ShouldReset(ts[0], now) then {ts[0].id} else {}) + DueIds(ts[1..], now)
  }

  /**
   The sweep as components/Todo.tsx performs it: it walks the list it captured and, for each
   due task, resets every task of the current list that carries that task's id.
   */
  function SweepFold(captured: seq<Task>, current: seq<Task>, now: int): seq<Task>
    decreases |captured|
  {
    if |captured| == 0 then current
    else
      var todo := captured[0];
      var next := if ShouldReset(todo, now) then MapIds(current, {todo.id}, Reset) else current;
      SweepFold(captured[1..], next, now)
  }

  /**
   `handleRecurringTasks`: resets, in place, every task that shares its id with a
   due task; in particular every due task is reset.
   */
  function HandleRecurringTasks(ts: seq<Task>, now: int): (r: seq<Task>)
    ensures |r| == |ts|
    ensures forall i :: 0 <= i < |ts| ==>
      r[i] == (if exists j :: 0 <= j < |ts| && ts[j].id == ts[i].id && ShouldReset(ts[j], now)
               then Reset(ts[i]) else ts[i])
  {
    SweepFoldIsMap(ts, ts, now);
    SweepFold(ts, ts, now)
  }

  /** One pass of the fold resets, in `current`, exactly the tasks whose ids are due in `captured`. */
  lemma {:induction false} SweepFoldIsMap(captured: seq<Task>, current: seq<Task>, now: int)
    ensures SweepFold(captured, current, now) == MapIds(current, DueIds(captured, now), Reset)
    decreases |captured|
  {
    if |captured| == 0 {
      MapIdsNone(current, Reset);
    } else {
      var todo := captured[0];
      var a: set<int> := if ShouldReset(todo, now) then {todo.id} else {};
      var next := if ShouldReset(todo, now) then MapIds(current, {todo.id}, Reset) else current;
      if !ShouldReset(todo, now) {
        MapIdsNone(current, Reset);
      }
      assert next == MapIds(current, a, Reset);
      SweepFoldIsMap(captured[1..], next, now);
      assert DueIds(captured, now) == a + DueIds(captured[1..], now);
      ResetTwice(current, a, DueIds(captured[1..], now));
    }
  }

  /** Mapping over no ids changes nothing. */
  lemma MapIdsNone(ts: seq<Task>, f: Task -> Task)
    ensures MapIds(ts, {}, f) == ts
  {
  }

  /** Two reset passes amount to one over the union of their ids. */
  lemma ResetTwice(ts: seq<Task>, a: set<int>, b: set<int>)
    ensures MapIds(MapIds(ts, a, Reset), b, Reset) == MapIds(ts, a + b, Reset)
  {
  }
}
