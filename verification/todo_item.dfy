/**
 One entry of the todo list (the `TodoItem` record of components/Todo.tsx) and the
 per-task transformations the list handlers apply to the entries they select.

 Timestamps are integer milliseconds since the epoch: the clock reading and the
 creation-time id are passed in by the caller.
 */
module TodoItem {
  import opened Wrappers

  datatype Priority = Low | Medium | High

  datatype Recurring = NoRecurrence | Daily | Weekly | Monthly

  /**
   `category`, `labels` and `dueDate` are carried but never inspected by the store;
   `dueDate` is a millisecond timestamp.
   */
  datatype Task = Task(
    id: int,
    text: string,
    completed: bool,
    category: string,
    priority: Priority,
    labels: seq<string>,
    dueDate: Option<int>,
    recurring: Recurring,
    progress: int,
    lastCompleted: Option<int>)

  /** Milliseconds in a day: 1000 * 60 * 60 * 24. */
  const MsPerDay: int := 86_400_000

  /** The fields only `add` writes: every other handler leaves them as they were. */
  predicate SameDetails(a: Task, b: Task) {
    && a.id == b.id
    && a.text == b.text
    && a.category == b.category
    && a.priority == b.priority
    && a.labels == b.labels
    && a.dueDate == b.dueDate
    && a.recurring == b.recurring
  }

  /** The state every task is kept in: progress is a percentage, and a completion time is recorded exactly while the task is completed. */
  predicate WellFormed(t: Task) {
    && 0 <= t.progress <= 100
    && (t.completed <==> t.lastCompleted.Some?)
  }

  function Min(a: int, b: int): int { if a <= b then a else b }

  function Max(a: int, b: int): int { if a <= b then b else a }

  /** `Math.min(100, Math.max(0, p))`: the progress value actually stored for a requested `p`. */
  function ClampProgress(p: int): (r: int)
    ensures 0 <= r <= 100
    ensures 0 <= p <= 100 ==> r == p
    ensures p < 0 ==> r == 0
    ensures 100 < p ==> r == 100
  {
    Min(100, Max(0, p))
  }

  /** The checkbox handler's effect on one task, at clock reading `now`. */
  function Toggled(t: Task, now: int): Task {
    t.(completed := !t.completed,
       progress := if !t.completed then 100 else 0,
       lastCompleted := if !t.completed then Some(now) else None)
  }

  /** The progress slider's effect on one task. */
  function WithProgress(t: Task, p: int): Task {
    t.(progress := ClampProgress(p))
  }

  /** The recurrence sweep's effect on one task: back to incomplete, with no completion time. */
  function Reset(t: Task): Task {
    t.(completed := false, progress := 0, lastCompleted := None)
  }

  /** Whole days from `since` to `now`, rounded down (Dafny's `/` floors when the divisor is positive). */
  function ElapsedDays(now: int, since: int): int {
    (now - since) / MsPerDay
  }

  /** Days after its completion at which a recurring task is reactivated; a month is a flat 30 days. */
  function ThresholdDays(r: Recurring): nat
    requires r != NoRecurrence
  {
    match r
    case Daily => 1
    case Weekly => 7
    case Monthly => 30
  }

  /** The sweep's test: a recurring task with a completion time whose interval has run out. */
  predicate ShouldReset(t: Task, now: int) {
    && t.recurring != NoRecurrence
    && t.lastCompleted.Some?
    && ElapsedDays(now, t.lastCompleted.value) >= ThresholdDays(t.recurring)
  }

  /**
   The reset rule in milliseconds: the task is due once at least its threshold's
   worth of whole days, in milliseconds, has passed since its completion.
   */
  lemma ShouldResetIffElapsedMs(t: Task, now: int)
    ensures ShouldReset(t, now) <==>
      && t.recurring != NoRecurrence
      && t.lastCompleted.Some?
      && now - t.lastCompleted.value >= ThresholdDays(t.recurring) * MsPerDay
  {
  }
}
